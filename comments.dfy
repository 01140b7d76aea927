/** Searching and removing comments by id: the first-match search of the
    document store and the remove-every-match filter both stores end with. */
module Comments {
  import opened Posts

  /** Some comment carries id `commentID`. */
  predicate HasComment(comments: seq<Comment>, commentID: string)
  {
    exists k :: 0 <= k < |comments| && comments[k].id == commentID
  }

  /** Index of the first comment with id `commentID`, or -1 when there is none. */
  function FirstCommentIndex(comments: seq<Comment>, commentID: string): (i: int)
    ensures -1 <= i < |comments|
    ensures i >= 0 ==> comments[i].id == commentID && forall k :: 0 <= k < i ==> comments[k].id != commentID
    ensures i == -1 <==> !HasComment(comments, commentID)
  {
    if comments == [] then -1
    else if comments[0].id == commentID then 0
    else
      var j := FirstCommentIndex(comments[1..], commentID);
      assert forall k :: 0 < k < |comments| ==> comments[k] == comments[1..][k - 1];
      if j == -1 then -1 else j + 1
  }

  /** The comments, in their order, without every one whose id is `commentID`. */
  function WithoutComment(comments: seq<Comment>, commentID: string): (r: seq<Comment>)
    ensures HasComment(comments, commentID) <==> |r| < |comments|
    ensures !HasComment(comments, commentID) ==> r == comments
  {
    if comments == [] then []
    else
      var rest := WithoutComment(comments[1..], commentID);
      assert forall k :: 0 < k < |comments| ==> comments[k] == comments[1..][k - 1];
      assert HasComment(comments[1..], commentID) ==> HasComment(comments, commentID);
      if comments[0].id == commentID then rest else [comments[0]] + rest
  }

  /** A comment survives the removal exactly when it was on the post and
      carries a different id. */
  lemma {:induction false} WithoutCommentMembers(comments: seq<Comment>, commentID: string, c: Comment)
    ensures c in WithoutComment(comments, commentID) <==> c in comments && c.id != commentID
  {
    if comments != [] {
      WithoutCommentMembers(comments[1..], commentID, c);
      assert comments == [comments[0]] + comments[1..];
    }
  }

  /** Filtering distributes over concatenation: the surviving comments keep
      their relative order. */
  lemma {:induction false} WithoutCommentConcat(a: seq<Comment>, b: seq<Comment>, commentID: string)
    ensures WithoutComment(a + b, commentID) == WithoutComment(a, commentID) + WithoutComment(b, commentID)
  {
    if a == [] {
      assert a + b == b;
    } else {
      assert (a + b)[0] == a[0] && (a + b)[1..] == a[1..] + b;
      WithoutCommentConcat(a[1..], b, commentID);
    }
  }

  /** Extending the scanned prefix by one comment: the filter keeps it
      exactly when its id differs, and the search has seen the id exactly
      when it had already or this comment carries it. */
  lemma WithoutCommentStep(comments: seq<Comment>, i: nat, commentID: string)
    requires i < |comments|
    ensures WithoutComment(comments[..i + 1], commentID)
            == WithoutComment(comments[..i], commentID)
               + (if comments[i].id == commentID then [] else [comments[i]])
    ensures HasComment(comments[..i + 1], commentID)
            == (HasComment(comments[..i], commentID) || comments[i].id == commentID)
  {
    var c := comments[i];
    assert comments[..i + 1] == comments[..i] + [c];
    WithoutCommentConcat(comments[..i], [c], commentID);
    assert [c][1..] == [];
    assert HasComment(comments[..i], commentID) ==> HasComment(comments[..i + 1], commentID) by {
      if HasComment(comments[..i], commentID) {
        var k :| 0 <= k < i && comments[..i][k].id == commentID;
        assert comments[..i + 1][k] == comments[..i][k];
      }
    }
    assert c.id == commentID ==> comments[..i + 1][i].id == commentID;
  }

  /** When ids are unique, removing by id removes exactly the one comment at
      its index and keeps the others in order. */
  lemma {:induction false} WithoutUniqueComment(comments: seq<Comment>, commentID: string, k: nat)
    requires k < |comments| && comments[k].id == commentID
    requires forall j :: 0 <= j < |comments| && j != k ==> comments[j].id != commentID
    ensures WithoutComment(comments, commentID) == comments[..k] + comments[k + 1..]
  {
    var head, mid, tail := comments[..k], [comments[k]], comments[k + 1..];
    assert comments == head + mid + tail;
    assert !HasComment(head, commentID) by {
      forall j | 0 <= j < |head| ensures head[j].id != commentID { assert head[j] == comments[j]; }
    }
    assert !HasComment(tail, commentID) by {
      forall j | 0 <= j < |tail| ensures tail[j].id != commentID { assert tail[j] == comments[k + 1 + j]; }
    }
    assert WithoutComment(mid, commentID) == [] by {
      assert mid[1..] == [];
    }
    WithoutCommentConcat(head + mid, tail, commentID);
    WithoutCommentConcat(head, mid, commentID);
    assert WithoutComment(head + mid, commentID) == head;
  }
}
