/** The document-store post repository. Every operation reads the post
    document, updates a local copy of it, and writes the change back. The
    posts collection is a table from the post's id to its document; whether
    the store accepts a write is the parameter `stored`, the generated id is
    the parameter `generatedID` (the generator answers "" when it fails), and
    the creation time is `now`. */
module MongoPosts {
  import opened Results
  import opened Posts
  import opened Votes
  import opened Comments

  /** The `$set` document a vote writes back: exactly the three tally fields. */
  datatype TallyUpdate = TallyUpdate(score: int, votes: seq<Vote>, upvotePercentage: int)

  /** The stored document after a `$set` of the tally fields. */
  function SetTally(doc: Post, update: TallyUpdate): Post
  {
    doc.(score := update.score, votes := update.votes, upvotePercentage := update.upvotePercentage)
  }

  /** Scans for the first comment with id `commentID`, stopping at it. */
  method FindComment(comments: seq<Comment>, commentID: string) returns (commentIndex: int)
    ensures commentIndex == FirstCommentIndex(comments, commentID)
  {
    commentIndex := -1;
    var i := 0;
    while i < |comments|
      invariant 0 <= i <= |comments|
      invariant forall k :: 0 <= k < i ==> comments[k].id != commentID
    {
      if comments[i].id == commentID {
        commentIndex := i;
        break;
      }
      i := i + 1;
    }
    assert commentIndex == -1 ==> !HasComment(comments, commentID);
  }

  class PostMongoRepo {
    var collection: map<string, Post>

    /** Every document sits under its own id: a lookup by the `id` field
        finds it. Nothing else is demanded of documents already stored. */
    ghost predicate Valid()
      reads this
    {
      forall id :: id in collection ==> collection[id].id == id
    }

    /** Every document keeps the tally invariant and holds a percentage
        between 0 and 100. The percentage need not match the votes: a new post
        is stored with 0 until its first vote. Documents written by other
        programs need not satisfy this; every operation here keeps it. */
    ghost predicate Tallies()
      reads this
    {
      forall id :: id in collection ==>
        Tallied(collection[id]) && 0 <= collection[id].upvotePercentage <= 100
    }

    /** Wraps an existing collection, which may already hold documents. */
    constructor (initial: map<string, Post>)
      requires forall id :: id in initial ==> initial[id].id == id
      ensures Valid() && collection == initial
    {
      collection := initial;
    }

    /** Inserts a new post; the percentage is left at 0. A refused insert
        gives no post. */
    method CreatePost(req: NewPostRequest, username: string, userID: string, generatedID: string, now: int,
                      stored: bool)
      returns (r: Option<Post>)
      requires Valid()
      modifies this
      ensures Valid()
      ensures old(Tallies()) ==> Tallies()
      ensures !stored ==> r == None && collection == old(collection)
      ensures stored ==>
                && r == Some(NewPost(req, username, userID, generatedID, now, 0))
                && collection == old(collection)[generatedID := r.value]
    {
      var post := NewPost(req, username, userID, generatedID, now, 0);
      if !stored {
        return None;
      }
      collection := collection[generatedID := post];
      r := Some(post);
    }

    /** Pushes one comment onto the post and returns the fetched post with
        that comment appended. */
    method AddComment(postID: string, username: string, userID: string, body: string,
                      generatedID: string, now: int, stored: bool)
      returns (r: Result<Post, PostError>)
      requires Valid()
      modifies this
      ensures Valid()
      ensures old(Tallies()) ==> Tallies()
      ensures postID !in old(collection) ==> r == Failure(PostNotFound) && collection == old(collection)
      ensures postID in old(collection) && !stored ==> r == Failure(StoreFailed) && collection == old(collection)
      ensures postID in old(collection) && stored ==>
                var before := old(collection)[postID];
                && r == Success(before.(comments := before.comments + [Comment(generatedID, Author(username, userID), body, now)]))
                && collection == old(collection)[postID := r.value]
    {
      if postID !in collection {
        return Failure(PostNotFound);
      }
      var post := collection[postID];
      var comment := Comment(generatedID, Author(username, userID), body, now);
      if !stored {
        return Failure(StoreFailed);
      }
      collection := collection[postID := collection[postID].(comments := collection[postID].comments + [comment])];
      post := post.(comments := post.comments + [comment]);
      r := Success(post);
    }

    /** Only the author of the first comment with the id may delete it, and a
        missing comment is reported before a wrong requester. The `$pull` then
        removes every comment with that id, and the post is read back. */
    method DeleteComment(postID: string, commentID: string, userID: string, stored: bool)
      returns (r: Result<Post, PostError>)
      requires Valid()
      modifies this
      ensures Valid()
      ensures old(Tallies()) ==> Tallies()
      ensures postID !in old(collection) ==> r == Failure(PostNotFound) && collection == old(collection)
      ensures postID in old(collection) ==>
                var comments := old(collection)[postID].comments;
                var i := FirstCommentIndex(comments, commentID);
                && (i == -1 ==> r == Failure(CommentNotFound) && collection == old(collection))
                && (i != -1 && comments[i].author.id != userID ==>
                      r == Failure(Unauthorized) && collection == old(collection))
                && (i != -1 && comments[i].author.id == userID && !stored ==>
                      r == Failure(StoreFailed) && collection == old(collection))
                && (i != -1 && comments[i].author.id == userID && stored ==>
                      && r == Success(old(collection)[postID].(comments := WithoutComment(comments, commentID)))
                      && collection == old(collection)[postID := r.value])
    {
      if postID !in collection {
        return Failure(PostNotFound);
      }
      var post := collection[postID];
      var commentIndex := FindComment(post.comments, commentID);
      if commentIndex == -1 || post.comments[commentIndex].author.id != userID {
        if commentIndex == -1 {
          return Failure(CommentNotFound);
        }
        return Failure(Unauthorized);
      }
      if !stored {
        return Failure(StoreFailed);
      }
      collection := collection[postID := post.(comments := WithoutComment(post.comments, commentID))];
      r := Success(collection[postID]);
    }

    /** Applies the vote to a local copy, writes back only score, votes and
        percentage, and returns the post as read back from the store. */
    method VotePost(postID: string, userID: string, vote: int, stored: bool) returns (r: Result<Post, PostError>)
      requires Valid()
      modifies this
      ensures Valid()
      ensures old(Tallies()) ==> Tallies()
      ensures postID !in old(collection) ==> r == Failure(PostNotFound) && collection == old(collection)
      ensures postID in old(collection) && !stored ==> r == Failure(StoreFailed) && collection == old(collection)
      ensures postID in old(collection) && stored ==>
                && r == Success(Voted(old(collection)[postID], userID, vote))
                && collection == old(collection)[postID := r.value]
    {
      if postID !in collection {
        return Failure(PostNotFound);
      }
      var post := ApplyVote(collection[postID], userID, vote);
      var update := TallyUpdate(post.score, post.votes, post.upvotePercentage);
      if !stored {
        return Failure(StoreFailed);
      }
      if Tallied(collection[postID]) {
        VotedKeepsTally(collection[postID], userID, vote);
      }
      collection := collection[postID := SetTally(collection[postID], update)];
      r := Success(collection[postID]);
    }

    /** Only the post's author may delete it; otherwise nothing is deleted. */
    method DeletePost(postID: string, userID: string, stored: bool) returns (ok: bool, err: Option<PostError>)
      requires Valid()
      modifies this
      ensures Valid()
      ensures old(Tallies()) ==> Tallies()
      ensures postID !in old(collection) ==> !ok && err == Some(PostNotFound) && collection == old(collection)
      ensures postID in old(collection) && old(collection)[postID].author.id != userID ==>
                !ok && err == Some(Unauthorized) && collection == old(collection)
      ensures postID in old(collection) && old(collection)[postID].author.id == userID && !stored ==>
                !ok && err == Some(StoreFailed) && collection == old(collection)
      ensures postID in old(collection) && old(collection)[postID].author.id == userID && stored ==>
                ok && err == None && collection == old(collection) - {postID}
    {
      if postID !in collection {
        return false, Some(PostNotFound);
      }
      var post := collection[postID];
      if post.author.id != userID {
        return false, Some(Unauthorized);
      }
      if !stored {
        return false, Some(StoreFailed);
      }
      collection := collection - {postID};
      return true, None;
    }
  }

  /** The states the repository's vote tests expect after one vote. */
  lemma VoteTestExpectations(p: Post)
    requires p.votes == [] && p.score == 0
    ensures var q := Voted(p, "user42", 1); q.score == 1 && |q.votes| == 1 && q.upvotePercentage == 100
    ensures var q := Voted(p, "user43", -1); q.score == -1 && |q.votes| == 1 && q.upvotePercentage == 0
    ensures var q := Voted(p.(score := -1, votes := [Vote("user42", -1)]), "user42", 1);
            q.score == 1 && q.votes == [Vote("user42", 1)] && q.upvotePercentage == 100
    ensures var q := Voted(p.(score := 1, votes := [Vote("user42", 1)]), "user42", -1);
            q.score == -1 && q.votes == [Vote("user42", -1)] && q.upvotePercentage == 0
    ensures var q := Voted(p.(score := 1, votes := [Vote("user44", 1)]), "user44", 0);
            q.score == 0 && q.votes == [] && q.upvotePercentage == 100
    ensures var q := Voted(p.(score := -1, votes := [Vote("user45", -1)]), "user45", 0);
            q.score == 0 && q.votes == [] && q.upvotePercentage == 100
  {
  }
}
