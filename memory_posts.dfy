/** The in-memory post store: a table from post id to post, updated in place
    under one lock. Listings come back in the table's iteration order, which
    Go leaves unspecified, so they are sets here. */
module MemoryPosts {
  import opened Results
  import opened Posts
  import opened Votes
  import opened Comments

  class PostMemoryRepo {
    var posts: map<string, Post>

    /** Every post sits under its own id, keeps the tally invariant and shows
        the upvote percentage of its votes. */
    ghost predicate Valid()
      reads this
    {
      forall id :: id in posts ==>
        posts[id].id == id && Tallied(posts[id]) && posts[id].upvotePercentage == Percentage(posts[id].votes)
    }

    constructor ()
      ensures Valid() && posts == map[]
    {
      posts := map[];
    }

    /** Every post the table holds that satisfies `keep`. */
    method Collect(keep: Post -> bool) returns (r: set<Post>)
      ensures r == set id | id in posts && keep(posts[id]) :: posts[id]
    {
      r := {};
      var rest := posts.Keys;
      while rest != {}
        invariant rest <= posts.Keys
        invariant r == set id | id in posts && id !in rest && keep(posts[id]) :: posts[id]
        decreases rest
      {
        var id :| id in rest;
        if keep(posts[id]) {
          r := r + {posts[id]};
        }
        rest := rest - {id};
      }
    }

    method GetPosts() returns (r: set<Post>)
      ensures forall p :: p in r <==> exists id :: id in posts && posts[id] == p
    {
      r := Collect((p: Post) => true);
    }

    method GetPostsByCategory(category: string) returns (r: set<Post>)
      ensures forall p :: p in r <==> p.category == category && exists id :: id in posts && posts[id] == p
    {
      r := Collect((p: Post) => p.category == category);
    }

    method PostsByUser(username: string) returns (r: set<Post>)
      ensures forall p :: p in r <==> p.author.username == username && exists id :: id in posts && posts[id] == p
    {
      r := Collect((p: Post) => p.author.username == username);
    }

    method GetPost(id: string) returns (r: Result<Post, PostError>)
      ensures id in posts ==> r == Success(posts[id])
      ensures id !in posts ==> r == Failure(PostNotFound)
    {
      if id !in posts {
        return Failure(PostNotFound);
      }
      r := Success(posts[id]);
    }

    /** `newID` is the id generator's answer, None when it failed. The new post
        is stored under that id, replacing any post already there. */
    method CreatePost(req: NewPostRequest, username: string, userID: string, newID: Option<string>, now: int)
      returns (r: Result<Post, PostError>)
      requires Valid()
      modifies this
      ensures Valid()
      ensures newID.None? ==> r == Failure(GenerateIDFailed) && posts == old(posts)
      ensures newID.Some? ==>
                && r == Success(NewPost(req, username, userID, newID.value, now, 100))
                && posts == old(posts)[newID.value := r.value]
      ensures newID.Some? && r.value.id !in old(posts) ==> |posts| == |old(posts)| + 1
    {
      if newID.None? {
        return Failure(GenerateIDFailed);
      }
      var post := NewPost(req, username, userID, newID.value, now, 100);
      assert post.upvotePercentage == Percentage(post.votes);
      posts := posts[newID.value := post];
      r := Success(post);
    }

    /** Appends a comment with the generated id, the body and the commenter's
        snapshot. The post is looked up before an id is generated. */
    method AddComment(postID: string, username: string, userID: string, body: string,
                      newID: Option<string>, now: int)
      returns (r: Result<Post, PostError>)
      requires Valid()
      modifies this
      ensures Valid()
      ensures postID !in old(posts) ==> r == Failure(PostNotFound) && posts == old(posts)
      ensures postID in old(posts) && newID.None? ==> r == Failure(GenerateIDFailed) && posts == old(posts)
      ensures postID in old(posts) && newID.Some? ==>
                var before := old(posts)[postID];
                && r == Success(before.(comments := before.comments + [Comment(newID.value, Author(username, userID), body, now)]))
                && posts == old(posts)[postID := r.value]
    {
      if postID !in posts {
        return Failure(PostNotFound);
      }
      if newID.None? {
        return Failure(GenerateIDFailed);
      }
      var post := posts[postID];
      var comment := Comment(newID.value, Author(username, userID), body, now);
      post := post.(comments := post.comments + [comment]);
      posts := posts[postID := post];
      r := Success(post);
    }

    /** Only the post's author may delete comments on it, and that is checked
        before the comment is searched for. Every comment with the id goes. */
    method DeleteComment(postID: string, commentID: string, userID: string) returns (r: Result<Post, PostError>)
      requires Valid()
      modifies this
      ensures Valid()
      ensures postID !in old(posts) ==> r == Failure(PostNotFound) && posts == old(posts)
      ensures postID in old(posts) && old(posts)[postID].author.id != userID ==>
                r == Failure(Unauthorized) && posts == old(posts)
      ensures postID in old(posts) && old(posts)[postID].author.id == userID
              && !HasComment(old(posts)[postID].comments, commentID) ==>
                r == Failure(CommentNotFound) && posts == old(posts)
      ensures postID in old(posts) && old(posts)[postID].author.id == userID
              && HasComment(old(posts)[postID].comments, commentID) ==>
                var before := old(posts)[postID];
                && r == Success(before.(comments := WithoutComment(before.comments, commentID)))
                && posts == old(posts)[postID := r.value]
    {
      if postID !in posts {
        return Failure(PostNotFound);
      }
      var post := posts[postID];
      if post.author.id != userID {
        return Failure(Unauthorized);
      }
      var kept, found := RemoveComment(post.comments, commentID);
      if !found {
        return Failure(CommentNotFound);
      }
      post := post.(comments := kept);
      posts := posts[postID := post];
      r := Success(post);
    }

    /** Applies upvote (1), downvote (-1) or unvote (0) for `userID`, then
        recomputes the upvote percentage. */
    method VotePost(postID: string, userID: string, action: int) returns (r: Result<Post, PostError>)
      requires Valid()
      modifies this
      ensures Valid()
      ensures postID !in old(posts) ==> r == Failure(PostNotFound) && posts == old(posts)
      ensures postID in old(posts) ==>
                && r == Success(Voted(old(posts)[postID], userID, action))
                && posts == old(posts)[postID := r.value]
    {
      if postID !in posts {
        return Failure(PostNotFound);
      }
      var post := ApplyVote(posts[postID], userID, action);
      VotedKeepsTally(posts[postID], userID, action);
      posts := posts[postID := post];
      r := Success(post);
    }

    /** Only the post's author may delete it; the post is then gone and no
        other post changes. */
    method DeletePost(postID: string, userID: string) returns (ok: bool, err: Option<PostError>)
      requires Valid()
      modifies this
      ensures Valid()
      ensures postID !in old(posts) ==> !ok && err == Some(PostNotFound) && posts == old(posts)
      ensures postID in old(posts) && old(posts)[postID].author.id != userID ==>
                !ok && err == Some(Unauthorized) && posts == old(posts)
      ensures postID in old(posts) && old(posts)[postID].author.id == userID ==>
                ok && err == None && posts == old(posts) - {postID}
    {
      if postID !in posts {
        return false, Some(PostNotFound);
      }
      if posts[postID].author.id != userID {
        return false, Some(Unauthorized);
      }
      posts := posts - {postID};
      return true, None;
    }
  }

  /** The comments without every one whose id is `commentID`, in their order,
      and whether any was seen. */
  method RemoveComment(comments: seq<Comment>, commentID: string) returns (kept: seq<Comment>, found: bool)
    ensures kept == WithoutComment(comments, commentID)
    ensures found == HasComment(comments, commentID)
  {
    kept, found := [], false;
    var i := 0;
    while i < |comments|
      invariant 0 <= i <= |comments|
      invariant kept == WithoutComment(comments[..i], commentID)
      invariant found == HasComment(comments[..i], commentID)
    {
      var c := comments[i];
      WithoutCommentStep(comments, i, commentID);
      if c.id == commentID {
        found := true;
      } else {
        kept := kept + [c];
      }
      i := i + 1;
    }
    assert comments[..i] == comments;
  }
}
