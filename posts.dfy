/** The entities of the post store: posts with their embedded author snapshot,
    votes and comments, and the request that creates a post. */
module Posts {

  /** Denormalised (username, user id) snapshot taken when a post or comment is made. */
  datatype Author = Author(username: string, id: string)

  /** `created` is the creation timestamp, supplied by the caller as a number. */
  datatype Comment = Comment(id: string, author: Author, body: string, created: int)

  /** One user's vote on a post: `vote` is +1 or -1 in every stored post. */
  datatype Vote = Vote(user: string, vote: int)

  /** `postType` is the post's `Type` ("link" or anything else, treated as text). */
  datatype Post = Post(
    score: int,
    views: int,
    postType: string,
    title: string,
    url: string,
    author: Author,
    category: string,
    text: string,
    votes: seq<Vote>,
    comments: seq<Comment>,
    created: int,
    upvotePercentage: int,
    id: string)

  datatype NewPostRequest = NewPostRequest(
    category: string,
    postType: string,
    title: string,
    text: string,
    url: string)

  /** The errors the post stores report. `GenerateIDFailed` is the id generator's
      error; `StoreFailed` is a write the document store refused. */
  datatype PostError = PostNotFound | CommentNotFound | Unauthorized | GenerateIDFailed | StoreFailed

  /** Sum of the vote values: what `score` must equal. */
  function VoteSum(votes: seq<Vote>): int
  {
    if votes == [] then 0 else votes[0].vote + VoteSum(votes[1..])
  }

  /** No user appears twice in the vote list. */
  predicate UniqueVoters(votes: seq<Vote>)
  {
    forall i, j :: 0 <= i < j < |votes| ==> votes[i].user != votes[j].user
  }

  /** Every stored vote is an upvote or a downvote. */
  predicate Directions(votes: seq<Vote>)
  {
    forall i :: 0 <= i < |votes| ==> votes[i].vote == 1 || votes[i].vote == -1
  }

  /** The tally invariant of a post: the score is the sum of its votes,
      each a +1 or -1, at most one per user. */
  predicate Tallied(p: Post)
  {
    p.score == VoteSum(p.votes) && UniqueVoters(p.votes) && Directions(p.votes)
  }

  /** A freshly created post: score 1, one view, the creator's own upvote, no
      comments; a "link" post keeps the URL, any other keeps the text. The two
      stores differ only in the upvote percentage they start with. */
  function NewPost(req: NewPostRequest, username: string, userID: string, id: string,
                   now: int, upvotePercentage: int): (p: Post)
    ensures Tallied(p) && p.votes == [Vote(userID, 1)] && p.comments == []
    ensures p.id == id && p.author == Author(username, userID)
    ensures p.views == 1 && p.created == now && p.upvotePercentage == upvotePercentage
    ensures p.category == req.category && p.postType == req.postType && p.title == req.title
    ensures if req.postType == "link" then p.url == req.url && p.text == ""
            else p.text == req.text && p.url == ""
  {
    Post(
      score := 1,
      views := 1,
      postType := req.postType,
      title := req.title,
      url := if req.postType == "link" then req.url else "",
      author := Author(username, userID),
      category := req.category,
      text := if req.postType == "link" then "" else req.text,
      votes := [Vote(userID, 1)],
      comments := [],
      created := now,
      upvotePercentage := upvotePercentage,
      id := id)
  }
}
