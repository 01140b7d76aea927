# Post and account stores of a link-aggregator backend, in Dafny

This project models the bookkeeping core of a small link-aggregator backend
written in Go: the post store, which keeps posts with their votes and
comments, and the account table, which registers users and checks logins.
The post store exists in two versions and both are modelled.

- **In-memory post store** (`PostMemoryRepo`, `memory_posts.dfy`). A table
  from post id to post, updated in place. It creates posts with the author's
  own upvote, applies upvote / downvote / unvote, appends and deletes
  comments, and lets a post's author delete the post.
- **Document-store post repository** (`PostMongoRepo`, `mongo_posts.dfy`).
  Each operation reads the post document, updates a local copy and writes the
  change back. The posts collection is modelled as a table from post id to
  document. Whether the store accepts a write is a boolean parameter. Its
  rules differ from the in-memory store in two places:
  - A comment may be deleted by the comment's author. The in-memory store
    only lets the post's author delete comments.
  - A new post is stored with upvote percentage 0. The in-memory store uses
    100.
- **Vote algorithm** (`votes.dfy`). Both stores run the same vote algorithm.
  `Voted` is the specification. `ApplyVote` is the step-by-step version the
  stores call, proved equal to `Voted`.
- **Comments** (`comments.dfy`). Search for a comment by id, and removal of
  every comment with an id.
- **Account table** (`UserMemoryRepo`, `users.dfy`). A table from username to
  user. Registration refuses a taken name. Login tells an unknown user from a
  wrong password.

Proved about the model:

- The tally invariant. A post's score is the sum of its votes, every vote is
  +1 or -1, and no user votes twice. Every vote keeps it, and so does any
  sequence of votes. Under it, the score is the number of upvotes minus the
  number of downvotes.
- After a vote, the voter holds exactly the direction asked for, or none
  after an unvote. Every other user's vote is unchanged. The score moves by
  exactly the change in the voter's own vote.
- Repeating a vote changes nothing.
- A new vote is appended at the end. A flip rewrites only that entry and
  moves the score by 2. An unvote removes exactly that entry.
- The upvote percentage is between 0 and 100. It is 100 with no votes.
- Deleting by comment id keeps the other comments in order. When ids are
  unique, it removes exactly the one comment.
- Each store operation's error cases come in the source's order. Nothing
  else in the table changes.

Inputs from outside the program are parameters:

- The random id generator: `Option<string>` for the in-memory stores, which
  report its failure. A plain string for the document store, whose generator
  answers "" when it fails.
- The clock: `now`.
- The document store's write outcome: `stored`.

## Model

| member | source | states |
|---|---|---|
| `Posts.NewPost` | jwt_token_only/redditclone/pkg/post/repo.go:57-75 | a new post has score 1 and the creator's own upvote, so it satisfies the tally invariant; it has one view, no comments, the author snapshot, the creation time and the given upvote percentage; it keeps the URL for a "link" post and the text otherwise, and leaves the other empty |
| `Votes.FirstVoteIndex` | jwt_token_only/redditclone/pkg/post/repo.go:154-162 | the index of the user's first vote, or -1 exactly when the user has not voted |
| `Votes.UpvoteCount` | jwt_token_only/redditclone/pkg/post/repo.go:210-216 | the upvote count is at most the number of votes; it is 0 exactly when there is no upvote, and equals the number of votes exactly when all are upvotes |
| `Votes.Percentage` | jwt_token_only/redditclone/pkg/post/repo.go:218-222 | the percentage is within 0..100; it is 100 with no votes or only upvotes, and 0 when there are votes but no upvote |
| `Votes.Voted` | jwt_token_only/redditclone/pkg/post/repo.go:164-222 | a vote changes only score, votes and upvote percentage, and the percentage is that of the new vote list |
| `Votes.VotedKeepsTally` | jwt_token_only/redditclone/pkg/post/repo.go:164-207 | from a post whose score is the sum of its +1/-1 votes with one vote per user, any action leads to such a post again |
| `Votes.VotedRecordsIntent` | jwt_token_only/redditclone/pkg/post/repo.go:164-207 | after upvote or downvote the user holds exactly that direction, after unvote none, after any other action what they held; every other user's vote is unchanged and no user votes twice |
| `Votes.ScoreFollowsVoter` | jwt_token_only/redditclone/pkg/post/repo.go:164-207 | the score moves by exactly the change in the voter's own vote (±1 new vote or unvote, ±2 flip, 0 repeat) |
| `Votes.RepeatVoteIsNoop` | jwt_token_only/redditclone/pkg/post/repo.go:164-206 | performing the same action twice leaves the post as after the first |
| `Votes.RepeatedVoteKeeps` | jwt_token_only/redditclone/pkg/post/repo.go:164-189 | a vote matching the held one leaves score and votes unchanged |
| `Votes.NewVoteAppends` | jwt_token_only/redditclone/pkg/post/repo.go:164-194 | a user without a vote gets a new entry appended at the end, and the score moves by one |
| `Votes.FlipRewritesEntry` | jwt_token_only/redditclone/pkg/post/repo.go:164-189 | flipping an opposite vote keeps the number of votes, rewrites only that entry, and moves the score by two |
| `Votes.UnvoteRemovesEntry` | jwt_token_only/redditclone/pkg/post/repo.go:195-206 | unvote removes exactly the user's entry, keeps the others in order and takes its value out of the score; without an entry nothing changes |
| `Votes.OtherActionKeeps` | jwt_token_only/redditclone/pkg/post/repo.go:164-207 | an action other than 1, -1 and 0 changes neither score nor votes |
| `Votes.VoteSumCountsDirections` | jwt_token_only/redditclone/pkg/post/repo.go:164-207 | with +1/-1 votes, the sum of the votes is the number of upvotes minus the number of downvotes |
| `Votes.VotedAllKeepsTally` | jwt_token_only/redditclone/pkg/post/repo.go:146-225 | any sequence of votes by any users keeps the tally invariant, and the score stays upvotes minus downvotes |
| `Votes.FindVote` | databases_version/redditclone/pkg/post/repo_mongo.go:236-242 | the scan with early exit returns the index of the user's first vote, or -1 |
| `Votes.UpdateUpvotePercentage` | databases_version/redditclone/pkg/post/repo_mongo.go:309-326 | the counting loop stores the percentage of the post's votes and changes nothing else |
| `Votes.ApplyVote` | databases_version/redditclone/pkg/post/repo_mongo.go:236-287 | the step-by-step update of the local post copy (score adjustments, in-place flip, append, splice, percentage) gives exactly the post `Voted` specifies |
| `Comments.FirstCommentIndex` | databases_version/redditclone/pkg/post/repo_mongo.go:190-196 | the index of the first comment with the id, or -1 exactly when no comment has it |
| `Comments.WithoutComment` | jwt_token_only/redditclone/pkg/post/repo.go:129-137 | the list shrinks exactly when a comment had the id, and is unchanged when none had it |
| `Comments.WithoutCommentMembers` | jwt_token_only/redditclone/pkg/post/repo.go:129-137 | a comment is kept exactly when it was on the post and its id differs |
| `Comments.WithoutCommentConcat` | jwt_token_only/redditclone/pkg/post/repo.go:129-137 | removal by id distributes over concatenation, so the kept comments keep their order |
| `Comments.WithoutUniqueComment` | databases_version/redditclone/pkg/post/repo_mongo.go:207 | when only one comment has the id, removing by id removes exactly that comment and keeps the rest in order |
| `MemoryPosts.PostMemoryRepo.constructor` | jwt_token_only/redditclone/pkg/post/repo.go:21-25 | the store starts empty |
| `MemoryPosts.PostMemoryRepo.Collect` | jwt_token_only/redditclone/pkg/post/repo.go:37-47 | the loop over the table collects exactly the stored posts that pass the filter |
| `MemoryPosts.PostMemoryRepo.GetPosts` | jwt_token_only/redditclone/pkg/post/repo.go:27-35 | returns exactly the stored posts |
| `MemoryPosts.PostMemoryRepo.GetPostsByCategory` | jwt_token_only/redditclone/pkg/post/repo.go:37-47 | returns exactly the stored posts of that category |
| `MemoryPosts.PostMemoryRepo.PostsByUser` | jwt_token_only/redditclone/pkg/post/repo.go:242-252 | returns exactly the stored posts whose author has that username |
| `MemoryPosts.PostMemoryRepo.GetPost` | jwt_token_only/redditclone/pkg/post/repo.go:81-92 | a stored post is returned as stored; a missing id gives PostNotFound |
| `MemoryPosts.PostMemoryRepo.CreatePost` | jwt_token_only/redditclone/pkg/post/repo.go:49-79 | an id-generator failure gives its error and changes nothing; otherwise the new post (percentage 100) is stored under the generated id, replacing any post there, and a fresh id adds exactly one entry; the store invariant is kept |
| `MemoryPosts.PostMemoryRepo.AddComment` | jwt_token_only/redditclone/pkg/post/repo.go:94-117 | a missing post gives PostNotFound, an id-generator failure its error, both with no change; otherwise exactly one comment (id, body, author snapshot, time) is appended at the end and every other post is unchanged |
| `MemoryPosts.PostMemoryRepo.DeleteComment` | jwt_token_only/redditclone/pkg/post/repo.go:119-144 | PostNotFound, then Unauthorized for anyone but the post's author (before the search), then CommentNotFound, each with no change; otherwise every comment with the id is removed, the rest keep their order, other posts unchanged |
| `MemoryPosts.RemoveComment` | jwt_token_only/redditclone/pkg/post/repo.go:129-140 | the filtering loop returns the comments without the id, in order, and whether one was seen |
| `MemoryPosts.PostMemoryRepo.VotePost` | jwt_token_only/redditclone/pkg/post/repo.go:146-225 | an unknown post gives PostNotFound with no change; otherwise the post becomes `Voted(post, user, action)`, other posts unchanged, and the store invariant (tally, percentage) is kept |
| `MemoryPosts.PostMemoryRepo.DeletePost` | jwt_token_only/redditclone/pkg/post/repo.go:227-240 | a missing id gives PostNotFound and a non-author Unauthorized, both leaving the table unchanged; the author's call removes that key only |
| `MongoPosts.FindComment` | databases_version/redditclone/pkg/post/repo_mongo.go:190-196 | the scan with early exit returns the index of the first comment with the id, or -1 |
| `MongoPosts.PostMongoRepo.constructor` | databases_version/redditclone/pkg/post/repo_mongo.go:40-45 | the repository wraps the collection it is given, with every document it already holds; only that each document sits under its own `id` is demanded |
| `MongoPosts.PostMongoRepo.CreatePost` | databases_version/redditclone/pkg/post/repo_mongo.go:96-126 | a refused insert gives no post and no change; otherwise the new post, with percentage left at 0, is stored under the generated id; a collection whose documents all keep the tally invariant and a 0..100 percentage still does afterwards |
| `MongoPosts.PostMongoRepo.AddComment` | databases_version/redditclone/pkg/post/repo_mongo.go:144-175 | a missing post gives PostNotFound; a refused write fails with no change; otherwise the fetched post with exactly one new comment at the end is stored and returned; a collection whose documents all keep the tally invariant and a 0..100 percentage still does afterwards |
| `MongoPosts.PostMongoRepo.DeleteComment` | databases_version/redditclone/pkg/post/repo_mongo.go:177-221 | PostNotFound, then CommentNotFound, then Unauthorized when the first matching comment's author is not the requester, each with no change; otherwise every comment with the id is pulled and the stored post returned; a collection whose documents all keep the tally invariant and a 0..100 percentage still does afterwards |
| `MongoPosts.PostMongoRepo.VotePost` | databases_version/redditclone/pkg/post/repo_mongo.go:223-307 | a missing post gives PostNotFound; a refused write changes nothing; otherwise only score, votes and percentage are written, the stored post becomes `Voted(post, user, vote)` and is returned; a collection whose documents all keep the tally invariant and a 0..100 percentage still does afterwards |
| `MongoPosts.PostMongoRepo.DeletePost` | databases_version/redditclone/pkg/post/repo_mongo.go:328-358 | a missing post gives PostNotFound and a non-author Unauthorized, with nothing deleted; the author's call removes that post only; a collection whose documents all keep the tally invariant and a 0..100 percentage still does afterwards |
| `MongoPosts.VoteTestExpectations` | databases_version/redditclone/pkg/post/repo_mongo_test.go:340-740 | the states the vote tests expect: upvote and downvote on an empty post (score ±1, percentage 100 / 0), both flips, and unvoting the only vote (score 0, no votes, percentage 100) |
| `Users.UserMemoryRepo.constructor` | jwt_token_only/redditclone/pkg/user/repo.go:22-26 | the table starts empty |
| `Users.UserMemoryRepo.Authorize` | jwt_token_only/redditclone/pkg/user/repo.go:28-39 | an unknown username gives NoUser, a different password BadPass, an equal one the stored user, whose username is the one asked for; the table is only read |
| `Users.UserMemoryRepo.Register` | jwt_token_only/redditclone/pkg/user/repo.go:41-58 | a taken username gives AlreadyExists and an id-generator failure its error, both with no change; otherwise exactly one entry is added under the username, holding the username, password and generated id |
| `Users.RegisterThenAuthorize` | jwt_token_only/redditclone/pkg/user/repo.go:28-58 | after a successful registration, login with the same credentials returns the registered user and registering the name again gives AlreadyExists |

## Left out

- Locks (`sync.RWMutex`), timeouts and the non-atomic read-modify-write of the document store. The model runs one operation at a time.
- Database round trips are not modelled: `Find`/`FindOne`/`UpdateOne`/`DeleteOne`, cursors, and decoding errors. The collection is a table from the post's `id` field to its document. An insert under an id already present replaces that document, where the real store would hold two documents with the same `id`.
- `MongoPosts.PostMongoRepo.constructor`: documents already in the collection may break the tally invariant. The test fixture with score 5 and no votes (`databases_version/redditclone/pkg/post/repo_mongo_test.go:37-49`) is one. Every operation accepts such documents. The guarantee that every document keeps the tally invariant (`Tallies`) is only conditional: it holds afterwards when it held before.
- The document store's re-reads after a write (`repo_mongo.go:214-218`, `repo_mongo.go:301-305`) are not modelled. Neither is the `DeletedCount == 0` answer (`repo_mongo.go:353-356`). Both only differ from the written value under concurrent writers.
- The document store's `GetPosts`, `GetPostsByCategory`, `GetPost` and `PostsByUser` are not modelled. They are database queries with no logic of their own; the in-memory versions are modelled.
- `Votes.Percentage`: uses integer division `upvotes * 100 / total`, not the source's `float64` arithmetic. The float result can be one less where the exact share is a whole percentage: for 29 of 100 the float gives 28, this model 29. Empty lists, all-upvote lists and no-upvote lists agree.
- Aliasing is not modelled. `GetPosts` returns the stored post pointers themselves (`jwt_token_only/redditclone/pkg/post/repo.go:30-32`), so every later change to a stored post is visible through its result. `GetPostsByCategory`, `PostsByUser` and `GetPost` return copies of the Go structs, but a copy's vote and comment slices share memory with the stored post, so a later in-place flip or splice of the votes is visible through it. `CreatePost`, `AddComment`, `DeleteComment` and `VotePost` return a pointer to the stored post. Here every result is a value.
- Listings are returned as sets, because Go's map iteration order is unspecified. Two stored posts can only be equal values if they share an id, and the store invariant rules that out.
- The id generator (`crypto/rand` plus hex) is not modelled. Its answer is a parameter, and nothing guarantees freshness.
- `time.Now()` is a parameter.
- Logging is not modelled.
- Token signing (`GenerateUserToken`), sessions, the HTTP handlers and the SQL account table are not part of this model.

## Findings

None. The two stores' different comment-deletion rules are modelled as written: the in-memory store checks the post's author, the document store the comment's author. The document store creating posts with percentage 0 is also modelled as written. The code does not show which rule, or which starting percentage, was intended.
