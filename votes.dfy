/** The vote algorithm that both post stores run on one post: find the user's
    existing vote, apply upvote (1), downvote (-1) or unvote (0) to the score
    and the vote list, then recompute the upvote percentage. */
module Votes {
  import opened Results
  import opened Posts

  /** Index of the first vote cast by `user`, or -1 when there is none. */
  function FirstVoteIndex(votes: seq<Vote>, user: string): (i: int)
    ensures -1 <= i < |votes|
    ensures i >= 0 ==> votes[i].user == user && forall k :: 0 <= k < i ==> votes[k].user != user
    ensures i == -1 ==> forall k :: 0 <= k < |votes| ==> votes[k].user != user
  {
    if votes == [] then -1
    else if votes[0].user == user then 0
    else
      var j := FirstVoteIndex(votes[1..], user);
      if j == -1 then -1 else j + 1
  }

  /** The direction `user` currently holds on the post, if any. */
  function VoteOf(votes: seq<Vote>, user: string): Option<int>
  {
    var i := FirstVoteIndex(votes, user);
    if i == -1 then None else Some(votes[i].vote)
  }

  /** Number of upvotes in the list. */
  function UpvoteCount(votes: seq<Vote>): (n: nat)
    ensures n <= |votes|
    ensures n == 0 <==> forall k :: 0 <= k < |votes| ==> votes[k].vote != 1
    ensures n == |votes| <==> forall k :: 0 <= k < |votes| ==> votes[k].vote == 1
  {
    if votes == [] then 0
    else (if votes[0].vote == 1 then 1 else 0) + UpvoteCount(votes[1..])
  }

  /** Counting upvotes left to right: one more entry adds one when it is an upvote. */
  lemma {:induction false} UpvoteCountSnoc(votes: seq<Vote>, v: Vote)
    ensures UpvoteCount(votes + [v]) == UpvoteCount(votes) + (if v.vote == 1 then 1 else 0)
  {
    if votes != [] {
      assert (votes + [v])[0] == votes[0] && (votes + [v])[1..] == votes[1..] + [v];
      UpvoteCountSnoc(votes[1..], v);
    } else {
      assert [v][1..] == [];
    }
  }

  /** Upvote percentage: 100 for an empty list, otherwise the truncated
      share of upvotes times 100. */
  function Percentage(votes: seq<Vote>): (pct: int)
    ensures 0 <= pct <= 100
    ensures |votes| == 0 ==> pct == 100
    ensures |votes| > 0 && (forall k :: 0 <= k < |votes| ==> votes[k].vote == 1) ==> pct == 100
    ensures |votes| > 0 && (forall k :: 0 <= k < |votes| ==> votes[k].vote != 1) ==> pct == 0
  {
    var total, upvotes := |votes|, UpvoteCount(votes);
    if total == 0 then 100
    else
      ShareBound(upvotes, total);
      upvotes * 100 / total
  }

  /** Bounds of the truncated share `up * 100 / total`. */
  lemma ShareBound(up: nat, total: nat)
    requires 0 < total && up <= total
    ensures 0 <= up * 100 / total <= 100
    ensures up == total ==> up * 100 / total == 100
    ensures up == 0 ==> up * 100 / total == 0
  {
    var n := up * 100;
    var q, r := n / total, n % total;
    assert n == total * q + r && 0 <= r < total;
    MulMonotone(up, total, 100);
    if q > 100 {
      MulMonotone(101, q, total);
      assert false;
    }
    if up == total && q < 100 {
      MulMonotone(q, 99, total);
      assert false;
    }
  }

  lemma {:induction false} MulMonotone(a: nat, b: nat, c: nat)
    requires a <= b
    ensures a * c <= b * c
  {
    if c > 0 {
      MulMonotone(a, b, c - 1);
      assert a * c == a * (c - 1) + a && b * c == b * (c - 1) + b;
    }
  }

  /** `votes` without the entry at index `i`. */
  function Without(votes: seq<Vote>, i: nat): (r: seq<Vote>)
    requires i < |votes|
    ensures |r| == |votes| - 1
    ensures forall k :: 0 <= k < i ==> r[k] == votes[k]
    ensures forall k :: i <= k < |r| ==> r[k] == votes[k + 1]
  {
    votes[..i] + votes[i + 1..]
  }

  /** The post after `user` performs `action`. An upvote or downvote appends a
      new vote, flips an opposite one in place, or leaves a matching one alone;
      an unvote removes the user's vote; any other action changes no vote. The
      percentage is always recomputed and nothing else changes. */
  function Voted(p: Post, user: string, action: int): (q: Post)
    ensures q == p.(score := q.score, votes := q.votes, upvotePercentage := q.upvotePercentage)
    ensures q.upvotePercentage == Percentage(q.votes)
  {
    var i := FirstVoteIndex(p.votes, user);
    var (score, votes) :=
      if action == 1 || action == -1 then
        if i == -1 then (p.score + action, p.votes + [Vote(user, action)])
        else if p.votes[i].vote == action then (p.score, p.votes)
        else (p.score + 2 * action, p.votes[i := p.votes[i].(vote := action)])
      else if action == 0 && i != -1 then
        var held := p.votes[i].vote;
        (if held == 1 then p.score - 1 else if held == -1 then p.score + 1 else p.score, Without(p.votes, i))
      else (p.score, p.votes);
    p.(score := score, votes := votes, upvotePercentage := Percentage(votes))
  }

  /** The post after each (user, action) pair in turn. */
  function VotedAll(p: Post, actions: seq<(string, int)>): Post
    decreases |actions|
  {
    if actions == [] then p else VotedAll(Voted(p, actions[0].0, actions[0].1), actions[1..])
  }

  /** Signed value of a held vote, 0 for none. */
  function Weight(v: Option<int>): int
  {
    match v
    case None => 0
    case Some(d) => d
  }

  /** The direction a user holds after performing `action`, given the one held before. */
  function Intended(before: Option<int>, action: int): Option<int>
  {
    if action == 1 || action == -1 then Some(action)
    else if action == 0 then None
    else before
  }

  // ---------------------------------------------------------------------------
  // Sums over modified vote lists

  lemma {:induction false} VoteSumAppend(votes: seq<Vote>, v: Vote)
    ensures VoteSum(votes + [v]) == VoteSum(votes) + v.vote
  {
    if votes != [] {
      assert (votes + [v])[1..] == votes[1..] + [v];
      VoteSumAppend(votes[1..], v);
    }
  }

  lemma {:induction false} VoteSumUpdate(votes: seq<Vote>, i: nat, v: Vote)
    requires i < |votes|
    ensures VoteSum(votes[i := v]) == VoteSum(votes) - votes[i].vote + v.vote
  {
    if i > 0 {
      assert votes[i := v][1..] == votes[1..][i - 1 := v];
      VoteSumUpdate(votes[1..], i - 1, v);
    }
  }

  lemma {:induction false} VoteSumWithout(votes: seq<Vote>, i: nat)
    requires i < |votes|
    ensures VoteSum(Without(votes, i)) == VoteSum(votes) - votes[i].vote
  {
    if i == 0 {
      assert Without(votes, 0) == votes[1..];
    } else {
      assert Without(votes, i)[1..] == Without(votes[1..], i - 1);
      VoteSumWithout(votes[1..], i - 1);
    }
  }

  /** With every vote +1 or -1, the sum of the votes is the number of upvotes
      minus the number of downvotes. */
  lemma {:induction false} VoteSumCountsDirections(votes: seq<Vote>)
    requires Directions(votes)
    ensures VoteSum(votes) == UpvoteCount(votes) - (|votes| - UpvoteCount(votes))
  {
    if votes != [] {
      assert Directions(votes[1..]) by {
        forall k | 0 <= k < |votes[1..]| ensures votes[1..][k].vote == 1 || votes[1..][k].vote == -1 {
          assert votes[1..][k] == votes[k + 1];
        }
      }
      VoteSumCountsDirections(votes[1..]);
    }
  }

  /** In a list without repeated voters, the user of entry `k` is found at `k`. */
  lemma UniqueIndex(votes: seq<Vote>, k: nat)
    requires UniqueVoters(votes) && k < |votes|
    ensures FirstVoteIndex(votes, votes[k].user) == k
  {
  }

  // ---------------------------------------------------------------------------
  // Properties of one vote

  lemma AppendKeepsShape(votes: seq<Vote>, v: Vote)
    requires UniqueVoters(votes) && Directions(votes)
    requires v.vote == 1 || v.vote == -1
    requires forall k :: 0 <= k < |votes| ==> votes[k].user != v.user
    ensures UniqueVoters(votes + [v]) && Directions(votes + [v])
  {
  }

  lemma UpdateKeepsShape(votes: seq<Vote>, i: nat, v: Vote)
    requires UniqueVoters(votes) && Directions(votes)
    requires i < |votes| && v.user == votes[i].user && (v.vote == 1 || v.vote == -1)
    ensures UniqueVoters(votes[i := v]) && Directions(votes[i := v])
  {
  }

  lemma WithoutKeepsShape(votes: seq<Vote>, i: nat)
    requires UniqueVoters(votes) && Directions(votes)
    requires i < |votes|
    ensures UniqueVoters(Without(votes, i)) && Directions(Without(votes, i))
  {
    var r := Without(votes, i);
    forall a, b | 0 <= a < b < |r| ensures r[a].user != r[b].user {
      var a', b' := if a < i then a else a + 1, if b < i then b else b + 1;
      assert r[a] == votes[a'] && r[b] == votes[b'];
    }
  }

  /** Voting keeps the tally invariant: the score stays the sum of the votes,
      every vote stays +1 or -1, and no user gains a second vote. */
  lemma VotedKeepsTally(p: Post, user: string, action: int)
    requires Tallied(p)
    ensures Tallied(Voted(p, user, action))
  {
    var i := FirstVoteIndex(p.votes, user);
    if action == 1 || action == -1 {
      if i == -1 {
        NewVoteAppends(p, user, action);
        VoteSumAppend(p.votes, Vote(user, action));
        AppendKeepsShape(p.votes, Vote(user, action));
      } else if p.votes[i].vote != action {
        FlipRewritesEntry(p, user, action);
        VoteSumUpdate(p.votes, i, Vote(user, action));
        UpdateKeepsShape(p.votes, i, Vote(user, action));
      } else {
        RepeatedVoteKeeps(p, user, action);
      }
    } else if action == 0 {
      UnvoteRemovesEntry(p, user);
      if i != -1 {
        assert p.votes[..i] + p.votes[i + 1..] == Without(p.votes, i);
        VoteSumWithout(p.votes, i);
        WithoutKeepsShape(p.votes, i);
      }
    } else {
      OtherActionKeeps(p, user, action);
    }
  }

  /** A vote matching the one already held changes neither the score nor the votes. */
  lemma RepeatedVoteKeeps(p: Post, user: string, action: int)
    requires action == 1 || action == -1
    requires FirstVoteIndex(p.votes, user) != -1
    requires p.votes[FirstVoteIndex(p.votes, user)].vote == action
    ensures Voted(p, user, action).votes == p.votes
    ensures Voted(p, user, action).score == p.score
  {
  }

  /** An action other than 1, -1 and 0 changes neither the score nor the votes. */
  lemma OtherActionKeeps(p: Post, user: string, action: int)
    requires action != 1 && action != -1 && action != 0
    ensures Voted(p, user, action).votes == p.votes
    ensures Voted(p, user, action).score == p.score
  {
  }

  lemma VoteOfAppend(votes: seq<Vote>, v: Vote, other: string)
    requires UniqueVoters(votes)
    requires forall k :: 0 <= k < |votes| ==> votes[k].user != v.user
    ensures VoteOf(votes + [v], other) == if other == v.user then Some(v.vote) else VoteOf(votes, other)
  {
    var r := votes + [v];
    var j := FirstVoteIndex(votes, other);
    if other == v.user {
      assert r[|votes|] == v;
    } else if j != -1 {
      assert r[j] == votes[j];
    } else {
      assert forall k :: 0 <= k < |r| ==> r[k].user != other by {
        forall k | 0 <= k < |r| ensures r[k].user != other {
          if k < |votes| { assert r[k] == votes[k]; }
        }
      }
    }
  }

  lemma VoteOfUpdate(votes: seq<Vote>, i: nat, v: Vote, other: string)
    requires UniqueVoters(votes)
    requires i < |votes| && v.user == votes[i].user
    ensures VoteOf(votes[i := v], other) == if other == v.user then Some(v.vote) else VoteOf(votes, other)
  {
    var r := votes[i := v];
    var j := FirstVoteIndex(votes, other);
    assert forall k :: 0 <= k < |r| ==> r[k].user == votes[k].user;
    assert UniqueVoters(r);
    if other == v.user {
      UniqueIndex(r, i);
    } else if j != -1 {
      UniqueIndex(r, j);
    }
  }

  lemma VoteOfWithout(votes: seq<Vote>, i: nat, other: string)
    requires UniqueVoters(votes)
    requires i < |votes|
    ensures VoteOf(Without(votes, i), other) == if other == votes[i].user then None else VoteOf(votes, other)
  {
    var r := Without(votes, i);
    var j := FirstVoteIndex(votes, other);
    if other == votes[i].user {
      forall k | 0 <= k < |r| ensures r[k].user != other {
        if k < i { assert r[k] == votes[k]; } else { assert r[k] == votes[k + 1]; }
      }
    } else if j != -1 {
      UniqueIndex(votes, j);
      if j < i {
        assert r[j] == votes[j];
      } else {
        assert r[j - 1] == votes[j];
      }
    } else {
      forall k | 0 <= k < |r| ensures r[k].user != other {
        if k < i { assert r[k] == votes[k]; } else { assert r[k] == votes[k + 1]; }
      }
    }
  }

  /** After voting, `user` holds exactly the direction the action asks for
      (none after an unvote) and every other user's vote is as before. */
  lemma VotedRecordsIntent(p: Post, user: string, action: int)
    requires UniqueVoters(p.votes) && Directions(p.votes)
    ensures UniqueVoters(Voted(p, user, action).votes)
    ensures VoteOf(Voted(p, user, action).votes, user) == Intended(VoteOf(p.votes, user), action)
    ensures forall other :: other != user ==>
              VoteOf(Voted(p, user, action).votes, other) == VoteOf(p.votes, other)
  {
    var q := Voted(p, user, action);
    var i := FirstVoteIndex(p.votes, user);
    if action == 1 || action == -1 {
      if i == -1 {
        NewVoteAppends(p, user, action);
        AppendKeepsShape(p.votes, Vote(user, action));
        forall other ensures VoteOf(q.votes, other) == if other == user then Some(action) else VoteOf(p.votes, other) {
          VoteOfAppend(p.votes, Vote(user, action), other);
        }
      } else if p.votes[i].vote != action {
        FlipRewritesEntry(p, user, action);
        UpdateKeepsShape(p.votes, i, Vote(user, action));
        forall other ensures VoteOf(q.votes, other) == if other == user then Some(action) else VoteOf(p.votes, other) {
          VoteOfUpdate(p.votes, i, Vote(user, action), other);
        }
      } else {
        RepeatedVoteKeeps(p, user, action);
      }
    } else if action == 0 {
      UnvoteRemovesEntry(p, user);
      if i != -1 {
        assert q.votes == Without(p.votes, i);
        WithoutKeepsShape(p.votes, i);
        forall other ensures VoteOf(q.votes, other) == if other == user then None else VoteOf(p.votes, other) {
          VoteOfWithout(p.votes, i, other);
        }
      }
    } else {
      OtherActionKeeps(p, user, action);
    }
  }

  /** The score moves by exactly the change in the voter's own vote: +-1 for a
      new vote or an unvote, +-2 for a flip, 0 for a repeat. */
  lemma ScoreFollowsVoter(p: Post, user: string, action: int)
    requires Tallied(p)
    ensures Voted(p, user, action).score - p.score ==
              Weight(VoteOf(Voted(p, user, action).votes, user)) - Weight(VoteOf(p.votes, user))
  {
    VotedRecordsIntent(p, user, action);
  }

  /** Repeating a vote changes nothing: applying the same action twice leaves
      the post as after the first. */
  lemma RepeatVoteIsNoop(p: Post, user: string, action: int)
    requires UniqueVoters(p.votes) && Directions(p.votes)
    ensures Voted(Voted(p, user, action), user, action) == Voted(p, user, action)
  {
    VotedRecordsIntent(p, user, action);
  }

  /** A user without a vote who votes gets a new entry appended at the end,
      and the score moves by one. */
  lemma NewVoteAppends(p: Post, user: string, action: int)
    requires action == 1 || action == -1
    requires FirstVoteIndex(p.votes, user) == -1
    ensures Voted(p, user, action).votes == p.votes + [Vote(user, action)]
    ensures Voted(p, user, action).score == p.score + action
  {
  }

  /** Flipping an opposite vote rewrites only that entry and moves the score by two. */
  lemma FlipRewritesEntry(p: Post, user: string, action: int)
    requires action == 1 || action == -1
    requires FirstVoteIndex(p.votes, user) != -1
    requires p.votes[FirstVoteIndex(p.votes, user)].vote == -action
    ensures |Voted(p, user, action).votes| == |p.votes|
    ensures Voted(p, user, action).votes == p.votes[FirstVoteIndex(p.votes, user) := Vote(user, action)]
    ensures Voted(p, user, action).score == p.score + 2 * action
  {
  }

  /** An unvote removes exactly the user's entry, keeping the others in order,
      and takes its value back out of the score; without an entry it changes
      neither the score nor the votes. */
  lemma UnvoteRemovesEntry(p: Post, user: string)
    requires Directions(p.votes)
    ensures var i := FirstVoteIndex(p.votes, user);
            if i == -1 then Voted(p, user, 0).votes == p.votes && Voted(p, user, 0).score == p.score
            else Voted(p, user, 0).votes == p.votes[..i] + p.votes[i + 1..]
                 && Voted(p, user, 0).score == p.score - p.votes[i].vote
  {
  }

  /** Any sequence of votes by any users keeps the tally invariant. */
  lemma {:induction false} VotedAllKeepsTally(p: Post, actions: seq<(string, int)>)
    requires Tallied(p)
    decreases |actions|
    ensures Tallied(VotedAll(p, actions))
    ensures VotedAll(p, actions).score ==
              UpvoteCount(VotedAll(p, actions).votes) - (|VotedAll(p, actions).votes| - UpvoteCount(VotedAll(p, actions).votes))
  {
    if actions == [] {
      VoteSumCountsDirections(p.votes);
    } else {
      VotedKeepsTally(p, actions[0].0, actions[0].1);
      VotedAllKeepsTally(Voted(p, actions[0].0, actions[0].1), actions[1..]);
    }
  }

  // ---------------------------------------------------------------------------
  // The vote step as the stores run it

  /** Scans for the first vote cast by `user`, stopping at it. */
  method FindVote(votes: seq<Vote>, user: string) returns (existingIndex: int)
    ensures existingIndex == FirstVoteIndex(votes, user)
  {
    existingIndex := -1;
    var i := 0;
    while i < |votes|
      invariant 0 <= i <= |votes|
      invariant forall k :: 0 <= k < i ==> votes[k].user != user
    {
      if votes[i].user == user {
        existingIndex := i;
        break;
      }
      i := i + 1;
    }
  }

  /** Counts the upvotes and stores the resulting percentage in the post. */
  method UpdateUpvotePercentage(post: Post) returns (updated: Post)
    ensures updated == post.(upvotePercentage := Percentage(post.votes))
  {
    var totalVotes := |post.votes|;
    var upvotes := 0;
    var i := 0;
    while i < totalVotes
      invariant 0 <= i <= totalVotes
      invariant upvotes == UpvoteCount(post.votes[..i])
    {
      UpvoteCountSnoc(post.votes[..i], post.votes[i]);
      assert post.votes[..i + 1] == post.votes[..i] + [post.votes[i]];
      if post.votes[i].vote == 1 {
        upvotes := upvotes + 1;
      }
      i := i + 1;
    }
    assert post.votes[..i] == post.votes;
    if totalVotes == 0 {
      updated := post.(upvotePercentage := 100);
    } else {
      updated := post.(upvotePercentage := upvotes * 100 / totalVotes);
    }
  }

  /** Applies upvote (1), downvote (-1) or unvote (0) by `user` to the score
      and the vote list step by step, then recomputes the percentage. */
  method ApplyVote(post: Post, user: string, action: int) returns (updated: Post)
    ensures updated == Voted(post, user, action)
  {
    var existingIndex := FindVote(post.votes, user);
    var score, votes := post.score, post.votes;
    if action == 1 {
      if existingIndex != -1 {
        if votes[existingIndex].vote != 1 {
          score := score + 2;
          votes := votes[existingIndex := votes[existingIndex].(vote := 1)];
        }
      } else {
        score := score + 1;
        votes := votes + [Vote(user, 1)];
      }
    } else if action == -1 {
      if existingIndex != -1 {
        if votes[existingIndex].vote != -1 {
          score := score - 2;
          votes := votes[existingIndex := votes[existingIndex].(vote := -1)];
        }
      } else {
        score := score - 1;
        votes := votes + [Vote(user, -1)];
      }
    } else if action == 0 {
      if existingIndex != -1 {
        if votes[existingIndex].vote == 1 {
          score := score - 1;
        } else if votes[existingIndex].vote == -1 {
          score := score + 1;
        }
        votes := votes[..existingIndex] + votes[existingIndex + 1..];
      }
    }
    var q := Voted(post, user, action);
    assert score == q.score && votes == q.votes;
    updated := UpdateUpvotePercentage(post.(score := score, votes := votes));
  }
}
