/** The read side of the vote ledger: whether a user has voted on a poll,
    that user's vote, and all votes of a poll. Queries run over the ledger
    in ledger order. */
module Votes {
  import opened Models

  /** The row belongs to the poll and was cast by the user. */
  predicate ByVoter(v: Vote, pollId: string, userId: string)
  {
    v.pollId == pollId && v.userId == userId
  }

  /** `hasUserVoted`: some ledger row has this poll and this user. */
  function HasUserVoted(ledger: seq<Vote>, pollId: string, userId: string): (r: bool)
    ensures r <==> exists i :: 0 <= i < |ledger| && ByVoter(ledger[i], pollId, userId)
  {
    if ledger == [] then false
    else
      var n := |ledger| - 1;
      assert forall i :: 0 <= i < n ==> ledger[..n][i] == ledger[i];
      HasUserVoted(ledger[..n], pollId, userId) || ByVoter(ledger[n], pollId, userId)
  }

  /** `getUserVote`: the first row of this poll and this user, or none. */
  function GetUserVote(ledger: seq<Vote>, pollId: string, userId: string): (r: Option<Vote>)
    ensures r.None? <==> forall i :: 0 <= i < |ledger| ==> !ByVoter(ledger[i], pollId, userId)
    ensures r.Some? ==> exists i :: 0 <= i < |ledger| && ledger[i] == r.value && ByVoter(ledger[i], pollId, userId)
                                    && forall j :: 0 <= j < i ==> !ByVoter(ledger[j], pollId, userId)
  {
    if ledger == [] then None
    else if ByVoter(ledger[0], pollId, userId) then Some(ledger[0])
    else
      var r := GetUserVote(ledger[1..], pollId, userId);
      assert forall i :: 1 <= i < |ledger| ==> ledger[1..][i - 1] == ledger[i];
      if r.Some? then
        ghost var i :| 0 <= i < |ledger| - 1 && ledger[1..][i] == r.value && ByVoter(ledger[1..][i], pollId, userId)
                       && forall j :: 0 <= j < i ==> !ByVoter(ledger[1..][j], pollId, userId);
        assert ledger[i + 1] == r.value && forall j :: 0 <= j < i + 1 ==> !ByVoter(ledger[j], pollId, userId);
        r
      else r
  }

  /** A user's vote is found exactly when the user has voted. */
  lemma GetUserVoteIffVoted(ledger: seq<Vote>, pollId: string, userId: string)
    ensures GetUserVote(ledger, pollId, userId).Some? <==> HasUserVoted(ledger, pollId, userId)
  {
  }

  /** `getPollVotes`: the rows of the poll, in ledger order. */
  function GetPollVotes(ledger: seq<Vote>, pollId: string): (r: seq<Vote>)
    ensures |r| <= |ledger|
    ensures forall v :: v in r <==> v in ledger && v.pollId == pollId
  {
    if ledger == [] then []
    else
      var n := |ledger| - 1;
      assert ledger == ledger[..n] + [ledger[n]];
      GetPollVotes(ledger[..n], pollId) + (if ledger[n].pollId == pollId then [ledger[n]] else [])
  }

  /** Appending a row adds it to its own poll's votes only. */
  lemma GetPollVotesSnoc(ledger: seq<Vote>, v: Vote, pollId: string)
    ensures GetPollVotes(ledger + [v], pollId)
         == GetPollVotes(ledger, pollId) + (if v.pollId == pollId then [v] else [])
  {
    assert (ledger + [v])[..|ledger|] == ledger;
  }

  /** The query distributes over concatenation, so it keeps ledger order. */
  lemma {:induction false} GetPollVotesAppend(a: seq<Vote>, b: seq<Vote>, pollId: string)
    ensures GetPollVotes(a + b, pollId) == GetPollVotes(a, pollId) + GetPollVotes(b, pollId)
    decreases |b|
  {
    if b == [] {
      assert a + b == a;
    } else {
      var n := |b| - 1;
      assert a + b == (a + b[..n]) + [b[n]];
      assert b == b[..n] + [b[n]];
      GetPollVotesAppend(a, b[..n], pollId);
      GetPollVotesSnoc(a + b[..n], b[n], pollId);
      GetPollVotesSnoc(b[..n], b[n], pollId);
    }
  }
}
