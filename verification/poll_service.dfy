/** The poll service: creating a poll, casting a vote, opening or closing a
    poll and deleting it together with its votes, over a store made of the
    `polls` collection (a map from poll id to poll) and the `votes` ledger.

    Each operation is one sequential step. The pure step functions
    (`CreateStep`, `VoteStep`, `ToggleStep`, `DeleteStep`) say what a step
    returns and what the store becomes; the class `PollService` performs the
    steps in place and is proved to agree with them. */
module Polls {
  import opened Models
  import opened Votes

  /** The errors the service throws, one per distinct message. */
  datatype ServiceError =
    | MustSignInToCreate
    | MustSignInToVote
    | MustSignIn
    | AlreadyVoted
    | PollNotFound
    | PollInactive
    | OptionNotFound
    | OnlyCreatorCanToggle
    | OnlyCreatorCanDelete

  /** The message carried by each error. */
  function Message(e: ServiceError): string
  {
    match e
    case MustSignInToCreate => "User must be authenticated to create a poll"
    case MustSignInToVote => "User must be authenticated to vote"
    case MustSignIn => "User must be authenticated"
    case AlreadyVoted => "User has already voted on this poll"
    case PollNotFound => "Poll not found"
    case PollInactive => "This poll is no longer active"
    case OptionNotFound => "Option not found"
    case OnlyCreatorCanToggle => "Only the poll creator can change its status"
    case OnlyCreatorCanDelete => "Only the poll creator can delete it"
  }

  /** The store: poll documents by id, and the vote ledger. */
  datatype Db = Db(polls: map<string, Poll>, votes: seq<Vote>)

  /** Pairwise distinct ids, as the id generator hands them out. */
  predicate Distinct(ids: seq<string>)
  {
    forall i, j :: 0 <= i < j < |ids| ==> ids[i] != ids[j]
  }

  // ---------------------------------------------------------------------
  // Creating a poll

  /** One option per text, in order, with a fresh id and no votes. */
  function NewOptions(texts: seq<string>, ids: seq<string>): seq<PollOption>
    requires |ids| == |texts|
  {
    seq(|texts|, i requires 0 <= i < |texts| => PollOption(ids[i], texts[i], 0, None))
  }

  /** The document `createPoll` writes. It has no `isAnonymous` and no
      `category` field. */
  function NewPoll(question: string, texts: seq<string>, ids: seq<string>, uid: string): Poll
    requires |ids| == |texts|
  {
    Poll(None, question, NewOptions(texts, ids), uid, true, None, None, Some(0))
  }

  /** `createPoll(question, options)` with the poll id the store assigns and
      the option ids the generator draws. */
  function CreateStep(db: Db, user: Option<User>, question: string, texts: seq<string>,
                      pollId: string, ids: seq<string>): (res: (Result<string, ServiceError>, Db))
    requires |ids| == |texts|
    ensures res.0.Ok? <==> user.Some?
    ensures res.0.Err? ==> res.1 == db
    ensures res.0.Ok? ==> res.0.value == pollId && res.1.votes == db.votes
                          && res.1.polls.Keys == db.polls.Keys + {pollId}
  {
    if user.None? then (Err(MustSignInToCreate), db)
    else (Ok(pollId), db.(polls := db.polls[pollId := NewPoll(question, texts, ids, user.value.uid)]))
  }

  // ---------------------------------------------------------------------
  // Voting

  /** The ledger row a vote appends. */
  function VoteRow(pollId: string, optionId: string, user: User): Vote
  {
    Vote(pollId, optionId, user.uid, user.displayName)
  }

  /** The poll after one more vote for the option at position `k`. */
  function Tallied(p: Poll, k: nat): Poll
    requires k < |p.options|
  {
    p.(options := p.options[k := p.options[k].(votes := p.options[k].votes + 1)],
       totalVotes := Some(TotalOrZero(p) + 1))
  }

  /** `vote(pollId, optionId)`: the checks in the source's order, then the
      tally update and the ledger append. */
  function VoteStep(db: Db, user: Option<User>, pollId: string, optionId: string): (res: (Outcome<ServiceError>, Db))
    ensures res.0.Fail? ==> res.1 == db
    ensures res.1.polls.Keys == db.polls.Keys
    ensures res.0.Pass? ==> user.Some? && res.1.votes == db.votes + [VoteRow(pollId, optionId, user.value)]
  {
    if user.None? then (Fail(MustSignInToVote), db)
    else if HasUserVoted(db.votes, pollId, user.value.uid) then (Fail(AlreadyVoted), db)
    else if pollId !in db.polls then (Fail(PollNotFound), db)
    else if !db.polls[pollId].isActive then (Fail(PollInactive), db)
    else
      var k := OptionIndex(db.polls[pollId].options, optionId);
      if k == -1 then (Fail(OptionNotFound), db)
      else (Pass, Db(db.polls[pollId := Tallied(db.polls[pollId], k)],
                     db.votes + [VoteRow(pollId, optionId, user.value)]))
  }

  // ---------------------------------------------------------------------
  // Opening and closing, deleting

  /** `togglePollStatus(pollId)`: only the creator may flip `isActive`. */
  function ToggleStep(db: Db, user: Option<User>, pollId: string): (res: (Outcome<ServiceError>, Db))
    ensures res.0.Fail? ==> res.1 == db
    ensures res.1.votes == db.votes && res.1.polls.Keys == db.polls.Keys
    ensures res.0.Pass? ==> pollId in db.polls && res.1.polls[pollId].isActive != db.polls[pollId].isActive
  {
    if user.None? then (Fail(MustSignIn), db)
    else if pollId !in db.polls then (Fail(PollNotFound), db)
    else if db.polls[pollId].createdBy != user.value.uid then (Fail(OnlyCreatorCanToggle), db)
    else (Pass, db.(polls := db.polls[pollId := db.polls[pollId].(isActive := !db.polls[pollId].isActive)]))
  }

  /** The ledger without the rows of one poll, in ledger order. */
  function WithoutPoll(ledger: seq<Vote>, pollId: string): (r: seq<Vote>)
    ensures forall v :: v in r <==> v in ledger && v.pollId != pollId
  {
    if ledger == [] then []
    else
      var n := |ledger| - 1;
      assert ledger == ledger[..n] + [ledger[n]];
      WithoutPoll(ledger[..n], pollId) + (if ledger[n].pollId != pollId then [ledger[n]] else [])
  }

  /** `deletePoll(pollId)`: only the creator may delete; the poll and every
      ledger row naming it go. */
  function DeleteStep(db: Db, user: Option<User>, pollId: string): (res: (Outcome<ServiceError>, Db))
    ensures res.0.Fail? ==> res.1 == db
    ensures res.0.Pass? ==> res.1.polls.Keys == db.polls.Keys - {pollId}
                            && forall v :: v in res.1.votes <==> v in db.votes && v.pollId != pollId
  {
    if user.None? then (Fail(MustSignIn), db)
    else if pollId !in db.polls then (Fail(PollNotFound), db)
    else if db.polls[pollId].createdBy != user.value.uid then (Fail(OnlyCreatorCanDelete), db)
    else (Pass, Db(db.polls - {pollId}, WithoutPoll(db.votes, pollId)))
  }

  // ---------------------------------------------------------------------
  // The tally invariant

  /** Number of ledger rows of this poll cast by this user. */
  function VoterCount(ledger: seq<Vote>, pollId: string, userId: string): nat
  {
    if ledger == [] then 0
    else
      var n := |ledger| - 1;
      VoterCount(ledger[..n], pollId, userId) + (if ByVoter(ledger[n], pollId, userId) then 1 else 0)
  }

  /** Number of ledger rows of this poll naming this option. */
  function OptionCount(ledger: seq<Vote>, pollId: string, optionId: string): nat
  {
    if ledger == [] then 0
    else
      var n := |ledger| - 1;
      OptionCount(ledger[..n], pollId, optionId)
        + (if ledger[n].pollId == pollId && ledger[n].optionId == optionId then 1 else 0)
  }

  /** The three counts of a poll agree: `totalVotes`, the sum of its option
      counts and the number of its ledger rows. */
  ghost predicate TallyAgrees(p: Poll, ledger: seq<Vote>, pollId: string)
  {
    TotalOrZero(p) == SumVotes(p.options) == |GetPollVotes(ledger, pollId)|
  }

  /** A poll's counts agree and every option count is its number of rows. */
  ghost predicate PollTallied(p: Poll, ledger: seq<Vote>, pollId: string)
  {
    && DistinctOptionIds(p.options)
    && TallyAgrees(p, ledger, pollId)
    && forall k :: 0 <= k < |p.options| ==> p.options[k].votes == OptionCount(ledger, pollId, p.options[k].id)
  }

  /** The store invariant: no row names a missing poll, no user has two rows
      on one poll, and every poll is tallied. */
  ghost predicate Consistent(db: Db)
    ensures Consistent(db) ==>
      forall pollId :: pollId in db.polls ==> TotalOrZero(db.polls[pollId]) == |GetPollVotes(db.votes, pollId)|
  {
    && (forall v :: v in db.votes ==> v.pollId in db.polls)
    && (forall pollId, userId :: VoterCount(db.votes, pollId, userId) <= 1)
    && (forall pollId :: pollId in db.polls ==> PollTallied(db.polls[pollId], db.votes, pollId))
  }

  /** The empty store is consistent. */
  lemma EmptyConsistent()
    ensures Consistent(Db(map[], []))
  {
  }

  // ---------------------------------------------------------------------
  // Counting lemmas

  lemma VoterCountSnoc(ledger: seq<Vote>, v: Vote, pollId: string, userId: string)
    ensures VoterCount(ledger + [v], pollId, userId)
         == VoterCount(ledger, pollId, userId) + (if ByVoter(v, pollId, userId) then 1 else 0)
  {
    assert (ledger + [v])[..|ledger|] == ledger;
  }

  lemma OptionCountSnoc(ledger: seq<Vote>, v: Vote, pollId: string, optionId: string)
    ensures OptionCount(ledger + [v], pollId, optionId)
         == OptionCount(ledger, pollId, optionId) + (if v.pollId == pollId && v.optionId == optionId then 1 else 0)
  {
    assert (ledger + [v])[..|ledger|] == ledger;
  }

  /** A user has voted on a poll exactly when the ledger counts a row. */
  lemma {:induction false} VotedIffCounted(ledger: seq<Vote>, pollId: string, userId: string)
    ensures HasUserVoted(ledger, pollId, userId) <==> VoterCount(ledger, pollId, userId) > 0
  {
    if ledger != [] {
      var n := |ledger| - 1;
      VotedIffCounted(ledger[..n], pollId, userId);
    }
  }

  /** A poll with no rows has zero rows per option. */
  lemma {:induction false} OptionCountNoRows(ledger: seq<Vote>, pollId: string, optionId: string)
    requires forall v :: v in ledger ==> v.pollId != pollId
    ensures OptionCount(ledger, pollId, optionId) == 0
  {
    if ledger != [] {
      var n := |ledger| - 1;
      assert forall v :: v in ledger[..n] ==> v in ledger;
      OptionCountNoRows(ledger[..n], pollId, optionId);
      assert ledger[n] in ledger;
    }
  }

  /** A poll with no rows has no votes in the ledger. */
  lemma {:induction false} PollVotesNoRows(ledger: seq<Vote>, pollId: string)
    requires forall v :: v in ledger ==> v.pollId != pollId
    ensures GetPollVotes(ledger, pollId) == []
  {
    if ledger != [] {
      var n := |ledger| - 1;
      assert forall v :: v in ledger[..n] ==> v in ledger;
      PollVotesNoRows(ledger[..n], pollId);
      assert ledger[n] in ledger;
      GetPollVotesSnoc(ledger[..n], ledger[n], pollId);
      assert ledger[..n] + [ledger[n]] == ledger;
    }
  }

  /** Fresh options sum to zero votes. */
  lemma {:induction false} NewOptionsSumZero(texts: seq<string>, ids: seq<string>)
    requires |ids| == |texts|
    ensures SumVotes(NewOptions(texts, ids)) == 0
    decreases |texts|
  {
    if texts != [] {
      var n := |texts| - 1;
      assert NewOptions(texts, ids)[..n] == NewOptions(texts[..n], ids[..n]);
      NewOptionsSumZero(texts[..n], ids[..n]);
    }
  }

  /** Removing a poll's rows leaves every other poll's rows as they were. */
  lemma {:induction false} WithoutPollKeepsOthers(ledger: seq<Vote>, pollId: string, other: string)
    ensures GetPollVotes(WithoutPoll(ledger, pollId), other)
         == if other == pollId then [] else GetPollVotes(ledger, other)
  {
    if ledger != [] {
      var n := |ledger| - 1;
      var v := ledger[n];
      WithoutPollKeepsOthers(ledger[..n], pollId, other);
      var rest := WithoutPoll(ledger[..n], pollId);
      if v.pollId != pollId {
        GetPollVotesSnoc(rest, v, other);
      } else {
        assert WithoutPoll(ledger, pollId) == rest;
      }
    }
  }

  /** Removing a poll's rows leaves every other poll's option counts. */
  lemma {:induction false} WithoutPollOptionCount(ledger: seq<Vote>, pollId: string, other: string, optionId: string)
    requires other != pollId
    ensures OptionCount(WithoutPoll(ledger, pollId), other, optionId) == OptionCount(ledger, other, optionId)
  {
    if ledger != [] {
      var n := |ledger| - 1;
      var v := ledger[n];
      WithoutPollOptionCount(ledger[..n], pollId, other, optionId);
      var rest := WithoutPoll(ledger[..n], pollId);
      if v.pollId != pollId {
        OptionCountSnoc(rest, v, other, optionId);
      } else {
        assert WithoutPoll(ledger, pollId) == rest;
      }
    }
  }

  /** Removing rows never raises a voter's count. */
  lemma {:induction false} WithoutPollVoterCount(ledger: seq<Vote>, pollId: string, other: string, userId: string)
    ensures VoterCount(WithoutPoll(ledger, pollId), other, userId) <= VoterCount(ledger, other, userId)
  {
    if ledger != [] {
      var n := |ledger| - 1;
      var v := ledger[n];
      WithoutPollVoterCount(ledger[..n], pollId, other, userId);
      var rest := WithoutPoll(ledger[..n], pollId);
      if v.pollId != pollId {
        VoterCountSnoc(rest, v, other, userId);
      } else {
        assert WithoutPoll(ledger, pollId) == rest;
      }
    }
  }

  // ---------------------------------------------------------------------
  // Properties of the steps

  /** Without a user nothing is created; otherwise the new poll has one
      option per text, in order, each with no votes, is active, has a zero
      total and belongs to the caller, and nothing else changes. */
  lemma CreateStepEffect(db: Db, user: Option<User>, question: string, texts: seq<string>,
                         pollId: string, ids: seq<string>)
    requires |ids| == |texts|
    ensures var (r, db') := CreateStep(db, user, question, texts, pollId, ids);
      && (user.None? ==> r == Err(MustSignInToCreate) && db' == db)
      && (user.Some? ==>
            && r == Ok(pollId)
            && pollId in db'.polls
            && db'.votes == db.votes
            && (forall id :: id in db.polls && id != pollId ==> id in db'.polls && db'.polls[id] == db.polls[id])
            && var p := db'.polls[pollId];
            && p.question == question
            && |p.options| == |texts|
            && (forall i :: 0 <= i < |texts| ==> p.options[i].text == texts[i] && p.options[i].id == ids[i]
                                                 && p.options[i].votes == 0)
            && p.isActive && p.totalVotes == Some(0) && p.createdBy == user.value.uid
            && p.isAnonymous.None? && p.category.None?)
  {
  }

  /** A new poll with fresh distinct ids keeps the store consistent. */
  lemma CreatePreservesConsistent(db: Db, user: Option<User>, question: string, texts: seq<string>,
                                  pollId: string, ids: seq<string>)
    requires Consistent(db)
    requires pollId !in db.polls && |ids| == |texts| && Distinct(ids)
    ensures Consistent(CreateStep(db, user, question, texts, pollId, ids).1)
  {
    if user.Some? {
      var db' := CreateStep(db, user, question, texts, pollId, ids).1;
      var p := NewPoll(question, texts, ids, user.value.uid);
      assert forall v :: v in db.votes ==> v.pollId != pollId;
      NewOptionsSumZero(texts, ids);
      PollVotesNoRows(db.votes, pollId);
      forall k | 0 <= k < |p.options|
        ensures p.options[k].votes == OptionCount(db.votes, pollId, p.options[k].id)
      {
        OptionCountNoRows(db.votes, pollId, p.options[k].id);
      }
      assert PollTallied(p, db.votes, pollId);
    }
  }

  /** The rejections come in the source's order, and a rejected vote
      changes nothing. */
  lemma VoteRejections(db: Db, user: Option<User>, pollId: string, optionId: string)
    ensures var (r, db') := VoteStep(db, user, pollId, optionId);
      && (r.Fail? ==> db' == db)
      && (user.None? ==> r == Fail(MustSignInToVote))
      && (user.Some? && HasUserVoted(db.votes, pollId, user.value.uid) ==> r == Fail(AlreadyVoted))
      && (user.Some? && !HasUserVoted(db.votes, pollId, user.value.uid) ==>
            && (pollId !in db.polls ==> r == Fail(PollNotFound))
            && (pollId in db.polls && !db.polls[pollId].isActive ==> r == Fail(PollInactive))
            && (pollId in db.polls && db.polls[pollId].isActive ==>
                  (r == Fail(OptionNotFound) <==>
                     forall j :: 0 <= j < |db.polls[pollId].options| ==> db.polls[pollId].options[j].id != optionId)))
  {
  }

  /** A vote succeeds exactly when the user is signed in and has no row on
      the poll, and the poll exists, is open and has the option. */
  lemma VoteSucceedsIff(db: Db, user: Option<User>, pollId: string, optionId: string)
    ensures VoteStep(db, user, pollId, optionId).0.Pass? <==>
      && user.Some?
      && !HasUserVoted(db.votes, pollId, user.value.uid)
      && pollId in db.polls
      && db.polls[pollId].isActive
      && exists j :: 0 <= j < |db.polls[pollId].options| && db.polls[pollId].options[j].id == optionId
  {
  }

  /** A successful vote adds one to the first option with the id and to the
      total, leaves every other option and poll alone, and appends exactly
      one ledger row. */
  lemma VoteSuccessEffect(db: Db, user: Option<User>, pollId: string, optionId: string)
    requires VoteStep(db, user, pollId, optionId).0.Pass?
    ensures var db' := VoteStep(db, user, pollId, optionId).1;
      var p := db.polls[pollId];
      var k := OptionIndex(p.options, optionId);
      && pollId in db'.polls
      && var p' := db'.polls[pollId];
      && |p'.options| == |p.options|
      && p'.options[k].votes == p.options[k].votes + 1
      && p'.options[k].id == optionId
      && (forall j :: 0 <= j < |p.options| && j != k ==> p'.options[j] == p.options[j])
      && p'.totalVotes == Some(TotalOrZero(p) + 1)
      && p'.question == p.question && p'.createdBy == p.createdBy && p'.isActive == p.isActive
      && db'.votes == db.votes + [Vote(pollId, optionId, user.value.uid, user.value.displayName)]
      && (forall id :: id in db.polls && id != pollId ==> id in db'.polls && db'.polls[id] == db.polls[id])
      && db'.polls.Keys == db.polls.Keys
  {
  }

  /** A row on another poll leaves a poll's tally as it was. */
  lemma OtherPollTallied(p: Poll, ledger: seq<Vote>, row: Vote, id: string)
    requires PollTallied(p, ledger, id) && row.pollId != id
    ensures PollTallied(p, ledger + [row], id)
  {
    GetPollVotesSnoc(ledger, row, id);
    forall j | 0 <= j < |p.options|
      ensures p.options[j].votes == OptionCount(ledger + [row], id, p.options[j].id)
    {
      OptionCountSnoc(ledger, row, id, p.options[j].id);
    }
  }

  /** Counting the row for option `k` on the poll itself keeps its tally. */
  lemma VotedPollTallied(p: Poll, ledger: seq<Vote>, row: Vote, id: string, k: nat)
    requires PollTallied(p, ledger, id) && k < |p.options|
    requires row.pollId == id && row.optionId == p.options[k].id
    ensures PollTallied(Tallied(p, k), ledger + [row], id)
  {
    var p' := Tallied(p, k);
    TalliedAgrees(p, ledger, row, id, k);
    forall j | 0 <= j < |p'.options|
      ensures p'.options[j].votes == OptionCount(ledger + [row], id, p'.options[j].id)
    {
      OptionCountSnoc(ledger, row, id, p'.options[j].id);
      if j != k {
        assert p'.options[j] == p.options[j];
        assert p.options[j].id != p.options[k].id;
      }
    }
  }

  /** Counting one more row on the poll and one more vote on option `k`
      keeps its three counts in agreement. */
  lemma TalliedAgrees(p: Poll, ledger: seq<Vote>, row: Vote, id: string, k: nat)
    requires TallyAgrees(p, ledger, id) && k < |p.options| && row.pollId == id
    ensures TallyAgrees(Tallied(p, k), ledger + [row], id)
  {
    SumVotesIncrement(p.options, k);
    GetPollVotesSnoc(ledger, row, id);
  }

  /** A successful vote tallies the chosen option and appends one row. */
  lemma VoteSuccessShape(db: Db, user: Option<User>, pollId: string, optionId: string)
    requires VoteStep(db, user, pollId, optionId).0.Pass?
    ensures user.Some? && pollId in db.polls
    ensures var k := OptionIndex(db.polls[pollId].options, optionId);
      && 0 <= k
      && VoteStep(db, user, pollId, optionId).1
         == Db(db.polls[pollId := Tallied(db.polls[pollId], k)], db.votes + [VoteRow(pollId, optionId, user.value)])
  {
  }

  /** If a poll's total, the sum of its option counts and its number of rows
      agree before a successful vote, they agree afterwards. */
  lemma VotePreservesTally(db: Db, user: Option<User>, pollId: string, optionId: string)
    requires pollId in db.polls && TallyAgrees(db.polls[pollId], db.votes, pollId)
    requires VoteStep(db, user, pollId, optionId).0.Pass?
    ensures var db' := VoteStep(db, user, pollId, optionId).1;
      pollId in db'.polls && TallyAgrees(db'.polls[pollId], db'.votes, pollId)
  {
    VoteSuccessShape(db, user, pollId, optionId);
    var p := db.polls[pollId];
    TalliedAgrees(p, db.votes, VoteRow(pollId, optionId, user.value), pollId, OptionIndex(p.options, optionId));
  }

  /** Once a user's vote on a poll succeeded, every further vote by that
      user on that poll is rejected as a repeat. */
  lemma SecondVoteRejected(db: Db, user: Option<User>, pollId: string, optionId: string, nextOptionId: string)
    requires VoteStep(db, user, pollId, optionId).0.Pass?
    ensures VoteStep(VoteStep(db, user, pollId, optionId).1, user, pollId, nextOptionId).0 == Fail(AlreadyVoted)
  {
    var db' := VoteStep(db, user, pollId, optionId).1;
    assert ByVoter(db'.votes[|db.votes|], pollId, user.value.uid);
  }

  /** Voting keeps the store consistent. */
  lemma VotePreservesConsistent(db: Db, user: Option<User>, pollId: string, optionId: string)
    requires Consistent(db)
    ensures Consistent(VoteStep(db, user, pollId, optionId).1)
  {
    var (r, db') := VoteStep(db, user, pollId, optionId);
    if r.Pass? {
      var uid := user.value.uid;
      var row := VoteRow(pollId, optionId, user.value);
      var p := db.polls[pollId];
      var k := OptionIndex(p.options, optionId);
      VoteSuccessShape(db, user, pollId, optionId);
      forall q, u ensures VoterCount(db'.votes, q, u) <= 1 {
        VoterCountSnoc(db.votes, row, q, u);
        if q == pollId && u == uid {
          VotedIffCounted(db.votes, q, u);
        }
      }
      forall id | id in db'.polls ensures PollTallied(db'.polls[id], db'.votes, id) {
        if id == pollId {
          VotedPollTallied(p, db.votes, row, id, k);
        } else {
          OtherPollTallied(db.polls[id], db.votes, row, id);
        }
      }
    }
  }

  /** Toggling needs a user, an existing poll and its creator; a success
      flips `isActive` only, a failure changes nothing. */
  lemma ToggleEffect(db: Db, user: Option<User>, pollId: string)
    ensures var (r, db') := ToggleStep(db, user, pollId);
      && (r.Fail? ==> db' == db)
      && (user.None? ==> r == Fail(MustSignIn))
      && (user.Some? && pollId !in db.polls ==> r == Fail(PollNotFound))
      && (user.Some? && pollId in db.polls ==>
            (r == Fail(OnlyCreatorCanToggle) <==> db.polls[pollId].createdBy != user.value.uid))
      && (r.Pass? ==>
            && db'.votes == db.votes
            && db'.polls == db.polls[pollId := db.polls[pollId].(isActive := !db.polls[pollId].isActive)])
  {
  }

  /** Two successful toggles in a row restore the store. */
  lemma ToggleTwiceRestores(db: Db, user: Option<User>, pollId: string)
    requires ToggleStep(db, user, pollId).0.Pass?
    ensures ToggleStep(ToggleStep(db, user, pollId).1, user, pollId) == (Pass, db)
  {
    var p := db.polls[pollId];
    var db' := ToggleStep(db, user, pollId).1;
    assert db'.polls[pollId := p] == db.polls;
  }

  /** Toggling keeps the store consistent. */
  lemma TogglePreservesConsistent(db: Db, user: Option<User>, pollId: string)
    requires Consistent(db)
    ensures Consistent(ToggleStep(db, user, pollId).1)
  {
    var db' := ToggleStep(db, user, pollId).1;
    assert forall id :: id in db'.polls ==> PollTallied(db'.polls[id], db'.votes, id) by {
      forall id | id in db'.polls ensures PollTallied(db'.polls[id], db'.votes, id) {
        assert PollTallied(db.polls[id], db.votes, id);
      }
    }
  }

  /** Deleting needs a user, an existing poll and its creator; a success
      removes the poll and all its rows and leaves every other poll and the
      rows of every other poll as they were. */
  lemma DeleteEffect(db: Db, user: Option<User>, pollId: string)
    ensures var (r, db') := DeleteStep(db, user, pollId);
      && (r.Fail? ==> db' == db)
      && (user.None? ==> r == Fail(MustSignIn))
      && (user.Some? && pollId !in db.polls ==> r == Fail(PollNotFound))
      && (user.Some? && pollId in db.polls ==>
            (r == Fail(OnlyCreatorCanDelete) <==> db.polls[pollId].createdBy != user.value.uid))
      && (r.Pass? ==>
            && pollId !in db'.polls
            && (forall id :: id in db.polls && id != pollId ==> id in db'.polls && db'.polls[id] == db.polls[id])
            && GetPollVotes(db'.votes, pollId) == []
            && (forall other :: other != pollId ==> GetPollVotes(db'.votes, other) == GetPollVotes(db.votes, other)))
  {
    var (r, db') := DeleteStep(db, user, pollId);
    if r.Pass? {
      WithoutPollKeepsOthers(db.votes, pollId, pollId);
      forall other | other != pollId
        ensures GetPollVotes(db'.votes, other) == GetPollVotes(db.votes, other)
      {
        WithoutPollKeepsOthers(db.votes, pollId, other);
      }
    }
  }

  /** Deleting keeps the store consistent: no orphan rows are left. */
  lemma DeletePreservesConsistent(db: Db, user: Option<User>, pollId: string)
    requires Consistent(db)
    ensures Consistent(DeleteStep(db, user, pollId).1)
  {
    var (r, db') := DeleteStep(db, user, pollId);
    if r.Pass? {
      forall q, u ensures VoterCount(db'.votes, q, u) <= 1 {
        WithoutPollVoterCount(db.votes, pollId, q, u);
      }
      forall id | id in db'.polls ensures PollTallied(db'.polls[id], db'.votes, id) {
        var p := db.polls[id];
        assert PollTallied(p, db.votes, id);
        WithoutPollKeepsOthers(db.votes, pollId, id);
        forall j | 0 <= j < |p.options|
          ensures p.options[j].votes == OptionCount(db'.votes, id, p.options[j].id)
        {
          WithoutPollOptionCount(db.votes, pollId, id, p.options[j].id);
        }
      }
    }
  }

  // ---------------------------------------------------------------------
  // The service

  /** `findIndex` over the options, as a loop. */
  method FindOptionIndex(options: seq<PollOption>, optionId: string) returns (k: int)
    ensures k == OptionIndex(options, optionId)
  {
    k := 0;
    while k < |options|
      invariant 0 <= k <= |options|
      invariant forall j :: 0 <= j < k ==> options[j].id != optionId
    {
      if options[k].id == optionId {
        return;
      }
      k := k + 1;
    }
    k := -1;
  }

  /** The poll service over its in-memory store. `currentUser` is the user
      the authentication service reports. */
  class PollService {
    var polls: map<string, Poll>
    var votes: seq<Vote>
    var currentUser: Option<User>

    /** The store as a value. */
    function State(): Db
      reads this
    {
      Db(polls, votes)
    }

    /** An empty store. */
    constructor (user: Option<User>)
      ensures State() == Db(map[], []) && currentUser == user
      ensures Consistent(State())
    {
      polls, votes, currentUser := map[], [], user;
    }

    /** `getPoll(id)`: the document with its id filled in, if it exists. */
    function GetPoll(id: string): (r: Option<Poll>)
      reads this
      ensures r.Some? <==> id in polls
      ensures r.Some? ==> r.value.id == Some(id) && r.value.options == polls[id].options
                          && r.value.createdBy == polls[id].createdBy && r.value.isActive == polls[id].isActive
    {
      if id in polls then Some(polls[id].(id := Some(id))) else None
    }

    /** `createPoll(question, options)`; `pollId` is the id the store assigns
        and `optionIds` are the ids the generator draws. */
    method CreatePoll(question: string, texts: seq<string>, pollId: string, optionIds: seq<string>)
      returns (r: Result<string, ServiceError>)
      requires pollId !in polls && |optionIds| == |texts| && Distinct(optionIds)
      modifies this
      ensures currentUser == old(currentUser)
      ensures (r, State()) == CreateStep(old(State()), currentUser, question, texts, pollId, optionIds)
      ensures old(Consistent(State())) ==> Consistent(State())
    {
      ghost var before := State();
      if currentUser.None? {
        return Err(MustSignInToCreate);
      }
      var options := NewOptions(texts, optionIds);
      polls := polls[pollId := Poll(None, question, options, currentUser.value.uid, true, None, None, Some(0))];
      r := Ok(pollId);
      if Consistent(before) {
        CreatePreservesConsistent(before, currentUser, question, texts, pollId, optionIds);
      }
    }

    /** `vote(pollId, optionId)`. */
    method Vote(pollId: string, optionId: string) returns (r: Outcome<ServiceError>)
      modifies this
      ensures currentUser == old(currentUser)
      ensures (r, State()) == VoteStep(old(State()), currentUser, pollId, optionId)
      ensures old(Consistent(State())) ==> Consistent(State())
    {
      ghost var before := State();
      if currentUser.None? {
        return Fail(MustSignInToVote);
      }
      var user := currentUser.value;
      if HasUserVoted(votes, pollId, user.uid) {
        return Fail(AlreadyVoted);
      }
      if pollId !in polls {
        return Fail(PollNotFound);
      }
      var poll := polls[pollId];
      if !poll.isActive {
        return Fail(PollInactive);
      }
      var k := FindOptionIndex(poll.options, optionId);
      if k == -1 {
        return Fail(OptionNotFound);
      }
      var updated := poll.options[k := poll.options[k].(votes := poll.options[k].votes + 1)];
      polls := polls[pollId := poll.(options := updated, totalVotes := Some(TotalOrZero(poll) + 1))];
      votes := votes + [Models.Vote(pollId, optionId, user.uid, user.displayName)];
      r := Pass;
      assert State() == Db(before.polls[pollId := Tallied(poll, k)], before.votes + [VoteRow(pollId, optionId, user)]);
      if Consistent(before) {
        VotePreservesConsistent(before, currentUser, pollId, optionId);
      }
    }

    /** `togglePollStatus(pollId)`. */
    method TogglePollStatus(pollId: string) returns (r: Outcome<ServiceError>)
      modifies this
      ensures currentUser == old(currentUser)
      ensures (r, State()) == ToggleStep(old(State()), currentUser, pollId)
      ensures old(Consistent(State())) ==> Consistent(State())
    {
      ghost var before := State();
      if currentUser.None? {
        return Fail(MustSignIn);
      }
      if pollId !in polls {
        return Fail(PollNotFound);
      }
      var poll := polls[pollId];
      if poll.createdBy != currentUser.value.uid {
        return Fail(OnlyCreatorCanToggle);
      }
      polls := polls[pollId := poll.(isActive := !poll.isActive)];
      r := Pass;
      if Consistent(before) {
        TogglePreservesConsistent(before, currentUser, pollId);
      }
    }

    /** `deletePoll(pollId)`: the poll document goes first, then each of its
        ledger rows. */
    method DeletePoll(pollId: string) returns (r: Outcome<ServiceError>)
      modifies this
      ensures currentUser == old(currentUser)
      ensures (r, State()) == DeleteStep(old(State()), currentUser, pollId)
      ensures old(Consistent(State())) ==> Consistent(State())
    {
      ghost var before := State();
      if currentUser.None? {
        return Fail(MustSignIn);
      }
      if pollId !in polls {
        return Fail(PollNotFound);
      }
      if polls[pollId].createdBy != currentUser.value.uid {
        return Fail(OnlyCreatorCanDelete);
      }
      polls := polls - {pollId};
      var ledger := votes;
      var kept: seq<Vote> := [];
      var i := 0;
      while i < |ledger|
        invariant 0 <= i <= |ledger|
        invariant kept == WithoutPoll(ledger[..i], pollId)
      {
        assert ledger[..i + 1][..i] == ledger[..i];
        if ledger[i].pollId != pollId {
          kept := kept + [ledger[i]];
        }
        i := i + 1;
      }
      assert ledger[..i] == ledger;
      votes := kept;
      r := Pass;
      if Consistent(before) {
        DeletePreservesConsistent(before, currentUser, pollId);
      }
    }
  }
}
