/** The poll details page: the percentage shown for each option, the bar
    colours, the voter names grouped per option, the user's own vote, and
    the vote submission that goes through the poll service. */
module PollDetails {
  import opened Models
  import opened Votes
  import opened Polls

  // ---------------------------------------------------------------------
  // Percentages

  /** `getPercentage(option)`: 100 * votes / totalVotes rounded half up, in
      exact arithmetic, or 0 when there is no poll or no total. */
  function GetPercentage(poll: Option<Poll>, option: PollOption): (r: nat)
    ensures poll.None? || TotalOrZero(poll.value) == 0 ==> r == 0
  {
    if poll.None? || TotalOrZero(poll.value) == 0 then 0
    else
      var t := TotalOrZero(poll.value);
      (200 * option.votes + t) / (2 * t)
  }

  /** The percentage is the integer nearest to 100 * votes / total, with
      halves rounded up: r - 1/2 <= 100 * votes / total < r + 1/2. */
  lemma PercentageRoundsHalfUp(poll: Option<Poll>, option: PollOption)
    requires poll.Some? && TotalOrZero(poll.value) > 0
    ensures var t := TotalOrZero(poll.value);
            var r := GetPercentage(poll, option);
            2 * t * r <= 200 * option.votes + t < 2 * t * (r + 1)
  {
  }

  /** An option with no more votes than the total gets at most 100. */
  lemma PercentageAtMost100(poll: Option<Poll>, option: PollOption)
    requires poll.Some? ==> option.votes <= TotalOrZero(poll.value)
    ensures GetPercentage(poll, option) <= 100
  {
    if poll.Some? && TotalOrZero(poll.value) > 0 {
      var t := TotalOrZero(poll.value);
      var r := GetPercentage(poll, option);
      PercentageRoundsHalfUp(poll, option);
      assert 200 * option.votes + t <= 201 * t;
      assert r * (2 * t) < 101 * (2 * t);
      CancelFactor(r, 101, 2 * t);
    }
  }

  /** A positive common factor can be cancelled from a strict inequality. */
  lemma CancelFactor(a: nat, b: nat, c: nat)
    requires c > 0 && a * c < b * c
    ensures a < b
  {
  }

  // ---------------------------------------------------------------------
  // Bar colours

  /** The eight bar colours, primary first and accent sixth. */
  const Palette: seq<string> :=
    ["#423435", "#2563EB", "#4F86F7", "#7E9CE0", "#A3B9EB", "#EC6408", "#FF8533", "#FFA366"]

  /** `getBarColor(index)`: the palette entry, cycling every eight bars. */
  function GetBarColor(index: nat): (c: string)
    ensures c in Palette
  {
    Palette[index % |Palette|]
  }

  /** Bar colours repeat with period eight, and the first eight bars get the
      palette in order. */
  lemma BarColorCycles(index: nat)
    ensures GetBarColor(index + 8) == GetBarColor(index)
    ensures index < 8 ==> GetBarColor(index) == Palette[index]
  {
  }

  // ---------------------------------------------------------------------
  // Options and voters

  /** `options.find(o => o.id === id) || null`. */
  function FindOption(options: seq<PollOption>, id: string): (r: Option<PollOption>)
    ensures r.None? <==> forall j :: 0 <= j < |options| ==> options[j].id != id
    ensures r.Some? ==> exists k :: 0 <= k < |options| && options[k] == r.value
                                    && r.value.id == id && forall j :: 0 <= j < k ==> options[j].id != id
  {
    var k := OptionIndex(options, id);
    if k == -1 then None else Some(options[k])
  }

  /** `isCreator`: the signed-in user's uid is the poll's creator. */
  predicate IsCreatorOf(user: Option<User>, poll: Poll)
    ensures user.None? ==> !IsCreatorOf(user, poll)
  {
    user.Some? && user.value.uid == poll.createdBy
  }

  /** The page's creator flag agrees with the service: for a stored poll,
      opening or closing it and deleting it succeed exactly when the flag
      holds. */
  lemma CreatorFlagAgrees(db: Db, user: Option<User>, pollId: string)
    requires pollId in db.polls
    ensures ToggleStep(db, user, pollId).0.Pass? <==> IsCreatorOf(user, db.polls[pollId])
    ensures DeleteStep(db, user, pollId).0.Pass? <==> IsCreatorOf(user, db.polls[pollId])
  {
  }

  /** `vote.userDisplayName || 'Anonymous'`. */
  function VoterName(v: Vote): (name: string)
    ensures name != ""
    ensures Truthy(v.userDisplayName) ==> name == v.userDisplayName.value
  {
    if Truthy(v.userDisplayName) then v.userDisplayName.value else "Anonymous"
  }

  /** The names shown for one option: one per ledger row naming it, in
      ledger order. */
  function VotersFor(votes: seq<Vote>, optionId: string): (names: seq<string>)
    ensures |names| <= |votes|
    ensures forall i :: 0 <= i < |names| ==> names[i] != ""
  {
    if votes == [] then []
    else
      var n := |votes| - 1;
      VotersFor(votes[..n], optionId) + (if votes[n].optionId == optionId then [VoterName(votes[n])] else [])
  }

  /** A later row adds its name at the end of its own option's list and
      changes no other list. */
  lemma VotersForSnoc(votes: seq<Vote>, v: Vote, optionId: string)
    ensures VotersFor(votes + [v], optionId)
         == VotersFor(votes, optionId) + (if v.optionId == optionId then [VoterName(v)] else [])
  {
    assert (votes + [v])[..|votes|] == votes;
  }

  /** The options after `fetchVotes`: the same options, each given the
      names of its voters. */
  function WithVoters(options: seq<PollOption>, votes: seq<Vote>): (r: seq<PollOption>)
    ensures |r| == |options|
  {
    seq(|options|, k requires 0 <= k < |options| =>
      options[k].(voters := Some(VotersFor(votes, options[k].id))))
  }

  /** `fetchVotes` changes the voter lists only: ids, texts and counts stay,
      and each list holds the names of the rows naming that option. */
  lemma WithVotersKeepsOptions(options: seq<PollOption>, votes: seq<Vote>)
    ensures var r := WithVoters(options, votes);
      forall k :: 0 <= k < |options| ==>
        && r[k].id == options[k].id && r[k].text == options[k].text && r[k].votes == options[k].votes
        && r[k].voters == Some(VotersFor(votes, options[k].id))
  {
  }

  /** Over a poll's rows, an option's voter list is as long as the number of
      ledger rows naming it. */
  lemma {:induction false} VotersCountRows(ledger: seq<Vote>, pollId: string, optionId: string)
    ensures |VotersFor(GetPollVotes(ledger, pollId), optionId)| == OptionCount(ledger, pollId, optionId)
  {
    if ledger != [] {
      var n := |ledger| - 1;
      var v := ledger[n];
      assert ledger == ledger[..n] + [v];
      VotersCountRows(ledger[..n], pollId, optionId);
      GetPollVotesSnoc(ledger[..n], v, pollId);
      OptionCountSnoc(ledger[..n], v, pollId, optionId);
      var rows := GetPollVotes(ledger[..n], pollId);
      if v.pollId == pollId {
        assert GetPollVotes(ledger, pollId) == rows + [v];
        VotersForSnoc(rows, v, optionId);
      } else {
        assert GetPollVotes(ledger, pollId) == rows;
      }
    }
  }

  /** In a consistent store, every option's voter list is as long as its
      vote count. */
  lemma VotersMatchTally(db: Db, pollId: string, k: nat)
    requires Consistent(db) && pollId in db.polls && k < |db.polls[pollId].options|
    ensures var option := db.polls[pollId].options[k];
            |VotersFor(GetPollVotes(db.votes, pollId), option.id)| == option.votes
  {
    assert PollTallied(db.polls[pollId], db.votes, pollId);
    VotersCountRows(db.votes, pollId, db.polls[pollId].options[k].id);
  }

  /** After a successful vote the poll read back from the store still has
      the chosen option. */
  lemma VotedOptionShown(db: Db, user: Option<User>, pollId: string, optionId: string)
    requires VoteStep(db, user, pollId, optionId).0.Pass?
    ensures var db' := VoteStep(db, user, pollId, optionId).1;
            && pollId in db'.polls
            && var found := FindOption(db'.polls[pollId].options, optionId);
            && found.Some? && found.value.id == optionId
  {
    VoteSuccessEffect(db, user, pollId, optionId);
  }

  /** Messages the page shows. */
  const VoteRecorded := "Your vote has been recorded!"

  // ---------------------------------------------------------------------
  // The component

  /** The details page for the poll named in the route. */
  class PollDetailsComponent {
    const service: PollService
    var pollId: Option<string>
    var poll: Option<Poll>
    var isLoading: bool
    var errorMessage: string
    var successMessage: string
    var selectedOptionId: string
    var isVoting: bool
    var hasVoted: bool
    var userVoteOption: Option<PollOption>
    var isCreator: bool
    var selectedVoter: Option<string>

    /** The field initialisers, then `ngOnInit` reading the route id; the
        page stops loading at once when there is no id. */
    constructor (service: PollService, routeId: Option<string>)
      ensures this.service == service && pollId == routeId
      ensures poll.None? && errorMessage == "" && successMessage == "" && selectedOptionId == ""
      ensures !isVoting && !hasVoted && userVoteOption.None? && !isCreator && selectedVoter.None?
      ensures isLoading <==> Truthy(routeId)
    {
      this.service := service;
      pollId := routeId;
      poll := None;
      isLoading := Truthy(routeId);
      errorMessage, successMessage, selectedOptionId := "", "", "";
      isVoting, hasVoted, isCreator := false, false, false;
      userVoteOption, selectedVoter := None, None;
    }

    /** `showFullName(voter)`. */
    method ShowFullName(voter: string)
      modifies this`selectedVoter
      ensures selectedVoter == Some(voter)
    {
      selectedVoter := Some(voter);
    }

    /** `closeFullName()`. */
    method CloseFullName()
      modifies this`selectedVoter
      ensures selectedVoter.None?
    {
      selectedVoter := None;
    }

    /** `selectOption(optionId)`. */
    method SelectOption(optionId: string)
      modifies this`selectedOptionId
      ensures selectedOptionId == optionId
    {
      selectedOptionId := optionId;
    }

    /** `fetchVotes()`: with a route id and a loaded poll, every option gets
        the names of its voters from the poll's ledger rows. */
    method FetchVotes()
      modifies this`poll
      ensures Truthy(pollId) && old(poll).Some? ==>
        poll == Some(old(poll).value.(options := WithVoters(old(poll).value.options, GetPollVotes(service.votes, pollId.value))))
      ensures !(Truthy(pollId) && old(poll).Some?) ==> poll == old(poll)
    {
      if !Truthy(pollId) || poll.None? {
        return;
      }
      var votes := GetPollVotes(service.votes, pollId.value);
      var p := poll.value;
      var options := p.options;
      var i := 0;
      while i < |options|
        invariant 0 <= i <= |options| == |p.options|
        invariant forall j :: 0 <= j < i ==> options[j] == p.options[j].(voters := Some(VotersFor(votes, p.options[j].id)))
        invariant forall j :: i <= j < |options| ==> options[j] == p.options[j]
      {
        options := options[i := options[i].(voters := Some(VotersFor(votes, options[i].id)))];
        i := i + 1;
      }
      assert options == WithVoters(p.options, votes);
      poll := Some(p.(options := options));
    }

    /** `checkUserVote()` followed by `getAndDisplayUserVote()`: whether the
        signed-in user has a row on this poll, and which option it names. */
    method CheckUserVote()
      modifies this`hasVoted, this`userVoteOption
      ensures !(Truthy(pollId) && service.currentUser.Some? && poll.Some?) ==>
        hasVoted == old(hasVoted) && userVoteOption == old(userVoteOption)
      ensures Truthy(pollId) && service.currentUser.Some? && poll.Some? ==>
        var vote := GetUserVote(service.votes, pollId.value, service.currentUser.value.uid);
        && (hasVoted <==> vote.Some?)
        && userVoteOption == (if vote.Some? then FindOption(poll.value.options, vote.value.optionId) else old(userVoteOption))
    {
      if !Truthy(pollId) || service.currentUser.None? || poll.None? {
        return;
      }
      var uid := service.currentUser.value.uid;
      hasVoted := HasUserVoted(service.votes, pollId.value, uid);
      GetUserVoteIffVoted(service.votes, pollId.value, uid);
      if hasVoted {
        var vote := GetUserVote(service.votes, pollId.value, uid);
        userVoteOption := FindOption(poll.value.options, vote.value.optionId);
      }
    }

    /** `loadPoll()` with the poll read once from the store: the poll is
        shown, loading stops, and for a poll that exists the creator flag,
        the user's vote and the voter lists are filled in. */
    method LoadPoll()
      modifies this`poll, this`isLoading, this`isCreator, this`hasVoted, this`userVoteOption
      ensures !Truthy(pollId) ==>
        poll == old(poll) && isLoading == old(isLoading) && isCreator == old(isCreator)
        && hasVoted == old(hasVoted) && userVoteOption == old(userVoteOption)
      ensures Truthy(pollId) ==>
        && !isLoading
        && var stored := service.GetPoll(pollId.value);
        && (stored.None? ==> poll.None? && isCreator == old(isCreator)
                             && hasVoted == old(hasVoted) && userVoteOption == old(userVoteOption))
        && (stored.Some? ==>
              && poll == Some(stored.value.(options := WithVoters(stored.value.options, GetPollVotes(service.votes, pollId.value))))
              && (isCreator <==> IsCreatorOf(service.currentUser, stored.value))
              && (service.currentUser.None? ==> hasVoted == old(hasVoted) && userVoteOption == old(userVoteOption))
              && (service.currentUser.Some? ==>
                    var vote := GetUserVote(service.votes, pollId.value, service.currentUser.value.uid);
                    && hasVoted == HasUserVoted(service.votes, pollId.value, service.currentUser.value.uid)
                    && userVoteOption == (if vote.Some? then FindOption(stored.value.options, vote.value.optionId)
                                          else old(userVoteOption))))
    {
      if !Truthy(pollId) {
        return;
      }
      poll := service.GetPoll(pollId.value);
      isLoading := false;
      if poll.Some? {
        isCreator := IsCreatorOf(service.currentUser, poll.value);
        CheckUserVote();
        if service.currentUser.Some? {
          GetUserVoteIffVoted(service.votes, pollId.value, service.currentUser.value.uid);
        }
        FetchVotes();
      }
    }

    /** The success branch of `submitVote()`: the confirmation, the voted
        flag, the poll read back from the store and the chosen option in it. */
    method ShowRecordedVote()
      requires Truthy(pollId) && pollId.value in service.polls
      requires FindOption(service.polls[pollId.value].options, selectedOptionId).Some?
      modifies this`successMessage, this`hasVoted, this`poll, this`userVoteOption
      ensures successMessage == VoteRecorded && hasVoted
      ensures poll == service.GetPoll(pollId.value)
      ensures userVoteOption == FindOption(service.polls[pollId.value].options, selectedOptionId)
    {
      successMessage := VoteRecorded;
      hasVoted := true;
      poll := service.GetPoll(pollId.value);
      if poll.Some? {
        userVoteOption := FindOption(poll.value.options, selectedOptionId);
      }
    }

    /** `submitVote()`: nothing happens without a route id, a selected
        option and a signed-in user; otherwise the vote goes to the service,
        and on success the poll is read back and the user's option shown. */
    method SubmitVote()
      modifies this`isVoting, this`errorMessage, this`successMessage, this`hasVoted, this`poll, this`userVoteOption,
               service
      ensures service.currentUser == old(service.currentUser)
      ensures !(Truthy(pollId) && selectedOptionId != "" && service.currentUser.Some?) ==>
        && service.State() == old(service.State())
        && isVoting == old(isVoting) && errorMessage == old(errorMessage) && successMessage == old(successMessage)
        && hasVoted == old(hasVoted) && poll == old(poll) && userVoteOption == old(userVoteOption)
      ensures Truthy(pollId) && selectedOptionId != "" && service.currentUser.Some? ==>
        var (r, db) := VoteStep(old(service.State()), service.currentUser, pollId.value, selectedOptionId);
        && service.State() == db
        && !isVoting
        && (r.Pass? ==>
              && errorMessage == "" && successMessage == VoteRecorded && hasVoted
              && poll == service.GetPoll(pollId.value)
              && userVoteOption.Some? && userVoteOption.value.id == selectedOptionId)
        && (r.Fail? ==>
              && errorMessage == Polls.Message(r.error) && successMessage == old(successMessage)
              && hasVoted == old(hasVoted) && poll == old(poll) && userVoteOption == old(userVoteOption))
      ensures old(Consistent(service.State())) ==> Consistent(service.State())
    {
      if !Truthy(pollId) || selectedOptionId == "" || service.currentUser.None? {
        return;
      }
      isVoting := true;
      errorMessage := "";
      ghost var before := service.State();
      var r := service.Vote(pollId.value, selectedOptionId);
      if r.Pass? {
        VotedOptionShown(before, service.currentUser, pollId.value, selectedOptionId);
        ShowRecordedVote();
      } else {
        errorMessage := Polls.Message(r.error);
      }
      isVoting := false;
    }
  }
}
