/** The create-poll form: its validity check, the editing of the option
    list, and the submission that hands the non-blank options to the poll
    service. */
module CreatePoll {
  import opened Models
  import opened Text
  import opened Polls

  /** `isFormValid()`: a question of at least five characters, at least two
      options, and no option that trims to nothing. */
  predicate IsFormValid(question: string, options: seq<string>)
    ensures IsFormValid(question, options) <==>
      |question| >= 5 && |options| >= 2 && forall i :: 0 <= i < |options| ==> !IsBlank(options[i])
  {
    if question == "" || |question| < 5 then false
    else if |options| < 2 then false
    else !(exists i :: 0 <= i < |options| && Trim(options[i]) == "")
  }

  /** The initial form, two empty options, is never valid. */
  lemma InitialFormInvalid(question: string)
    ensures !IsFormValid(question, ["", ""])
  {
    assert Trim(["", ""][0]) == "";
  }

  /** The filter's test `option.trim()`: truthy when something is left
      after trimming. */
  predicate Filled(option: string)
  {
    Trim(option) != ""
  }

  /** `options.filter(option => option.trim())`: every non-blank option
      as often as it occurs, no blank one. */
  function NonBlankOptions(options: seq<string>): (r: seq<string>)
    ensures |r| <= |options|
    ensures forall i :: 0 <= i < |r| ==> Filled(r[i])
    ensures forall s :: s in r <==> s in options && Filled(s)
    ensures forall s {:trigger Occurrences(r, s)} :: Occurrences(r, s) == if Filled(s) then Occurrences(options, s) else 0
  {
    Keep(options, Filled)
  }

  /** When the form is valid the filter keeps every option, in order. */
  lemma NonBlankOfValid(options: seq<string>)
    requires forall i :: 0 <= i < |options| ==> Filled(options[i])
    ensures NonBlankOptions(options) == options
  {
    KeepAll(options, Filled);
  }

  /** On a valid form the filter keeps every option, in order. */
  lemma ValidFormKeepsOptions(question: string, options: seq<string>)
    requires IsFormValid(question, options)
    ensures NonBlankOptions(options) == options
  {
    NonBlankOfValid(options);
  }

  /** Where `splice(index, 1)` starts: a negative index counts from the end,
      and the start is clamped to the list. */
  function SpliceStart(len: nat, index: int): (start: nat)
    ensures start <= len
    ensures 0 <= index <= len ==> start == index
  {
    if index < 0 then (if len + index < 0 then 0 else len + index)
    else if index > len then len
    else index
  }

  /** `list.splice(index, 1)`: drop the element at the start position, if
      there is one. */
  function SpliceOne(list: seq<string>, index: int): (r: seq<string>)
    ensures SpliceStart(|list|, index) < |list| ==> |r| == |list| - 1
    ensures SpliceStart(|list|, index) == |list| ==> r == list
  {
    var start := SpliceStart(|list|, index);
    if start < |list| then list[..start] + list[start + 1..] else list
  }

  /** Removing at a valid index keeps the elements before it and shifts the
      ones after it down by one. */
  lemma SpliceOneAt(list: seq<string>, index: nat)
    requires index < |list|
    ensures var r := SpliceOne(list, index);
      && |r| == |list| - 1
      && (forall i :: 0 <= i < index ==> r[i] == list[i])
      && (forall i :: index <= i < |r| ==> r[i] == list[i + 1])
  {
  }

  const CreateFailed := "Failed to create poll. Please try again."

  /** The create-poll form. */
  class CreatePollComponent {
    const service: PollService
    var question: string
    var options: seq<string>
    var isAnonymous: bool
    var errorMessage: string
    var isLoading: bool

    /** The option list never has fewer than two entries. */
    predicate Valid()
      reads this
    {
      |options| >= 2
    }

    constructor (service: PollService)
      ensures this.service == service && question == "" && options == ["", ""]
      ensures !isAnonymous && errorMessage == "" && !isLoading
      ensures Valid()
    {
      this.service := service;
      question, options := "", ["", ""];
      isAnonymous, errorMessage, isLoading := false, "", false;
    }

    /** `addOption()`: one empty option at the end. */
    method AddOption()
      modifies this`options
      ensures options == old(options) + [""]
      ensures old(Valid()) ==> Valid()
    {
      options := options + [""];
    }

    /** `removeOption(index)`: only while more than two options remain. */
    method RemoveOption(index: int)
      modifies this`options
      ensures |old(options)| > 2 ==> options == SpliceOne(old(options), index)
      ensures |old(options)| <= 2 ==> options == old(options)
      ensures old(Valid()) ==> Valid()
    {
      if |options| > 2 {
        options := SpliceOne(options, index);
      }
    }

    /** `createPoll()`: nothing happens on an invalid form; otherwise the
        question and the non-blank options go to the service, and a
        failure shows the generic message. The poll id the store assigns
        and the option ids are parameters; the result is the id of the
        created poll, to navigate to. */
    method CreatePoll(pollId: string, optionIds: seq<string>) returns (created: Option<string>)
      requires pollId !in service.polls && Distinct(optionIds)
      requires |optionIds| == |NonBlankOptions(options)|
      modifies this`isLoading, this`errorMessage, service
      ensures service.currentUser == old(service.currentUser)
      ensures !IsFormValid(question, options) ==>
        created.None? && isLoading == old(isLoading) && errorMessage == old(errorMessage)
        && service.State() == old(service.State())
      ensures IsFormValid(question, options) ==>
        var (r, db) := CreateStep(old(service.State()), service.currentUser, question, NonBlankOptions(options), pollId, optionIds);
        && NonBlankOptions(options) == options
        && service.State() == db
        && !isLoading
        && (r.Ok? ==> created == Some(pollId) && errorMessage == "")
        && (r.Err? ==> created.None? && errorMessage == CreateFailed)
      ensures old(Consistent(service.State())) ==> Consistent(service.State())
    {
      if !IsFormValid(question, options) {
        return None;
      }
      isLoading := true;
      errorMessage := "";
      ValidFormKeepsOptions(question, options);
      var validOptions := NonBlankOptions(options);
      var r := service.CreatePoll(question, validOptions, pollId, optionIds);
      if r.Ok? {
        created := Some(r.value);
      } else {
        created := None;
        errorMessage := CreateFailed;
      }
      isLoading := false;
    }
  }
}
