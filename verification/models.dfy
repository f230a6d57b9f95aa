/** Shared records of the poll application: the wrappers used for missing
    values and error returns, and the documents stored in the `polls`,
    `votes` and `reports` collections. */
module Models {

  /** A value that may be missing (`undefined` or `null` in the source). */
  datatype Option<+T> = None | Some(value: T)

  /** The result of an operation that yields a value or throws. */
  datatype Result<+T, +E> = Ok(value: T) | Err(error: E)

  /** The result of an operation that yields nothing or throws. */
  datatype Outcome<+E> = Pass | Fail(error: E)

  /** How a call into the authentication service ended: it resolved, or it
      threw an error whose `code` may be missing. */
  datatype AuthOutcome = AuthOk | AuthError(code: Option<string>)

  /** A signed-in user as the authentication service reports it. */
  datatype User = User(uid: string, email: string, displayName: Option<string>)

  /** One answer of a poll. `voters` is filled in by the details page only. */
  datatype PollOption = PollOption(id: string, text: string, votes: nat, voters: Option<seq<string>>)

  /** A poll document. `id` is present once the document has been read back
      from the store; `isAnonymous`, `category` and `totalVotes` are optional
      fields that documents may lack. */
  datatype Poll = Poll(
    id: Option<string>,
    question: string,
    options: seq<PollOption>,
    createdBy: string,
    isActive: bool,
    isAnonymous: Option<bool>,
    category: Option<string>,
    totalVotes: Option<nat>)

  /** One row of the vote ledger. */
  datatype Vote = Vote(pollId: string, optionId: string, userId: string, userDisplayName: Option<string>)

  /** One row of the report collection. */
  datatype Report = Report(pollId: string, reportedBy: string, reason: string)

  /** How many times `x` occurs in `s`. */
  function Occurrences<T(==)>(s: seq<T>, x: T): nat
  {
    multiset(s)[x]
  }

  /** Counting in a concatenation: the first part, then the second. */
  lemma OccurrencesAppend<T>(a: seq<T>, b: seq<T>, x: T)
    ensures Occurrences(a + b, x) == Occurrences(a, x) + Occurrences(b, x)
  {
  }

  /** Counting in a non-empty sequence: the head, then the tail. */
  lemma OccurrencesCons<T>(s: seq<T>, x: T)
    requires s != []
    ensures Occurrences(s, x) == (if s[0] == x then 1 else 0) + Occurrences(s[1..], x)
  {
    assert s == [s[0]] + s[1..];
  }

  /** `list.filter(keep)`: every element meeting the condition, as often
      as it occurs, and nothing else. */
  function Keep<T(==,!new)>(list: seq<T>, keep: T -> bool): (r: seq<T>)
    ensures |r| <= |list|
    ensures forall x :: x in r <==> x in list && keep(x)
    ensures forall i :: 0 <= i < |r| ==> keep(r[i])
    ensures forall x {:trigger Occurrences(r, x)} :: Occurrences(r, x) == if keep(x) then Occurrences(list, x) else 0
  {
    if list == [] then []
    else
      var head := if keep(list[0]) then [list[0]] else [];
      var rest := Keep(list[1..], keep);
      assert forall x {:trigger Occurrences(head + rest, x)} ::
               Occurrences(head + rest, x) == if keep(x) then Occurrences(list, x) else 0 by {
        forall x
          ensures Occurrences(head + rest, x) == if keep(x) then Occurrences(list, x) else 0
        {
          OccurrencesAppend(head, rest, x);
          OccurrencesCons(list, x);
          assert Occurrences(rest, x) == if keep(x) then Occurrences(list[1..], x) else 0;
        }
      }
      head + rest
  }

  /** Filtering with a condition every element meets keeps the list. */
  lemma {:induction false} KeepAll<T(!new)>(list: seq<T>, keep: T -> bool)
    requires forall x :: x in list ==> keep(x)
    ensures Keep(list, keep) == list
  {
    if list != [] {
      assert list[0] in list;
      assert forall x :: x in list[1..] ==> x in list;
      KeepAll(list[1..], keep);
    }
  }

  /** `poll.totalVotes || 0`: a missing count reads as zero. */
  function TotalOrZero(p: Poll): nat
  {
    match p.totalVotes
    case None => 0
    case Some(n) => n
  }

  /** A JavaScript string is truthy when it is present and not empty. */
  predicate Truthy(s: Option<string>)
  {
    s.Some? && s.value != ""
  }

  /** Sum of the vote counts of a sequence of options. */
  function SumVotes(options: seq<PollOption>): nat
  {
    if options == [] then 0 else SumVotes(options[..|options| - 1]) + options[|options| - 1].votes
  }

  /** The option ids of a poll are pairwise distinct. */
  predicate DistinctOptionIds(options: seq<PollOption>)
  {
    forall i, j :: 0 <= i < j < |options| ==> options[i].id != options[j].id
  }

  /** `options.findIndex(opt => opt.id === id)`: the first position whose
      option has the id, or -1 when there is none. */
  function OptionIndex(options: seq<PollOption>, id: string): (k: int)
    ensures -1 <= k < |options|
    ensures k == -1 <==> forall j :: 0 <= j < |options| ==> options[j].id != id
    ensures k >= 0 ==> options[k].id == id && forall j :: 0 <= j < k ==> options[j].id != id
  {
    if options == [] then -1
    else if options[0].id == id then 0
    else
      var k := OptionIndex(options[1..], id);
      if k == -1 then -1 else k + 1
  }

  /** Raising one option's count by one raises the sum by one. */
  lemma {:induction false} SumVotesIncrement(options: seq<PollOption>, k: nat)
    requires k < |options|
    ensures SumVotes(options[k := options[k].(votes := options[k].votes + 1)]) == SumVotes(options) + 1
  {
    var updated := options[k := options[k].(votes := options[k].votes + 1)];
    var n := |options| - 1;
    assert updated[..n] == if k == n then options[..n] else options[..n][k := options[k].(votes := options[k].votes + 1)];
    if k < n {
      SumVotesIncrement(options[..n], k);
    }
  }
}
