/** The admin analytics page: for every snapshot of the `polls` collection,
    the number of polls, of open and of closed polls, the total vote count
    and the votes per category. */
module Analytics {
  import opened Models

  /** The `isActive` flags of the polls, in order. */
  function Statuses(polls: seq<Poll>): (flags: seq<bool>)
    ensures |flags| == |polls| && forall i :: 0 <= i < |polls| ==> flags[i] == polls[i].isActive
  {
    seq(|polls|, i requires 0 <= i < |polls| => polls[i].isActive)
  }

  /** The flags of one more poll are the earlier flags and its own. */
  lemma StatusesSnoc(polls: seq<Poll>)
    requires polls != []
    ensures Statuses(polls) == Statuses(polls[..|polls| - 1]) + [polls[|polls| - 1].isActive]
  {
  }

  /** `polls.filter(p => p.isActive).length`. */
  function CountActive(polls: seq<Poll>): (n: nat)
    ensures n == multiset(Statuses(polls))[true]
    ensures n <= |polls|
    ensures n == 0 <==> forall i :: 0 <= i < |polls| ==> !polls[i].isActive
  {
    if polls == [] then 0
    else
      StatusesSnoc(polls);
      CountActive(polls[..|polls| - 1]) + (if polls[|polls| - 1].isActive then 1 else 0)
  }

  /** `polls.filter(p => !p.isActive).length`. */
  function CountClosed(polls: seq<Poll>): (n: nat)
    ensures n == multiset(Statuses(polls))[false]
    ensures n <= |polls|
    ensures n == 0 <==> forall i :: 0 <= i < |polls| ==> polls[i].isActive
  {
    if polls == [] then 0
    else
      StatusesSnoc(polls);
      CountClosed(polls[..|polls| - 1]) + (if !polls[|polls| - 1].isActive then 1 else 0)
  }

  /** Every poll is either open or closed. */
  lemma {:induction false} ActivePlusClosed(polls: seq<Poll>)
    ensures CountActive(polls) + CountClosed(polls) == |polls|
  {
    if polls != [] {
      ActivePlusClosed(polls[..|polls| - 1]);
    }
  }

  /** `poll.category || 'Uncategorized'`. */
  function CategoryOf(p: Poll): (c: string)
    ensures c != ""
    ensures Truthy(p.category) ==> c == p.category.value
  {
    if Truthy(p.category) then p.category.value else "Uncategorized"
  }

  /** `(votesPerCategory[cat] || 0)`. */
  function CountOf(m: map<string, nat>, key: string): nat
  {
    if key in m then m[key] else 0
  }

  /** The sum of `totalVotes || 0` over the polls. */
  function SumTotals(polls: seq<Poll>): (total: nat)
    ensures forall i :: 0 <= i < |polls| ==> TotalOrZero(polls[i]) <= total
  {
    if polls == [] then 0 else SumTotals(polls[..|polls| - 1]) + TotalOrZero(polls[|polls| - 1])
  }

  /** One pass of the loop: the poll's votes are added to its category. */
  function AddVotes(m: map<string, nat>, p: Poll): map<string, nat>
  {
    m[CategoryOf(p) := CountOf(m, CategoryOf(p)) + TotalOrZero(p)]
  }

  /** The votes per category after the loop has seen the polls in order. */
  function CategoryVotes(polls: seq<Poll>): (m: map<string, nat>)
    ensures "" !in m
  {
    if polls == [] then map[] else AddVotes(CategoryVotes(polls[..|polls| - 1]), polls[|polls| - 1])
  }

  /** Reference: the votes of the polls in one category. */
  function CategoryTotal(polls: seq<Poll>, category: string): nat
  {
    if polls == [] then 0
    else
      var p := polls[|polls| - 1];
      CategoryTotal(polls[..|polls| - 1], category) + (if CategoryOf(p) == category then TotalOrZero(p) else 0)
  }

  /** One more poll of the snapshot: its votes are added to its category and
      to the total. */
  lemma PrefixStep(polls: seq<Poll>, i: nat)
    requires i < |polls|
    ensures CategoryVotes(polls[..i + 1]) == AddVotes(CategoryVotes(polls[..i]), polls[i])
    ensures SumTotals(polls[..i + 1]) == SumTotals(polls[..i]) + TotalOrZero(polls[i])
  {
    assert polls[..i + 1][..i] == polls[..i];
  }

  /** Every poll's votes go to its own category: a category is listed
      exactly when some poll has it, with the votes of those polls. */
  lemma {:induction false} CategoryCredit(polls: seq<Poll>, category: string)
    ensures category in CategoryVotes(polls) <==> exists i :: 0 <= i < |polls| && CategoryOf(polls[i]) == category
    ensures CountOf(CategoryVotes(polls), category) == CategoryTotal(polls, category)
  {
    if polls != [] {
      var n := |polls| - 1;
      CategoryCredit(polls[..n], category);
      assert CategoryVotes(polls) == AddVotes(CategoryVotes(polls[..n]), polls[n]);
      assert forall i :: 0 <= i < n ==> polls[..n][i] == polls[i];
      if category in CategoryVotes(polls[..n]) {
        var i :| 0 <= i < n && CategoryOf(polls[..n][i]) == category;
        assert CategoryOf(polls[i]) == category;
      }
    }
  }

  /** An element of a non-empty map. */
  ghost function AnyKey(m: map<string, nat>): (k: string)
    requires m != map[]
    ensures k in m
  {
    var k :| k in m; k
  }

  /** The sum of the values of a map. */
  ghost function MapSum(m: map<string, nat>): nat
    decreases |m|
  {
    if m == map[] then 0
    else
      var k := AnyKey(m);
      assert |m - {k}| < |m| by {
        assert (m - {k}).Keys == m.Keys - {k};
      }
      m[k] + MapSum(m - {k})
  }

  /** The sum splits off any one key. */
  lemma {:induction false} MapSumRemove(m: map<string, nat>, k: string)
    requires k in m
    ensures MapSum(m) == m[k] + MapSum(m - {k})
    decreases |m|
  {
    var j := AnyKey(m);
    if j != k {
      assert (m - {j}).Keys == m.Keys - {j};
      assert (m - {k}).Keys == m.Keys - {k};
      MapSumRemove(m - {j}, k);
      MapSumRemove(m - {k}, j);
      assert m - {j} - {k} == m - {k} - {j};
    }
  }

  /** Setting one entry changes the sum by the difference. */
  lemma MapSumUpdate(m: map<string, nat>, k: string, v: nat)
    ensures MapSum(m[k := v]) == MapSum(m) - CountOf(m, k) + v
  {
    MapSumRemove(m[k := v], k);
    assert m[k := v] - {k} == m - {k};
    if k in m {
      MapSumRemove(m, k);
    } else {
      assert m - {k} == m;
    }
  }

  /** The votes per category add up to the total vote count. */
  lemma {:induction false} CategoriesSumToTotal(polls: seq<Poll>)
    ensures MapSum(CategoryVotes(polls)) == SumTotals(polls)
  {
    if polls == [] {
    } else {
      var n := |polls| - 1;
      var p := polls[n];
      var m := CategoryVotes(polls[..n]);
      CategoriesSumToTotal(polls[..n]);
      assert CategoryVotes(polls) == AddVotes(m, p);
      MapSumUpdate(m, CategoryOf(p), CountOf(m, CategoryOf(p)) + TotalOrZero(p));
    }
  }

  /** The analytics page. */
  /** The snapshot loop: the accumulators start empty and take in the
      polls one by one. */
  method Tally(polls: seq<Poll>) returns (votes: map<string, nat>, total: nat)
    ensures votes == CategoryVotes(polls) && total == SumTotals(polls)
  {
    votes, total := map[], 0;
    for i := 0 to |polls|
      invariant votes == CategoryVotes(polls[..i])
      invariant total == SumTotals(polls[..i])
    {
      PrefixStep(polls, i);
      votes := AddVotes(votes, polls[i]);
      total := total + TotalOrZero(polls[i]);
    }
    assert polls[..|polls|] == polls;
  }

  class AdminAnalyticsComponent {
    var isLoading: bool
    var totalPolls: nat
    var totalVotes: nat
    var activePolls: nat
    var closedPolls: nat
    var votesPerCategory: map<string, nat>

    constructor ()
      ensures isLoading && totalPolls == 0 && totalVotes == 0 && activePolls == 0 && closedPolls == 0
      ensures votesPerCategory == map[]
    {
      isLoading := true;
      totalPolls, totalVotes, activePolls, closedPolls := 0, 0, 0, 0;
      votesPerCategory := map[];
    }

    /** The snapshot handler: the counts, then the accumulators reset and
        filled poll by poll; the result depends on the snapshot alone. */
    method ProcessSnapshot(polls: seq<Poll>)
      modifies this`isLoading, this`totalPolls, this`activePolls, this`closedPolls, this`votesPerCategory, this`totalVotes
      ensures totalPolls == |polls| && activePolls == CountActive(polls) && closedPolls == CountClosed(polls)
      ensures votesPerCategory == CategoryVotes(polls)
      ensures totalVotes == SumTotals(polls)
      ensures !isLoading
    {
      totalPolls := |polls|;
      activePolls := CountActive(polls);
      closedPolls := CountClosed(polls);
      votesPerCategory, totalVotes := Tally(polls);
      isLoading := false;
    }
  }
}
