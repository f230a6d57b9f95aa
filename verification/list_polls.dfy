/** The poll list page: a text search on the question and a status filter
    over all loaded polls. */
module ListPolls {
  import opened Models
  import opened Text

  /** `a` is `b` with some elements dropped, order kept: `idx` picks the
      positions of `b` that make up `a`. */
  predicate Picks(a: seq<Poll>, b: seq<Poll>, idx: seq<nat>)
  {
    && |idx| == |a|
    && (forall i :: 0 <= i < |idx| ==> idx[i] < |b| && a[i] == b[idx[i]])
    && (forall i, j :: 0 <= i < j < |idx| ==> idx[i] < idx[j])
  }

  /** `a` is an order-preserving subsequence of `b`. */
  ghost predicate IsSubsequence(a: seq<Poll>, b: seq<Poll>)
  {
    exists idx :: Picks(a, b, idx)
  }

  /** Shift every picked position up by one. */
  function Shift(idx: seq<nat>): (r: seq<nat>)
    ensures |r| == |idx| && forall i :: 0 <= i < |idx| ==> r[i] == idx[i] + 1
  {
    seq(|idx|, i requires 0 <= i < |idx| => idx[i] + 1)
  }

  /** Putting an element in front of the larger list keeps the picks,
      shifted by one. */
  lemma PicksSkip(a: seq<Poll>, b: seq<Poll>, idx: seq<nat>, x: Poll)
    requires Picks(a, b, idx)
    ensures Picks(a, [x] + b, Shift(idx))
  {
    var shifted := Shift(idx);
    forall i | 0 <= i < |idx|
      ensures shifted[i] < |[x] + b| && a[i] == ([x] + b)[shifted[i]]
    {
      assert ([x] + b)[idx[i] + 1] == b[idx[i]];
    }
  }

  /** Putting the same element in front of both lists picks it first. */
  lemma PicksTake(a: seq<Poll>, b: seq<Poll>, idx: seq<nat>, x: Poll)
    requires Picks(a, b, idx)
    ensures Picks([x] + a, [x] + b, [0] + Shift(idx))
  {
    PicksSkip(a, b, idx, x);
    var shifted := Shift(idx);
    var picks := [0] + shifted;
    forall i | 0 <= i < |picks|
      ensures picks[i] < |[x] + b| && ([x] + a)[i] == ([x] + b)[picks[i]]
    {
      if i > 0 {
        assert picks[i] == shifted[i - 1];
        assert ([x] + a)[i] == a[i - 1];
      }
    }
    forall i, j | 0 <= i < j < |picks|
      ensures picks[i] < picks[j]
    {
      assert picks[j] == shifted[j - 1];
      if i > 0 {
        assert picks[i] == shifted[i - 1];
      }
    }
  }

  /** A filter keeps the order of what it keeps. */
  lemma {:induction false} KeepIsSubsequence(list: seq<Poll>, keep: Poll -> bool)
    ensures IsSubsequence(Keep(list, keep), list)
  {
    if list == [] {
      assert Picks([], list, []);
    } else {
      KeepIsSubsequence(list[1..], keep);
      var rest := Keep(list[1..], keep);
      var idx :| Picks(rest, list[1..], idx);
      assert list == [list[0]] + list[1..];
      if keep(list[0]) {
        PicksTake(rest, list[1..], idx, list[0]);
        assert Picks(Keep(list, keep), list, [0] + Shift(idx));
      } else {
        PicksSkip(rest, list[1..], idx, list[0]);
        assert Picks(Keep(list, keep), list, Shift(idx));
      }
    }
  }

  /** Every list is a subsequence of itself. */
  lemma SubsequenceRefl(list: seq<Poll>)
    ensures IsSubsequence(list, list)
  {
    assert Picks(list, list, seq(|list|, i requires 0 <= i < |list| => i));
  }

  /** A subsequence of a subsequence is a subsequence. */
  lemma SubsequenceTransitive(a: seq<Poll>, b: seq<Poll>, c: seq<Poll>)
    requires IsSubsequence(a, b) && IsSubsequence(b, c)
    ensures IsSubsequence(a, c)
  {
    var outer :| Picks(a, b, outer);
    var inner :| Picks(b, c, inner);
    var composed := seq(|outer|, i requires 0 <= i < |outer| => inner[outer[i]]);
    assert Picks(a, c, composed);
  }

  /** Filtering twice with the same condition is filtering once. */
  lemma KeepTwice(list: seq<Poll>, keep: Poll -> bool)
    ensures Keep(Keep(list, keep), keep) == Keep(list, keep)
  {
    KeepAll(Keep(list, keep), keep);
  }

  /** The question matches the lower-cased, trimmed query: an empty query
      matches every poll, and a match is never longer than the question. */
  predicate MatchesQuery(p: Poll, query: string)
    ensures query == "" ==> MatchesQuery(p, query)
    ensures MatchesQuery(p, query) ==> |query| <= |p.question|
  {
    Contains(ToLower(p.question), query)
  }

  /** The status filter: 'all' keeps everything, 'active' keeps the open
      polls, any other value keeps the closed ones. */
  predicate MatchesStatus(p: Poll, status: string)
    ensures status == "all" ==> MatchesStatus(p, status)
    ensures status == "active" ==> (MatchesStatus(p, status) <==> p.isActive)
    ensures status != "all" && status != "active" ==> (MatchesStatus(p, status) <==> !p.isActive)
  {
    status == "all" || p.isActive == (status == "active")
  }

  /** `applyFilters()` on the loaded polls, the search text and the status. */
  function Filtered(allPolls: seq<Poll>, searchQuery: string, status: string): (r: seq<Poll>)
    ensures |r| <= |allPolls|
    ensures forall p :: p in r ==> p in allPolls && (status != "all" ==> p.isActive == (status == "active"))
  {
    var query := Trim(ToLower(searchQuery));
    var searched := if Trim(searchQuery) != "" then Keep(allPolls, p => MatchesQuery(p, query)) else allPolls;
    if status != "all" then Keep(searched, p => MatchesStatus(p, status)) else searched
  }

  /** The filtered list is an order-preserving subsequence of all polls. */
  lemma ApplyFiltersSubsequence(allPolls: seq<Poll>, searchQuery: string, status: string)
    ensures IsSubsequence(Filtered(allPolls, searchQuery, status), allPolls)
  {
    var query := Trim(ToLower(searchQuery));
    var searched := if Trim(searchQuery) != "" then Keep(allPolls, p => MatchesQuery(p, query)) else allPolls;
    if Trim(searchQuery) != "" {
      KeepIsSubsequence(allPolls, p => MatchesQuery(p, query));
    } else {
      SubsequenceRefl(allPolls);
    }
    if status != "all" {
      KeepIsSubsequence(searched, p => MatchesStatus(p, status));
      SubsequenceTransitive(Filtered(allPolls, searchQuery, status), searched, allPolls);
    }
  }

  /** A poll is listed exactly when it is loaded, matches a non-blank query
      and matches the status. */
  lemma ApplyFiltersMembers(allPolls: seq<Poll>, searchQuery: string, status: string, p: Poll)
    ensures p in Filtered(allPolls, searchQuery, status) <==>
      && p in allPolls
      && (Trim(searchQuery) != "" ==> Contains(ToLower(p.question), Trim(ToLower(searchQuery))))
      && (status != "all" ==> p.isActive == (status == "active"))
  {
  }

  /** A blank query and the status 'all' list every poll. */
  lemma BlankQueryListsAll(allPolls: seq<Poll>, searchQuery: string)
    requires IsBlank(searchQuery)
    ensures Filtered(allPolls, searchQuery, "all") == allPolls
  {
  }

  /** Filtering the filtered list again with the same inputs changes
      nothing. */
  lemma ApplyFiltersIdempotent(allPolls: seq<Poll>, searchQuery: string, status: string)
    ensures var once := Filtered(allPolls, searchQuery, status);
            Filtered(once, searchQuery, status) == once
  {
    var once := Filtered(allPolls, searchQuery, status);
    var query := Trim(ToLower(searchQuery));
    var search := p => MatchesQuery(p, query);
    var byStatus := p => MatchesStatus(p, status);
    if Trim(searchQuery) != "" {
      KeepAll(once, search);
    }
    if status != "all" {
      var searched := if Trim(searchQuery) != "" then Keep(once, search) else once;
      KeepAll(searched, byStatus);
    }
  }

  /** The poll list page. */
  class ListPollsComponent {
    var isLoading: bool
    var allPolls: seq<Poll>
    var filteredPolls: seq<Poll>
    var searchQuery: string
    var statusFilter: string

    constructor ()
      ensures isLoading && allPolls == [] && filteredPolls == [] && searchQuery == "" && statusFilter == "all"
    {
      isLoading, allPolls, filteredPolls := true, [], [];
      searchQuery, statusFilter := "", "all";
    }

    /** The polls arrive from the store: all are shown, unfiltered. */
    method PollsLoaded(polls: seq<Poll>)
      modifies this`allPolls, this`filteredPolls, this`isLoading
      ensures allPolls == polls && filteredPolls == polls && !isLoading
    {
      allPolls := polls;
      filteredPolls := allPolls;
      isLoading := false;
    }

    /** `applyFilters()`: only the shown list changes. */
    method ApplyFilters()
      modifies this`filteredPolls
      ensures filteredPolls == Filtered(allPolls, searchQuery, statusFilter)
    {
      var filtered := allPolls;
      if Trim(searchQuery) != "" {
        var query := Trim(ToLower(searchQuery));
        filtered := Keep(filtered, p => MatchesQuery(p, query));
      }
      if statusFilter != "all" {
        var status := statusFilter;
        filtered := Keep(filtered, p => MatchesStatus(p, status));
      }
      filteredPolls := filtered;
    }

    /** `resetFilters()`. */
    method ResetFilters()
      modifies this`searchQuery, this`statusFilter, this`filteredPolls
      ensures searchQuery == "" && statusFilter == "all" && filteredPolls == allPolls
      ensures filteredPolls == Filtered(allPolls, searchQuery, statusFilter)
    {
      searchQuery := "";
      statusFilter := "all";
      filteredPolls := allPolls;
      BlankQueryListsAll(allPolls, searchQuery);
    }
  }
}
