/** The report service: a signed-in user files at most one report per poll;
    reports can be listed per poll. */
module Reports {
  import opened Models

  /** The errors `reportPoll` throws. */
  datatype ReportError = MustLogIn | AlreadyReported

  /** The message carried by each error. */
  function Message(e: ReportError): string
  {
    match e
    case MustLogIn => "You must be logged in to report."
    case AlreadyReported => "You have already reported this poll."
  }

  /** The report is about this poll and was filed by this user. */
  predicate ByReporter(r: Report, pollId: string, userId: string)
  {
    r.pollId == pollId && r.reportedBy == userId
  }

  /** The report query of `reportPoll` is not empty. */
  function HasReported(reports: seq<Report>, pollId: string, userId: string): (b: bool)
    ensures b <==> exists i :: 0 <= i < |reports| && ByReporter(reports[i], pollId, userId)
  {
    if reports == [] then false
    else
      var n := |reports| - 1;
      HasReported(reports[..n], pollId, userId) || ByReporter(reports[n], pollId, userId)
  }

  /** `getReportsForPoll(pollId)`: the reports about the poll, in order. */
  function GetReportsForPoll(reports: seq<Report>, pollId: string): (r: seq<Report>)
    ensures |r| <= |reports|
    ensures forall x :: x in r <==> x in reports && x.pollId == pollId
  {
    if reports == [] then []
    else
      var n := |reports| - 1;
      assert reports == reports[..n] + [reports[n]];
      GetReportsForPoll(reports[..n], pollId) + (if reports[n].pollId == pollId then [reports[n]] else [])
  }

  /** `reportPoll(pollId, reason)` on the report list. */
  function ReportStep(reports: seq<Report>, user: Option<User>, pollId: string, reason: string)
    : (res: (Outcome<ReportError>, seq<Report>))
    ensures res.0.Fail? ==> res.1 == reports
    ensures res.0.Pass? ==> user.Some? && !HasReported(reports, pollId, user.value.uid)
                            && res.1 == reports + [Report(pollId, user.value.uid, reason)]
  {
    if user.None? then (Fail(MustLogIn), reports)
    else if HasReported(reports, pollId, user.value.uid) then (Fail(AlreadyReported), reports)
    else (Pass, reports + [Report(pollId, user.value.uid, reason)])
  }

  /** No user has two reports on one poll. */
  predicate OneReportEach(reports: seq<Report>)
  {
    forall i, j :: 0 <= i < j < |reports| ==>
      !ByReporter(reports[j], reports[i].pollId, reports[i].reportedBy)
  }

  /** Reporting needs a user and no earlier report on the poll by that
      user; a success appends exactly one report, a failure changes
      nothing. */
  lemma ReportStepEffect(reports: seq<Report>, user: Option<User>, pollId: string, reason: string)
    ensures var (r, reports') := ReportStep(reports, user, pollId, reason);
      && (user.None? ==> r == Fail(MustLogIn))
      && (user.Some? ==>
            (r == Fail(AlreadyReported) <==>
               exists i :: 0 <= i < |reports| && reports[i].pollId == pollId && reports[i].reportedBy == user.value.uid))
      && (r.Fail? ==> reports' == reports)
      && (r.Pass? ==> reports' == reports + [Report(pollId, user.value.uid, reason)])
  {
  }

  /** After a successful report, every further report by the same user on
      the same poll fails as a repeat. */
  lemma SecondReportRejected(reports: seq<Report>, user: Option<User>, pollId: string, reason: string, reason2: string)
    requires ReportStep(reports, user, pollId, reason).0.Pass?
    ensures ReportStep(ReportStep(reports, user, pollId, reason).1, user, pollId, reason2).0 == Fail(AlreadyReported)
  {
    var reports' := ReportStep(reports, user, pollId, reason).1;
    assert ByReporter(reports'[|reports|], pollId, user.value.uid);
  }

  /** Reporting keeps at most one report per user and poll. */
  lemma ReportPreservesOneEach(reports: seq<Report>, user: Option<User>, pollId: string, reason: string)
    requires OneReportEach(reports)
    ensures OneReportEach(ReportStep(reports, user, pollId, reason).1)
  {
  }

  /** A new report shows up in its poll's list after the earlier ones. */
  lemma {:induction false} ReportsForPollAppend(reports: seq<Report>, x: Report, pollId: string)
    ensures GetReportsForPoll(reports + [x], pollId)
         == GetReportsForPoll(reports, pollId) + (if x.pollId == pollId then [x] else [])
  {
    assert (reports + [x])[..|reports|] == reports;
  }

  /** The report service over its in-memory report list. */
  class ReportService {
    var reports: seq<Report>
    var currentUser: Option<User>

    constructor (user: Option<User>)
      ensures reports == [] && currentUser == user
    {
      reports, currentUser := [], user;
    }

    /** `reportPoll(pollId, reason)`. */
    method ReportPoll(pollId: string, reason: string) returns (r: Outcome<ReportError>)
      modifies this
      ensures currentUser == old(currentUser)
      ensures (r, reports) == ReportStep(old(reports), currentUser, pollId, reason)
      ensures old(OneReportEach(reports)) ==> OneReportEach(reports)
    {
      if currentUser.None? {
        return Fail(MustLogIn);
      }
      if HasReported(reports, pollId, currentUser.value.uid) {
        return Fail(AlreadyReported);
      }
      reports := reports + [Report(pollId, currentUser.value.uid, reason)];
      r := Pass;
    }
  }
}
