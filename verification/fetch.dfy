/** The retry loop `download_image(url, max_retries=3)`: up to three GET
    requests, the body of the first response with status 200, otherwise
    `None`. The network is a parameter: the outcome of each attempt (a
    response with its status and body, or a raised exception) is supplied as
    a sequence, and attempts past its end raise. The failure lines the loop
    prints are kept as reports, because the copies differ there. */
module Fetch {
  import opened Wrappers

  type Byte = b: int | 0 <= b < 256
  type Bytes = seq<Byte>

  /** What one `requests.get` does: answer, or raise. */
  datatype Outcome = Response(status: int, content: Bytes) | Raised

  const MaxRetries: nat := 3
  const StatusOk: int := 200

  predicate IsOk(o: Outcome) {
    o.Response? && o.status == StatusOk
  }

  /** The outcome of attempt `j`; attempts past the supplied ones raise. */
  function OutcomeAt(outcomes: seq<Outcome>, j: nat): Outcome {
    if j < |outcomes| then outcomes[j] else Raised
  }

  /** Which failures are printed. `scripts/migrate_to_s3.py` prints every
      non-200 status and an exception on the last attempt only; the other two
      copies print a failure of either kind on the last attempt only. */
  datatype ReportPolicy = EveryStatusFailure | LastAttemptOnly

  datatype Report = StatusReport(attempt: nat, status: int) | ErrorReport(attempt: nat)

  /** The body returned (if any), how many requests were made, and what was
      printed. */
  datatype Fetched = Fetched(body: Option<Bytes>, attempts: nat, reports: seq<Report>)

  function ReportAttempt(r: Report): nat {
    match r
    case StatusReport(a, _) => a
    case ErrorReport(a) => a
  }

  /** The loop from attempt `attempt` on. */
  function DownloadFrom(outcomes: seq<Outcome>, maxRetries: nat, attempt: nat, policy: ReportPolicy): (f: Fetched)
    requires attempt <= maxRetries
    ensures attempt <= f.attempts <= maxRetries
    // The body is there exactly when some remaining attempt answers 200 ...
    ensures f.body.Some? <==> exists j :: attempt <= j < maxRetries && IsOk(OutcomeAt(outcomes, j))
    // ... and it is the body of the first such attempt, which is the last one made.
    ensures f.body.Some? ==>
      f.attempts > attempt && IsOk(OutcomeAt(outcomes, f.attempts - 1))
      && f.body.value == OutcomeAt(outcomes, f.attempts - 1).content
    ensures forall j :: attempt <= j < f.attempts - 1 ==> !IsOk(OutcomeAt(outcomes, j))
    // Without a 200 every attempt is used up.
    ensures f.body.None? ==> f.attempts == maxRetries
    decreases maxRetries - attempt
  {
    if attempt == maxRetries then Fetched(None, attempt, [])
    else
      var last := attempt == maxRetries - 1;
      match OutcomeAt(outcomes, attempt)
      case Response(status, content) =>
        if status == StatusOk then Fetched(Some(content), attempt + 1, [])
        else
          var rest := DownloadFrom(outcomes, maxRetries, attempt + 1, policy);
          var printed := if policy == EveryStatusFailure || last then [StatusReport(attempt, status)] else [];
          Fetched(rest.body, rest.attempts, printed + rest.reports)
      case Raised =>
        var rest := DownloadFrom(outcomes, maxRetries, attempt + 1, policy);
        var printed := if last then [ErrorReport(attempt)] else [];
        Fetched(rest.body, rest.attempts, printed + rest.reports)
  }

  /** Every report is about a failed attempt in `[lo, hi)`. */
  predicate ReportsFailedWithin(rs: seq<Report>, outcomes: seq<Outcome>, lo: nat, hi: nat) {
    forall k :: 0 <= k < |rs| ==>
      lo <= ReportAttempt(rs[k]) < hi && !IsOk(OutcomeAt(outcomes, ReportAttempt(rs[k])))
  }

  predicate AttemptsAscending(rs: seq<Report>) {
    forall k, l :: 0 <= k < l < |rs| ==> ReportAttempt(rs[k]) < ReportAttempt(rs[l])
  }

  /** Only failed attempts that were made are reported. */
  lemma {:induction false} ReportsAreFailures(outcomes: seq<Outcome>, maxRetries: nat, attempt: nat, policy: ReportPolicy)
    requires attempt <= maxRetries
    ensures var f := DownloadFrom(outcomes, maxRetries, attempt, policy);
      ReportsFailedWithin(f.reports, outcomes, attempt, f.attempts)
    decreases maxRetries - attempt
  {
    if attempt < maxRetries && !IsOk(OutcomeAt(outcomes, attempt)) {
      ReportsAreFailures(outcomes, maxRetries, attempt + 1, policy);
      var f := DownloadFrom(outcomes, maxRetries, attempt, policy);
      var rest := DownloadFrom(outcomes, maxRetries, attempt + 1, policy);
      var printed := f.reports[..|f.reports| - |rest.reports|];
      assert f.reports == printed + rest.reports;
      assert ReportsFailedWithin(printed, outcomes, attempt, f.attempts);
      ReportsFailedAppend(printed, rest.reports, outcomes, attempt, f.attempts);
    }
  }

  lemma ReportsFailedAppend(p: seq<Report>, r: seq<Report>, outcomes: seq<Outcome>, lo: nat, hi: nat)
    requires ReportsFailedWithin(p, outcomes, lo, hi) && ReportsFailedWithin(r, outcomes, lo, hi)
    ensures ReportsFailedWithin(p + r, outcomes, lo, hi)
  {
    forall k | |p| <= k < |p + r|
      ensures (p + r)[k] == r[k - |p|]
    {
    }
  }

  /** Reports come in attempt order. */
  lemma {:induction false} ReportsInAttemptOrder(outcomes: seq<Outcome>, maxRetries: nat, attempt: nat, policy: ReportPolicy)
    requires attempt <= maxRetries
    ensures AttemptsAscending(DownloadFrom(outcomes, maxRetries, attempt, policy).reports)
    decreases maxRetries - attempt
  {
    if attempt < maxRetries && !IsOk(OutcomeAt(outcomes, attempt)) {
      ReportsInAttemptOrder(outcomes, maxRetries, attempt + 1, policy);
      ReportsAreFailures(outcomes, maxRetries, attempt + 1, policy);
      var rest := DownloadFrom(outcomes, maxRetries, attempt + 1, policy);
      var printed := FailedAttemptStep(outcomes, maxRetries, attempt, policy);
      AscendingPrepend(printed, rest.reports, attempt);
    }
  }

  /** One failed attempt prints at most one report, about itself, in front
      of the reports of the attempts after it. */
  lemma FailedAttemptStep(outcomes: seq<Outcome>, maxRetries: nat, attempt: nat, policy: ReportPolicy)
    returns (printed: seq<Report>)
    requires attempt < maxRetries && !IsOk(OutcomeAt(outcomes, attempt))
    ensures DownloadFrom(outcomes, maxRetries, attempt, policy).reports
      == printed + DownloadFrom(outcomes, maxRetries, attempt + 1, policy).reports
    ensures |printed| <= 1 && forall k :: 0 <= k < |printed| ==> ReportAttempt(printed[k]) == attempt
  {
    var last := attempt == maxRetries - 1;
    match OutcomeAt(outcomes, attempt)
    case Response(status, _) =>
      printed := if policy == EveryStatusFailure || last then [StatusReport(attempt, status)] else [];
    case Raised =>
      printed := if last then [ErrorReport(attempt)] else [];
  }

  /** Reports about `attempt` followed by ascending reports about later
      attempts are ascending, as long as there is at most one of the former. */
  lemma AscendingPrepend(p: seq<Report>, r: seq<Report>, attempt: nat)
    requires |p| <= 1 && forall k :: 0 <= k < |p| ==> ReportAttempt(p[k]) == attempt
    requires AttemptsAscending(r) && forall k :: 0 <= k < |r| ==> ReportAttempt(r[k]) > attempt
    ensures AttemptsAscending(p + r)
  {
    forall k | |p| <= k < |p + r|
      ensures (p + r)[k] == r[k - |p|]
    {
    }
  }


  /** Under the last-attempt policy a failed download prints one line, about
      the last attempt, and a successful one prints nothing. */
  lemma {:induction false} LastAttemptReport(outcomes: seq<Outcome>, maxRetries: nat, attempt: nat)
    requires attempt <= maxRetries
    ensures var f := DownloadFrom(outcomes, maxRetries, attempt, LastAttemptOnly);
      (f.reports != [] <==> f.body.None? && attempt < maxRetries)
      && (f.reports != [] ==> |f.reports| == 1 && ReportAttempt(f.reports[0]) == maxRetries - 1)
    decreases maxRetries - attempt
  {
    if attempt < maxRetries && !IsOk(OutcomeAt(outcomes, attempt)) {
      LastAttemptReport(outcomes, maxRetries, attempt + 1);
    }
  }

  /** Under the every-status policy each non-200 response is printed. */
  lemma {:induction false} EveryStatusReported(outcomes: seq<Outcome>, maxRetries: nat, attempt: nat)
    requires attempt <= maxRetries
    ensures var f := DownloadFrom(outcomes, maxRetries, attempt, EveryStatusFailure);
      forall j :: attempt <= j < f.attempts && OutcomeAt(outcomes, j).Response? && !IsOk(OutcomeAt(outcomes, j)) ==>
        StatusReport(j, OutcomeAt(outcomes, j).status) in f.reports
    decreases maxRetries - attempt
  {
    if attempt < maxRetries && !IsOk(OutcomeAt(outcomes, attempt)) {
      EveryStatusReported(outcomes, maxRetries, attempt + 1);
    }
  }

  /** `download_image(url)` with the default three attempts. */
  function Download(outcomes: seq<Outcome>, policy: ReportPolicy): (f: Fetched)
    ensures f.body.Some? <==> exists j :: 0 <= j < MaxRetries && IsOk(OutcomeAt(outcomes, j))
    ensures f.body.Some? ==>
      1 <= f.attempts <= MaxRetries && IsOk(OutcomeAt(outcomes, f.attempts - 1))
      && f.body.value == OutcomeAt(outcomes, f.attempts - 1).content
      && forall j :: 0 <= j < f.attempts - 1 ==> !IsOk(OutcomeAt(outcomes, j))
    ensures f.body.None? ==> f.attempts == MaxRetries
  {
    DownloadFrom(outcomes, MaxRetries, 0, policy)
  }

  /** No request follows a 200, and the outcomes of attempts that are never
      made do not matter: two networks that agree on the attempts made give
      the same result. */
  lemma {:induction false} OnlyAttemptsMadeMatter(outcomes: seq<Outcome>, other: seq<Outcome>, maxRetries: nat, attempt: nat, policy: ReportPolicy)
    requires attempt <= maxRetries
    requires forall j :: attempt <= j < DownloadFrom(outcomes, maxRetries, attempt, policy).attempts ==>
      OutcomeAt(other, j) == OutcomeAt(outcomes, j)
    ensures DownloadFrom(other, maxRetries, attempt, policy) == DownloadFrom(outcomes, maxRetries, attempt, policy)
    decreases maxRetries - attempt
  {
    if attempt < maxRetries {
      var f := DownloadFrom(outcomes, maxRetries, attempt, policy);
      assert OutcomeAt(other, attempt) == OutcomeAt(outcomes, attempt);
      if !IsOk(OutcomeAt(outcomes, attempt)) {
        var rest := DownloadFrom(outcomes, maxRetries, attempt + 1, policy);
        assert rest.attempts == f.attempts;
        OnlyAttemptsMadeMatter(outcomes, other, maxRetries, attempt + 1, policy);
      }
    }
  }

  /** The same for the default three attempts. */
  lemma DownloadUsesOnlyAttemptsMade(outcomes: seq<Outcome>, other: seq<Outcome>, policy: ReportPolicy)
    requires forall j :: 0 <= j < Download(outcomes, policy).attempts ==> OutcomeAt(other, j) == OutcomeAt(outcomes, j)
    ensures Download(other, policy) == Download(outcomes, policy)
  {
    OnlyAttemptsMadeMatter(outcomes, other, MaxRetries, 0, policy);
  }

  /** Both report policies return the same body after the same number of
      requests; they differ only in what is printed. */
  lemma {:induction false} PolicyOnlyAffectsReports(outcomes: seq<Outcome>, maxRetries: nat, attempt: nat)
    requires attempt <= maxRetries
    ensures DownloadFrom(outcomes, maxRetries, attempt, EveryStatusFailure).body
         == DownloadFrom(outcomes, maxRetries, attempt, LastAttemptOnly).body
    ensures DownloadFrom(outcomes, maxRetries, attempt, EveryStatusFailure).attempts
         == DownloadFrom(outcomes, maxRetries, attempt, LastAttemptOnly).attempts
    decreases maxRetries - attempt
  {
    if attempt < maxRetries && !IsOk(OutcomeAt(outcomes, attempt)) {
      PolicyOnlyAffectsReports(outcomes, maxRetries, attempt + 1);
    }
  }

  /** A first-attempt 200 is returned at once, even with an empty body. */
  lemma FirstAttemptOk(outcomes: seq<Outcome>, policy: ReportPolicy)
    requires |outcomes| > 0 && IsOk(outcomes[0])
    ensures Download(outcomes, policy) == Fetched(Some(outcomes[0].content), 1, [])
  {
  }

  /** Three failures of any kind give `None`; a 200 on the fourth attempt is
      never requested. */
  lemma ThreeFailuresGiveNone(outcomes: seq<Outcome>, policy: ReportPolicy)
    requires |outcomes| >= 4
    requires !IsOk(outcomes[0]) && !IsOk(outcomes[1]) && !IsOk(outcomes[2]) && IsOk(outcomes[3])
    ensures Download(outcomes, policy).body == None
    ensures Download(outcomes, policy).attempts == 3
  {
    assert forall j :: 0 <= j < MaxRetries ==> OutcomeAt(outcomes, j) == outcomes[j];
  }
}
