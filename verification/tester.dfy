/** The bookkeeping state of `APITester`: its configuration, its counters and
    sample list, the effect of one request on them, and the statistics block.
    The network, the clock and the console are not modelled: what the network
    did for one request arrives as an `Exchange`, and the time since the run
    started arrives as a number. */
module Tester {
  import Url
  import Samples

  datatype Option<T> = None | Some(value: T)

  /** Immutable configuration: the normalised base URL, the pacing interval
      in seconds and the optional request cap. */
  datatype Config = Config(baseUrl: string, interval: real, maxRequests: Option<int>)

  /** The counters and the append-only list of elapsed times, in seconds. */
  datatype RunState = RunState(
    requestCount: nat,
    successCount: nat,
    errorCount: nat,
    responseTimes: seq<real>)

  datatype Tester = Tester(config: Config, state: RunState)

  /** How reading the body went: the read (`json()` on a 200, `text()`
      otherwise) returned, or it raised, `failedAt` seconds after the request
      began. */
  datatype BodyRead = Decoded | ReadRaised(failedAt: real)

  /** What the network did for one request: a response arrived after
      `elapsed` seconds, or the request failed before any response, after
      `failedAt` seconds (connection refused, timeout, ...). */
  datatype Exchange =
    | Responded(status: int, elapsed: real, body: BodyRead)
    | TransportFailure(failedAt: real)

  /** The status shown for a request: the HTTP status, or the "ERROR" marker
      whenever the `except` branch produced the result. */
  datatype Status = Code(code: int) | ErrorMarker

  /** The parts of the returned dictionary the run loop reads. */
  datatype RequestResult = RequestResult(status: Status, elapsed: real)

  datatype Step = Step(state: RunState, result: RequestResult)

  /** The state of a freshly constructed tester. */
  const Fresh: RunState := RunState(0, 0, 0, [])

  /** `APITester.__init__`: strips trailing slashes from the base URL and
      starts every counter at zero. */
  function Init(baseUrl: string, interval: real, maxRequests: Option<int>): (t: Tester)
    ensures t.config.baseUrl <= baseUrl
    ensures Url.AllSlashes(baseUrl[|t.config.baseUrl|..])
    ensures Url.NoTrailingSlash(t.config.baseUrl)
    ensures t.config.interval == interval && t.config.maxRequests == maxRequests
    ensures t.state.requestCount == t.state.successCount == t.state.errorCount == 0
    ensures |t.state.responseTimes| == 0
    ensures t.state == Fresh
  {
    Tester(Config(Url.StripTrailingSlashes(baseUrl), interval, maxRequests), Fresh)
  }

  /** The URL a tester sends every request to. */
  function RequestUrl(t: Tester): string {
    Url.RequestUrl(t.config.baseUrl)
  }

  /** Whatever URL the tester was constructed with, it requests the input
      without its trailing slashes followed by `/api/jokes/whatever`, with no
      second '/' at the join; adding trailing slashes to the input changes
      nothing. */
  lemma RequestUrlOfInit(u: string, extra: string, interval: real, cap: Option<int>)
    requires Url.AllSlashes(extra)
    ensures var url := RequestUrl(Init(u, interval, cap));
            var b := Url.StripTrailingSlashes(u);
            && url == b + Url.EndpointPath
            && (|b| == 0 || url[|b| - 1] != '/')
            && url == RequestUrl(Init(u + extra, interval, cap))
  {
    Url.RequestUrlJoinsOnce(u);
    Url.StripIgnoresExtraSlashes(u, extra);
  }

  // Classification of exchanges, used as the reference for the counters.

  /** A 200 response arrived (whether or not its body then decoded). */
  predicate IsOk(ex: Exchange) {
    ex.Responded? && ex.status == 200
  }

  /** A response arrived but reading its body raised. */
  predicate BodyFailed(ex: Exchange) {
    ex.Responded? && ex.body.ReadRaised?
  }

  /** The elapsed-time samples one exchange contributes, in order. */
  function SamplesOf(ex: Exchange): seq<real> {
    match ex
    case TransportFailure(f) => [f]
    case Responded(_, e, ReadRaised(f)) => [e, f]
    case Responded(_, e, Decoded) => [e]
  }

  /** `APITester.make_request` with the network abstracted. A response first
      records its sample, then counts a success (status 200) or an error, then
      reads the body; if the read raises, the `except` branch counts a further
      error and records a second sample. A transport failure goes straight to
      the `except` branch. The request counter is not touched. */
  function MakeRequest(st: RunState, ex: Exchange): (r: Step)
    ensures r.state.requestCount == st.requestCount
    ensures r.state.responseTimes == st.responseTimes + SamplesOf(ex)
    ensures r.state.successCount == st.successCount + (if IsOk(ex) then 1 else 0)
    ensures r.state.errorCount
         == st.errorCount + (if IsOk(ex) then 0 else 1) + (if BodyFailed(ex) then 1 else 0)
    // a non-200 response whose body reads: one error, one sample
    ensures ex.Responded? && ex.status != 200 && ex.body.Decoded? ==>
              && r.state.errorCount == st.errorCount + 1
              && r.state.successCount == st.successCount
              && r.state.responseTimes == st.responseTimes + [ex.elapsed]
              && r.result == RequestResult(Code(ex.status), ex.elapsed)
    // a 200 response whose body decodes: one success, one sample
    ensures ex.Responded? && ex.status == 200 && ex.body.Decoded? ==>
              && r.state.successCount == st.successCount + 1
              && r.state.errorCount == st.errorCount
              && r.state.responseTimes == st.responseTimes + [ex.elapsed]
              && r.result == RequestResult(Code(200), ex.elapsed)
    // a 200 response whose body fails to decode: counted as a success AND an error
    ensures ex.Responded? && ex.status == 200 && ex.body.ReadRaised? ==>
              && r.state.successCount == st.successCount + 1
              && r.state.errorCount == st.errorCount + 1
              && |r.state.responseTimes| == |st.responseTimes| + 2
    // any failed body read: the result is the "ERROR" marker, timed at the failure
    ensures ex.Responded? && ex.body.ReadRaised? ==>
              r.result == RequestResult(ErrorMarker, ex.body.failedAt)
    // a transport failure: one error, one sample, the "ERROR" marker
    ensures ex.TransportFailure? ==>
              && r.state.errorCount == st.errorCount + 1
              && r.state.successCount == st.successCount
              && r.state.responseTimes == st.responseTimes + [ex.failedAt]
              && r.result == RequestResult(ErrorMarker, ex.failedAt)
  {
    match ex
    case TransportFailure(f) =>
      Step(st.(errorCount := st.errorCount + 1, responseTimes := st.responseTimes + [f]),
           RequestResult(ErrorMarker, f))
    case Responded(status, e, body) =>
      var recorded := st.(responseTimes := st.responseTimes + [e]);
      var counted :=
        if status == 200 then recorded.(successCount := recorded.successCount + 1)
        else recorded.(errorCount := recorded.errorCount + 1);
      match body
      case Decoded => Step(counted, RequestResult(Code(status), e))
      case ReadRaised(f) =>
        Step(counted.(errorCount := counted.errorCount + 1,
                      responseTimes := counted.responseTimes + [f]),
             RequestResult(ErrorMarker, f))
  }

  /** One loop iteration's effect on the state: the pre-increment of the
      request counter, then the request. */
  function Issue(st: RunState, ex: Exchange): RunState {
    MakeRequest(st.(requestCount := st.requestCount + 1), ex).state
  }

  /** The state after issuing the given exchanges in order. */
  function IssueAll(st: RunState, exs: seq<Exchange>): RunState
    decreases |exs|
  {
    if |exs| == 0 then st else IssueAll(Issue(st, exs[0]), exs[1..])
  }

  /** Number of exchanges in `exs` satisfying `p`. */
  function Count(exs: seq<Exchange>, p: Exchange -> bool): nat {
    if |exs| == 0 then 0 else (if p(exs[0]) then 1 else 0) + Count(exs[1..], p)
  }

  /** All samples contributed by `exs`, in order. */
  function AllSamples(exs: seq<Exchange>): seq<real> {
    if |exs| == 0 then [] else SamplesOf(exs[0]) + AllSamples(exs[1..])
  }

  /** Every exchange is either a 200 response or not. */
  lemma {:induction false} CountSplit(exs: seq<Exchange>)
    ensures Count(exs, IsOk) + Count(exs, ex => !IsOk(ex)) == |exs|
  {
    if |exs| > 0 {
      CountSplit(exs[1..]);
    }
  }

  /** The samples list grows by one entry per exchange plus one more per
      failed body read. */
  lemma {:induction false} AllSamplesLength(exs: seq<Exchange>)
    ensures |AllSamples(exs)| == |exs| + Count(exs, BodyFailed)
  {
    if |exs| > 0 {
      AllSamplesLength(exs[1..]);
    }
  }

  /** After issuing `exs`, the request counter has grown by |exs|, the
      success counter by the number of 200 responses, the error counter by
      the number of non-200 outcomes plus the number of failed body reads,
      and the sample list by exactly the samples of `exs`. */
  lemma {:induction false} IssueAllTallies(st: RunState, exs: seq<Exchange>)
    ensures var s := IssueAll(st, exs);
            && s.requestCount == st.requestCount + |exs|
            && s.successCount == st.successCount + Count(exs, IsOk)
            && s.errorCount == st.errorCount + Count(exs, ex => !IsOk(ex)) + Count(exs, BodyFailed)
            && s.responseTimes == st.responseTimes + AllSamples(exs)
    decreases |exs|
  {
    if |exs| > 0 {
      IssueAllTallies(Issue(st, exs[0]), exs[1..]);
    }
  }

  /** `success + error == request_count == |response_times|`. */
  predicate Balanced(st: RunState) {
    st.successCount + st.errorCount == st.requestCount == |st.responseTimes|
  }

  /** Starting from a fresh tester, the counters balance after a sequence of
      requests exactly when no body read raised; each failed read puts both
      `success + error` and the sample count one above the request count. */
  lemma BalancedIffNoBodyFailure(exs: seq<Exchange>)
    ensures var s := IssueAll(Fresh, exs);
            && s.successCount + s.errorCount == s.requestCount + Count(exs, BodyFailed)
            && |s.responseTimes| == s.requestCount + Count(exs, BodyFailed)
            && (Balanced(s) <==> forall i :: 0 <= i < |exs| ==> !BodyFailed(exs[i]))
  {
    IssueAllTallies(Fresh, exs);
    CountSplit(exs);
    AllSamplesLength(exs);
    CountZeroIffNone(exs, BodyFailed);
  }

  /** A count is zero exactly when no element satisfies the predicate. */
  lemma {:induction false} CountZeroIffNone(exs: seq<Exchange>, p: Exchange -> bool)
    ensures Count(exs, p) == 0 <==> forall i :: 0 <= i < |exs| ==> !p(exs[i])
  {
    if |exs| > 0 {
      CountZeroIffNone(exs[1..], p);
      assert forall i :: 1 <= i < |exs| ==> exs[i] == exs[1..][i - 1];
    }
  }

  // The statistics block.

  /** The figures `print_stats` prints. */
  datatype Report = Report(
    total: nat,
    successful: nat,
    errors: nat,
    average: real,
    maxTime: real,
    minTime: real,
    perSecond: real)

  /** What a call to `print_stats` does: nothing when there are no samples,
      prints a block, or raises `ZeroDivisionError` because the time since
      the run started is 0 (the code has no guard for it). */
  datatype StatsOutput = Skipped | Printed(report: Report) | DivisionByZero

  /** `APITester.print_stats`, given `sinceStart`, the seconds between the
      start of the run and the call. It only reads the state. */
  function PrintStats(st: RunState, sinceStart: real): (r: StatsOutput)
    ensures r.Skipped? <==> |st.responseTimes| == 0
    ensures r.DivisionByZero? <==> |st.responseTimes| > 0 && sinceStart == 0.0
    ensures r.Printed? ==>
              && r.report.total == st.requestCount
              && r.report.successful == st.successCount
              && r.report.errors == st.errorCount
              && Samples.CarriesSum(r.report.average, st.responseTimes)
              && r.report.minTime <= r.report.average <= r.report.maxTime
              && r.report.minTime in st.responseTimes
              && r.report.maxTime in st.responseTimes
              && (forall i :: 0 <= i < |st.responseTimes| ==>
                    r.report.minTime <= st.responseTimes[i] <= r.report.maxTime)
              && r.report.perSecond * sinceStart == st.requestCount as real
  {
    var times := st.responseTimes;
    if |times| == 0 then Skipped
    else if sinceStart == 0.0 then DivisionByZero
    else
      Samples.MeanWithinRange(times);
      Samples.MeanTimesCount(times);
      Samples.DivideThenMultiply(st.requestCount as real, sinceStart);
      Printed(Report(st.requestCount, st.successCount, st.errorCount,
                     Samples.Mean(times), Samples.Max(times), Samples.Min(times),
                     st.requestCount as real / sinceStart))
  }
}
