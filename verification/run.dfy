/** `APITester.run` and the shutdown in `main`. The loop is a recursion over
    the exchanges the network supplies, one per iteration; running out of
    exchanges before the cap stops the loop is how an interruption between
    two requests is modelled. What the loop prints is recorded as a trace of
    events. */
module Run {
  import opened Tester

  /** Python truthiness of `max_requests`: `None` and `0` are both false. */
  predicate CapSet(cap: Option<int>) {
    cap.Some? && cap.value != 0
  }

  /** The loop's exit test, checked before each iteration. */
  predicate CapReached(cap: Option<int>, count: nat) {
    CapSet(cap) && count >= cap.value
  }

  /** What the loop prints: one line per request, and each call of
      `print_stats` together with the state it reads. */
  datatype Event =
    | RequestLine(ordinal: nat, result: RequestResult)
    | StatsCall(snapshot: RunState)

  datatype StopReason = Capped | Interrupted

  datatype LoopEnd = LoopEnd(state: RunState, trace: seq<Event>, reason: StopReason)

  /** The events one iteration prints after its request: the request line,
      then a statistics call when the counter is a multiple of 10. */
  function IterationEvents(st: RunState, res: RequestResult): seq<Event> {
    [RequestLine(st.requestCount, res)]
    + (if st.requestCount % 10 == 0 then [StatsCall(st)] else [])
  }

  /** The `while True` loop of `APITester.run`, from state `st`, with
      `pending` the exchanges the network will supply. Each iteration checks
      the cap, pre-increments the counter, makes the request, prints, and
      calls `print_stats` every 10 requests. */
  function Loop(cap: Option<int>, st: RunState, pending: seq<Exchange>): (r: LoopEnd)
    ensures st.requestCount <= r.state.requestCount <= st.requestCount + |pending|
    ensures r.reason == Capped <==> CapReached(cap, r.state.requestCount)
    ensures r.reason == Interrupted ==> r.state.requestCount == st.requestCount + |pending|
    decreases |pending|
  {
    if CapReached(cap, st.requestCount) then LoopEnd(st, [], Capped)
    else if |pending| == 0 then LoopEnd(st, [], Interrupted)
    else
      var step := MakeRequest(st.(requestCount := st.requestCount + 1), pending[0]);
      var rest := Loop(cap, step.state, pending[1..]);
      LoopEnd(rest.state, IterationEvents(step.state, step.result) + rest.trace, rest.reason)
  }

  /** Number of iterations a loop run made. */
  function Iterations(st: RunState, r: LoopEnd): int {
    r.state.requestCount - st.requestCount
  }

  /** The loop's final state is what issuing the consumed exchanges in order
      produces: the statistics calls change nothing. */
  lemma {:induction false} LoopStateIsIssueAll(cap: Option<int>, st: RunState, pending: seq<Exchange>)
    ensures var r := Loop(cap, st, pending);
            r.state == IssueAll(st, pending[..Iterations(st, r)])
    decreases |pending|
  {
    var r := Loop(cap, st, pending);
    if !CapReached(cap, st.requestCount) && |pending| > 0 {
      var s1 := Issue(st, pending[0]);
      LoopStateIsIssueAll(cap, s1, pending[1..]);
      var k := Iterations(s1, Loop(cap, s1, pending[1..]));
      assert pending[..k + 1] == [pending[0]] + pending[1..][..k];
    }
  }

  /** A positive cap n, starting at or below n with enough exchanges
      available, stops through the cap after exactly n requests in total. */
  lemma {:induction false} PositiveCapRunsExactly(n: int, st: RunState, pending: seq<Exchange>)
    requires 0 < n && st.requestCount <= n
    requires |pending| >= n - st.requestCount
    ensures var r := Loop(Some(n), st, pending);
            r.reason == Capped && r.state.requestCount == n
    decreases |pending|
  {
    if st.requestCount < n {
      PositiveCapRunsExactly(n, Issue(st, pending[0]), pending[1..]);
    }
  }

  /** With no cap, or a cap of 0, the guard never stops the loop: it runs
      until the exchanges run out. */
  lemma NoCapNeverStopsAtGuard(cap: Option<int>, st: RunState, pending: seq<Exchange>)
    requires cap == None || cap == Some(0)
    ensures var r := Loop(cap, st, pending);
            r.reason == Interrupted && Iterations(st, r) == |pending|
  {
  }

  /** A negative cap stops the loop before the first request, since the
      counter already exceeds it. */
  lemma NegativeCapRunsNothing(n: int, st: RunState, pending: seq<Exchange>)
    requires n < 0
    ensures Loop(Some(n), st, pending) == LoopEnd(st, [], Capped)
  {
  }

  // The printed trace.

  /** The ordinals of the request lines of a trace, in order. */
  function Ordinals(trace: seq<Event>): seq<nat> {
    if |trace| == 0 then []
    else (if trace[0].RequestLine? then [trace[0].ordinal] else []) + Ordinals(trace[1..])
  }

  /** The request counts seen by the statistics calls of a trace, in order. */
  function StatsCounts(trace: seq<Event>): seq<nat> {
    if |trace| == 0 then []
    else (if trace[0].StatsCall? then [trace[0].snapshot.requestCount] else []) + StatsCounts(trace[1..])
  }

  lemma {:induction false} OrdinalsAppend(a: seq<Event>, b: seq<Event>)
    ensures Ordinals(a + b) == Ordinals(a) + Ordinals(b)
  {
    if |a| > 0 {
      assert (a + b)[1..] == a[1..] + b;
      OrdinalsAppend(a[1..], b);
    } else {
      assert a + b == b;
    }
  }

  lemma {:induction false} StatsCountsAppend(a: seq<Event>, b: seq<Event>)
    ensures StatsCounts(a + b) == StatsCounts(a) + StatsCounts(b)
  {
    if |a| > 0 {
      assert (a + b)[1..] == a[1..] + b;
      StatsCountsAppend(a[1..], b);
    } else {
      assert a + b == b;
    }
  }

  /** One iteration prints one request line, numbered with the counter, and
      a statistics call iff the counter is a multiple of 10. */
  lemma IterationEventsShape(st: RunState, res: RequestResult)
    ensures Ordinals(IterationEvents(st, res)) == [st.requestCount]
    ensures StatsCounts(IterationEvents(st, res))
         == if st.requestCount % 10 == 0 then [st.requestCount] else []
  {
    var line: seq<Event> := [RequestLine(st.requestCount, res)];
    var stats: seq<Event> := if st.requestCount % 10 == 0 then [StatsCall(st)] else [];
    OrdinalsAppend(line, stats);
    StatsCountsAppend(line, stats);
    assert line[1..] == [];
    assert |stats| > 0 ==> stats[1..] == [];
  }

  /** The integers lo, lo+1, ..., hi-1. */
  function Span(lo: nat, hi: nat): seq<nat>
    decreases hi - lo
  {
    if lo >= hi then [] else [lo] + Span(lo + 1, hi)
  }

  /** The multiples of 10 among lo, ..., hi-1, in increasing order. */
  function TensIn(lo: nat, hi: nat): seq<nat>
    decreases hi - lo
  {
    if lo >= hi then [] else (if lo % 10 == 0 then [lo] else []) + TensIn(lo + 1, hi)
  }

  lemma {:induction false} TensInMembers(lo: nat, hi: nat, k: nat)
    ensures k in TensIn(lo, hi) <==> lo <= k < hi && k % 10 == 0
    decreases hi - lo
  {
    if lo < hi {
      TensInMembers(lo + 1, hi, k);
    }
  }

  /** A run of numbers that stays between two multiples of 10 has none. */
  lemma {:induction false} TensInGap(lo: nat, hi: nat)
    requires lo % 10 != 0 && hi <= lo + (10 - lo % 10)
    ensures TensIn(lo, hi) == []
    decreases hi - lo
  {
    if lo + 1 < hi {
      TensInGap(lo + 1, hi);
    }
  }

  /** TensIn over [lo, hi) splits at any mid point. */
  lemma {:induction false} TensInSplit(lo: nat, mid: nat, hi: nat)
    requires lo <= mid <= hi
    ensures TensIn(lo, hi) == TensIn(lo, mid) + TensIn(mid, hi)
    decreases mid - lo
  {
    if lo < mid {
      TensInSplit(lo + 1, mid, hi);
    }
  }

  /** The multiples of 10 among 1, ..., 10k are 10, 20, ..., 10k. */
  lemma {:induction false} TensUpTo(k: nat)
    ensures TensIn(1, 10 * k + 1) == seq(k, i requires 0 <= i < k => 10 * (i + 1))
  {
    if k > 0 {
      var prev, last := 10 * (k - 1) + 1, 10 * k;
      TensUpTo(k - 1);
      TensInSplit(1, prev, last + 1);
      TensInSplit(prev, last, last + 1);
      TensInGap(prev, last);
      assert TensIn(last, last + 1) == [last];
      assert seq(k, i requires 0 <= i < k => 10 * (i + 1))
          == seq(k - 1, i requires 0 <= i < k - 1 => 10 * (i + 1)) + [last];
    }
  }

  /** A loop run from request count c making k requests prints request
      lines numbered c+1, ..., c+k in order: each is the counter's value
      after its pre-increment. */
  lemma {:induction false} LoopOrdinals(cap: Option<int>, st: RunState, pending: seq<Exchange>)
    ensures var r := Loop(cap, st, pending);
            Ordinals(r.trace) == Span(st.requestCount + 1, r.state.requestCount + 1)
    decreases |pending|
  {
    if !CapReached(cap, st.requestCount) && |pending| > 0 {
      var step := MakeRequest(st.(requestCount := st.requestCount + 1), pending[0]);
      var rest := Loop(cap, step.state, pending[1..]);
      var ev := IterationEvents(step.state, step.result);
      assert Loop(cap, st, pending) == LoopEnd(rest.state, ev + rest.trace, rest.reason);
      LoopOrdinals(cap, step.state, pending[1..]);
      IterationEventsShape(step.state, step.result);
      OrdinalsAppend(ev, rest.trace);
    }
  }

  /** A loop run from request count c making k requests calls `print_stats`
      exactly after those of the requests c+1, ..., c+k whose number is a
      multiple of 10, in order. */
  lemma {:induction false} LoopStatsCounts(cap: Option<int>, st: RunState, pending: seq<Exchange>)
    ensures var r := Loop(cap, st, pending);
            StatsCounts(r.trace) == TensIn(st.requestCount + 1, r.state.requestCount + 1)
    decreases |pending|
  {
    if !CapReached(cap, st.requestCount) && |pending| > 0 {
      var step := MakeRequest(st.(requestCount := st.requestCount + 1), pending[0]);
      var rest := Loop(cap, step.state, pending[1..]);
      var ev := IterationEvents(step.state, step.result);
      assert Loop(cap, st, pending) == LoopEnd(rest.state, ev + rest.trace, rest.reason);
      LoopStatsCounts(cap, step.state, pending[1..]);
      IterationEventsShape(step.state, step.result);
      StatsCountsAppend(ev, rest.trace);
    }
  }

  /** A loop run from request count c making k requests prints request lines
      numbered c+1, ..., c+k in order and calls `print_stats` exactly after
      those requests whose number is a multiple of 10. */
  lemma LoopTrace(cap: Option<int>, st: RunState, pending: seq<Exchange>)
    ensures var r := Loop(cap, st, pending);
            && Ordinals(r.trace) == Span(st.requestCount + 1, r.state.requestCount + 1)
            && StatsCounts(r.trace) == TensIn(st.requestCount + 1, r.state.requestCount + 1)
  {
    LoopOrdinals(cap, st, pending);
    LoopStatsCounts(cap, st, pending);
  }

  /** A statistics call of a loop started at `st` sees exactly the state
      that issuing the first m exchanges produces, m being the number of
      requests made when it is called. */
  predicate SnapshotAfterRequests(st: RunState, pending: seq<Exchange>, e: Event) {
    e.StatsCall? ==>
      && st.requestCount < e.snapshot.requestCount <= st.requestCount + |pending|
      && e.snapshot == IssueAll(st, pending[..e.snapshot.requestCount - st.requestCount])
  }

  /** Every statistics call in `trace` sees the state after the requests
      made before it. */
  predicate SnapshotsAfterRequests(st: RunState, pending: seq<Exchange>, trace: seq<Event>) {
    forall j :: 0 <= j < |trace| ==> SnapshotAfterRequests(st, pending, trace[j])
  }

  /** Issuing the first m+1 exchanges is issuing the first one, then the
      next m. */
  lemma IssueAllPrefix(st: RunState, pending: seq<Exchange>, m: nat)
    requires m < |pending|
    ensures IssueAll(st, pending[..m + 1]) == IssueAll(Issue(st, pending[0]), pending[1..][..m])
  {
    assert pending[..m + 1][1..] == pending[1..][..m];
  }

  /** Every statistics call of the loop sees the state right after the
      request it follows, and nothing else: its counters and samples are
      those of the exchanges issued so far. */
  lemma {:induction false} LoopSnapshots(cap: Option<int>, st: RunState, pending: seq<Exchange>)
    ensures SnapshotsAfterRequests(st, pending, Loop(cap, st, pending).trace)
    decreases |pending|
  {
    if !CapReached(cap, st.requestCount) && |pending| > 0 {
      var step := MakeRequest(st.(requestCount := st.requestCount + 1), pending[0]);
      var s1 := step.state;
      var rest := Loop(cap, s1, pending[1..]);
      var ev := IterationEvents(s1, step.result);
      var trace := ev + rest.trace;
      assert Loop(cap, st, pending).trace == trace;
      LoopSnapshots(cap, s1, pending[1..]);
      assert SnapshotsAfterRequests(s1, pending[1..], rest.trace);
      assert s1 == IssueAll(st, pending[..1]) by {
        assert pending[..1][1..] == [];
      }
      forall j | 0 <= j < |trace|
        ensures SnapshotAfterRequests(st, pending, trace[j])
      {
        assert trace[j] == if j < |ev| then ev[j] else rest.trace[j - |ev|];
        if j >= |ev| {
          var e := rest.trace[j - |ev|];
          assert trace[j] == e;
          if e.StatsCall? {
            IssueAllPrefix(st, pending, e.snapshot.requestCount - s1.requestCount);
          }
        }
      }
    }
  }

  /** `k` is a statistics-call count of the loop iff it is one of the
      loop's request numbers and a multiple of 10. */
  lemma StatsEveryTenth(cap: Option<int>, st: RunState, pending: seq<Exchange>, k: nat)
    ensures var r := Loop(cap, st, pending);
            k in StatsCounts(r.trace)
            <==> st.requestCount < k <= r.state.requestCount && k % 10 == 0
  {
    var r := Loop(cap, st, pending);
    LoopTrace(cap, st, pending);
    TensInMembers(st.requestCount + 1, r.state.requestCount + 1, k);
  }

  // The whole program.

  datatype SessionEnd = SessionEnd(tester: Tester, state: RunState, trace: seq<Event>, reason: StopReason)

  /** `main`: construct the tester, run the loop, and -- in the `finally`,
      whether the cap was reached or the run was interrupted -- call
      `print_stats` once more. */
  function Session(baseUrl: string, interval: real, cap: Option<int>, pending: seq<Exchange>): (r: SessionEnd)
    ensures |r.trace| > 0 && r.trace[|r.trace| - 1] == StatsCall(r.state)
  {
    var t := Init(baseUrl, interval, cap);
    var e := Loop(t.config.maxRequests, t.state, pending);
    SessionEnd(t, e.state, e.trace + [StatsCall(e.state)], e.reason)
  }

  /** A session is the loop from a fresh state followed by the final call. */
  lemma SessionIsLoop(baseUrl: string, interval: real, cap: Option<int>, pending: seq<Exchange>)
    ensures var r := Session(baseUrl, interval, cap, pending);
            var e := Loop(cap, Fresh, pending);
            && r.state == e.state
            && r.reason == e.reason
            && r.trace == e.trace + [StatsCall(e.state)]
  {
  }

  /** Appending the final statistics call adds its count and no request line. */
  lemma FinalCall(trace: seq<Event>, st: RunState)
    ensures Ordinals(trace + [StatsCall(st)]) == Ordinals(trace)
    ensures StatsCounts(trace + [StatsCall(st)]) == StatsCounts(trace) + [st.requestCount]
  {
    var last: seq<Event> := [StatsCall(st)];
    OrdinalsAppend(trace, last);
    StatsCountsAppend(trace, last);
    assert last[1..] == [];
  }

  /** A whole session prints request lines numbered 1, ..., n, calls
      `print_stats` after each request whose number is a multiple of 10, and
      then exactly once more, for the final state. */
  lemma SessionTrace(baseUrl: string, interval: real, cap: Option<int>, pending: seq<Exchange>)
    ensures var r := Session(baseUrl, interval, cap, pending);
            && Ordinals(r.trace) == Span(1, r.state.requestCount + 1)
            && StatsCounts(r.trace) == TensIn(1, r.state.requestCount + 1) + [r.state.requestCount]
  {
    var e := Loop(cap, Fresh, pending);
    SessionIsLoop(baseUrl, interval, cap, pending);
    LoopTrace(cap, Fresh, pending);
    FinalCall(e.trace, e.state);
  }

  /** A whole session's counters are the tallies of the first n exchanges,
      n being the number of requests it made. */
  lemma SessionState(baseUrl: string, interval: real, cap: Option<int>, pending: seq<Exchange>)
    ensures var r := Session(baseUrl, interval, cap, pending);
            && r.state.requestCount <= |pending|
            && r.state == IssueAll(Fresh, pending[..r.state.requestCount])
  {
    SessionIsLoop(baseUrl, interval, cap, pending);
    LoopStateIsIssueAll(cap, Fresh, pending);
  }

  /** A session with a positive cap n and at least n exchanges available
      makes n requests and stops through the cap; its statistics calls are
      those after each multiple of 10 up to n, then the final one at n. */
  lemma CappedSessionStats(baseUrl: string, interval: real, n: int, pending: seq<Exchange>)
    requires 0 < n <= |pending|
    ensures var r := Session(baseUrl, interval, Some(n), pending);
            && r.reason == Capped
            && r.state.requestCount == n
            && StatsCounts(r.trace) == TensIn(1, n + 1) + [n]
  {
    SessionIsLoop(baseUrl, interval, Some(n), pending);
    PositiveCapRunsExactly(n, Fresh, pending);
    SessionTrace(baseUrl, interval, Some(n), pending);
  }

  /** The multiples of 10 among 1, ..., 25 are 10 and 20. */
  lemma TensUpToTwentyFive()
    ensures TensIn(1, 26) == [10, 20]
  {
    TensUpTo(2);
    assert seq(2, i requires 0 <= i < 2 => 10 * (i + 1)) == [10, 20];
    TensInSplit(1, 21, 26);
    TensInGap(21, 26);
  }

  /** The counters a session ends with are the tallies of the exchanges it
      consumed, and they balance exactly when no body read raised. */
  lemma SessionTallies(baseUrl: string, interval: real, cap: Option<int>, pending: seq<Exchange>)
    ensures var r := Session(baseUrl, interval, cap, pending);
            var done := pending[..r.state.requestCount];
            && r.state.successCount == Count(done, IsOk)
            && r.state.errorCount == Count(done, ex => !IsOk(ex)) + Count(done, BodyFailed)
            && r.state.responseTimes == AllSamples(done)
            && (Balanced(r.state) <==> forall i :: 0 <= i < |done| ==> !BodyFailed(done[i]))
  {
    var r := Session(baseUrl, interval, cap, pending);
    SessionState(baseUrl, interval, cap, pending);
    var done := pending[..r.state.requestCount];
    IssueAllTallies(Fresh, done);
    BalancedIffNoBodyFailure(done);
  }

  /** The final `print_stats` of a session prints nothing exactly when no
      request was made; otherwise it prints a block, unless no time has
      passed since the start, when it raises. */
  lemma FinalStatsSkippedIffNoRequest(baseUrl: string, interval: real, cap: Option<int>,
                                      pending: seq<Exchange>, sinceStart: real)
    ensures var r := Session(baseUrl, interval, cap, pending);
            var out := PrintStats(r.state, sinceStart);
            && (out.Skipped? <==> r.state.requestCount == 0)
            && (r.state.requestCount > 0 && sinceStart != 0.0 ==> out.Printed?)
  {
    var r := Session(baseUrl, interval, cap, pending);
    SessionState(baseUrl, interval, cap, pending);
    BalancedIffNoBodyFailure(pending[..r.state.requestCount]);
  }

  /** With a cap of 25 and enough exchanges, statistics are printed after
      requests 10 and 20 and once more at the end, at 25. */
  lemma CapTwentyFive(baseUrl: string, interval: real, pending: seq<Exchange>)
    requires |pending| >= 25
    ensures StatsCounts(Session(baseUrl, interval, Some(25), pending).trace) == [10, 20, 25]
  {
    CappedSessionStats(baseUrl, interval, 25, pending);
    TensUpToTwentyFive();
  }

  /** With a cap of 10, the block at request 10 is followed by the final
      block, both at count 10. */
  lemma CapTenPrintsTwice(baseUrl: string, interval: real, pending: seq<Exchange>)
    requires |pending| >= 10
    ensures StatsCounts(Session(baseUrl, interval, Some(10), pending).trace) == [10, 10]
  {
    CappedSessionStats(baseUrl, interval, 10, pending);
    TensUpTo(1);
  }

  /** The loop part of `UncappedSessionStats`, from a fresh state. */
  lemma UncappedLoopStats(cap: Option<int>, pending: seq<Exchange>)
    requires cap == None || cap == Some(0)
    ensures var e := Loop(cap, Fresh, pending);
            && e.reason == Interrupted
            && e.state.requestCount == |pending|
            && StatsCounts(e.trace + [StatsCall(e.state)]) == TensIn(1, |pending| + 1) + [|pending|]
  {
    var e := Loop(cap, Fresh, pending);
    NoCapNeverStopsAtGuard(cap, Fresh, pending);
    LoopStatsCounts(cap, Fresh, pending);
    FinalCall(e.trace, e.state);
  }

  /** Without a cap, or with a cap of 0, a session issues every exchange
      supplied and ends by interruption; its statistics calls are those
      after each multiple of 10, then the final one. */
  lemma UncappedSessionStats(baseUrl: string, interval: real, cap: Option<int>, pending: seq<Exchange>)
    requires cap == None || cap == Some(0)
    ensures var r := Session(baseUrl, interval, cap, pending);
            && r.reason == Interrupted
            && r.state.requestCount == |pending|
            && StatsCounts(r.trace) == TensIn(1, |pending| + 1) + [|pending|]
  {
    SessionIsLoop(baseUrl, interval, cap, pending);
    UncappedLoopStats(cap, pending);
  }

  /** Interrupting an unbounded run after 5 requests leaves exactly one
      statistics call, the final one, covering those 5 requests. */
  lemma InterruptedAfterFive(baseUrl: string, interval: real, pending: seq<Exchange>)
    requires |pending| == 5
    ensures var r := Session(baseUrl, interval, None, pending);
            StatsCounts(r.trace) == [5] && r.state.requestCount == 5
  {
    UncappedSessionStats(baseUrl, interval, None, pending);
    TensInGap(1, 6);
  }
}
