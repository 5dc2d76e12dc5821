# API tester bookkeeping, in Dafny

A model of `APITester` from `api_tester.py`, a command-line tool that sends
an HTTP GET to `<base>/api/jokes/whatever` once per interval, counts
successes and errors, records every elapsed time, and prints a statistics
block every 10 requests and once more at shutdown.

The network, the clock and the console are abstracted away:

- what the network did for one request is an `Exchange`: a response with a
  status, an elapsed time and a body read that either succeeded or raised
  (`json()` on a 200, `text()` otherwise), or a transport failure before any
  response;
- the run loop is a recursion over the sequence of exchanges the network
  supplies; when that sequence runs out before the cap stops the loop, the
  run was interrupted between two requests;
- what the loop prints is a trace of events: one `RequestLine` per request
  and one `StatsCall` per call of `print_stats`, carrying the state it reads;
- `print_stats` itself is a pure function of the state and of the seconds
  since the run started.

Files and modules:

- `url.dfy` (`Url`): the `rstrip('/')` normalisation and the request URL.
- `samples.dfy` (`Samples`): sum, mean, max and min of the samples.
- `tester.dfy` (`Tester`): configuration, counters, `make_request`,
  reference tallies over a sequence of exchanges, `print_stats`.
- `run.dfy` (`Run`): the `run` loop, the printed trace, and `main`'s
  final `print_stats`.

Three behaviours of the code are easy to misread, and the model keeps them
as written:

- The cap test on `api_tester.py:96` uses Python truthiness: a cap of 0 is
  falsy, so it means "no cap", not "no requests"; a negative cap stops the
  loop before its first request.
- In `make_request` (`api_tester.py:35-54`) the sample and the success or
  error count are recorded before the body is read, and the `except` branch
  records them again when that read raises. A 200 response whose body fails
  to decode therefore counts as a success and as an error, with two samples,
  so `success + error == request_count == len(response_times)` breaks; a
  non-200 response whose `text()` raises gives two errors and two samples.
- The throughput division on `api_tester.py:72` has no guard: a call with
  samples at elapsed time 0 raises `ZeroDivisionError`.

## Model

| member | source | states |
|---|---|---|
| Url.StripTrailingSlashes | api_tester.py:20 | The stored base URL is a prefix of the input, everything cut off is '/', and it does not end in '/'. |
| Url.StripIsMaximal | api_tester.py:20 | Those three properties determine the stripped URL uniquely: only the maximal trailing run of '/' is removed. |
| Url.StripIdempotent | api_tester.py:20 | Stripping an already stripped URL changes nothing. |
| Url.StripIgnoresExtraSlashes | api_tester.py:20 | Appending more '/' characters to the input gives the same base URL. |
| Url.RequestUrlJoinsOnce | api_tester.py:33 | The requested URL is the stripped base followed by `/api/jokes/whatever`, and the character before the endpoint's '/' is never '/'. |
| Tester.Init | api_tester.py:12-27 | After construction the base URL has no trailing '/' and differs from the input only by a removed run of '/', the interval and cap are kept, every counter is 0 and the sample list is empty. |
| Tester.RequestUrlOfInit | api_tester.py:20-33 | For any input URL the tester requests the stripped input plus the endpoint path with a single '/' at the join, whatever trailing slashes the input had. |
| Tester.MakeRequest | api_tester.py:29-60 | The request counter is untouched; a 200 with a decoded body adds one success and one sample; a non-200 with a readable body adds one error and one sample and shows the status; a 200 whose body fails to decode adds one success, one error and two samples and shows "ERROR"; a transport failure adds one error and one sample and shows "ERROR". |
| Tester.IssueAllTallies | api_tester.py:32-54 | After any sequence of requests, the request count grew by their number, successes by the number of 200 responses, errors by the non-200 outcomes plus the failed body reads, and the sample list by exactly their samples in order. |
| Tester.BalancedIffNoBodyFailure | api_tester.py:35-54 | From a fresh tester, `success + error` and the sample count exceed the request count by the number of failed body reads, so the balance invariant holds iff no body read raised. |
| Tester.PrintStats | api_tester.py:62-82 | Nothing is printed iff there are no samples; with samples and zero elapsed time it raises; otherwise it reports the counters unchanged, an average that times the number of samples gives their sum, min and max that are samples bounding all samples, min <= average <= max, and a throughput that times the elapsed time gives the request count. |
| Samples.Max | api_tester.py:68 | The maximum is one of the samples and no sample exceeds it. |
| Samples.Min | api_tester.py:69 | The minimum is one of the samples and no sample is below it. |
| Samples.SumBounds | api_tester.py:67 | A sum of n samples within [lo, hi] lies within [n*lo, n*hi]. |
| Samples.MeanWithinRange | api_tester.py:67-69 | The average lies between the minimum and the maximum. |
| Samples.MeanTimesCount | api_tester.py:67 | The average times the number of samples is their sum. |
| Run.Loop | api_tester.py:95-112 | The loop makes at most one request per supplied exchange; it stops through the cap exactly when the cap is truthy and reached, and otherwise only after every exchange has been used. |
| Run.LoopStateIsIssueAll | api_tester.py:99-110 | The loop's final state is the result of issuing the consumed exchanges in order: the statistics calls change no counter. |
| Run.PositiveCapRunsExactly | api_tester.py:96-99 | With a positive cap n and enough exchanges, the loop stops through the cap with exactly n requests made. |
| Run.NoCapNeverStopsAtGuard | api_tester.py:96 | With no cap or a cap of 0, the guard never stops the loop; it makes one request per supplied exchange. |
| Run.NegativeCapRunsNothing | api_tester.py:96-97 | A negative cap stops the loop before its first request, leaving the state unchanged. |
| Run.IterationEventsShape | api_tester.py:107-110 | One iteration prints one request line numbered with the counter and a statistics call iff the counter is a multiple of 10. |
| Run.LoopTrace | api_tester.py:99-110 | A loop from count c making k requests prints request lines c+1, ..., c+k in order (the counter after its pre-increment) and calls `print_stats` exactly after the requests whose number is a multiple of 10. |
| Run.LoopOrdinals | api_tester.py:99-107 | A loop from count c making k requests prints request lines c+1, ..., c+k in order. |
| Run.LoopStatsCounts | api_tester.py:99-110 | A loop from count c making k requests calls `print_stats` after exactly those of the requests c+1, ..., c+k whose number is a multiple of 10, in order. |
| Run.LoopSnapshots | api_tester.py:99-110 | Every `print_stats` call inside the loop reads the state produced by issuing exactly the exchanges consumed so far, and at least one of them. |
| Run.StatsEveryTenth | api_tester.py:109-110 | A statistics call is made at count k iff k is one of the loop's request numbers and k is a multiple of 10. |
| Run.Session | api_tester.py:125-132 | Whatever the exit path, the last thing a session does is one `print_stats` call on the final state. |
| Run.SessionTrace | api_tester.py:127-132 | A session prints request lines 1, ..., n and calls `print_stats` after each multiple of 10 up to n, then exactly once more at n. |
| Run.SessionState | api_tester.py:125-128 | A session's final state is the effect of its first n exchanges on a fresh tester, n being the requests made. |
| Run.SessionTallies | api_tester.py:32-54 | A session's counters are the tallies of the exchanges it consumed, and they balance iff none of them had a failing body read. |
| Run.FinalStatsSkippedIffNoRequest | api_tester.py:64-65 | The final `print_stats` prints nothing iff no request was made, and prints a block whenever requests were made and time has passed. |
| Run.CappedSessionStats | api_tester.py:95-132 | A session with positive cap n and enough exchanges makes n requests, stops through the cap, and calls `print_stats` after each multiple of 10 up to n and once more at n. |
| Run.UncappedLoopStats | api_tester.py:96-110 | From a fresh tester without a cap or with a cap of 0, the loop consumes every exchange, ends by interruption, and calls `print_stats` after each multiple of 10. |
| Run.UncappedSessionStats | api_tester.py:96 | A session without a cap or with a cap of 0 makes one request per supplied exchange and ends by interruption, with statistics calls after each multiple of 10 and once at the end. |
| Run.CapTwentyFive | api_tester.py:109-132 | With a cap of 25, statistics are printed at counts 10, 20 and 25. |
| Run.CapTenPrintsTwice | api_tester.py:109-132 | With a cap of 10, statistics are printed twice, both at count 10. |
| Run.InterruptedAfterFive | api_tester.py:127-132 | An unbounded run interrupted after 5 requests prints one statistics block, the final one, at count 5. |

## Left out

- The aiohttp session, the HTTP GET, and the bodies returned by `response.json()` and `response.text()`: only whether the body read raised is modelled.
- `time.time()`: elapsed times arrive with each exchange, and the seconds since the run started are an argument of `PrintStats`.
- `asyncio.sleep(interval)`: pacing changes no state; the interval is kept in the configuration only.
- All console output: the banner, the per-request line's formatting and timestamp, and the number formatting of the statistics block. The trace records which lines are printed, not their text.
- Floating-point rounding: elapsed times, sums and averages are reals.
- Samples.MeanWithinRange: min <= average <= max is proved over reals; Python computes the average with float rounding, so for three samples of 0.1 the computed sum is 0.30000000000000004 and the average exceeds the maximum by one unit in the last place. The same caveat applies to the average and throughput equalities of Tester.PrintStats.
- argparse in `main`: the session takes the URL, interval and cap directly.
- Interruption in the middle of a request (after the pre-increment, while waiting for the response or reading the body) is not modelled; an interruption stops the loop between iterations, after which the final `print_stats` still runs.
- Run.Loop: a `ZeroDivisionError` raised by an intermediate `print_stats` call would end the run; the loop's trace records the call but does not evaluate it against a clock, so that exit path is not modelled.
- Failure to open the HTTP session at startup, which happens before any statistics exist.
