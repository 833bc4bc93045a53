/**
 * The rate limit over a run of RequestOTP calls for one phone. The count is
 * taken before the attempt is recorded and compared with a strict `>`, and
 * rejected attempts are recorded too: within one window, calls 1 to
 * RateLimit + 1 get past the check and every later call is rejected.
 */
module RateLimitRuns {
  import opened Common
  import opened Models
  import opened OtpRepo
  import opened Auth

  /** The results of a run of calls and the repository contents after it. */
  datatype Run = Run(errs: seq<Option<Error>>, cache: map<string, CacheEntry>, ledger: seq<OtpRequest>)

  /** RequestOTP for `phone` at each of `times`, in order, the i-th call seeing `faults[i]`. */
  function RunRequests(cache: map<string, CacheEntry>, ledger: seq<OtpRequest>, phone: string,
                       times: seq<int>, faults: seq<RequestFaults>): Run
    requires |times| == |faults|
  {
    if times == [] then Run([], cache, ledger)
    else
      var n := |times| - 1;
      var prev := RunRequests(cache, ledger, phone, times[..n], faults[..n]);
      var step := RequestStep(prev.cache, prev.ledger, phone, times[n], faults[n]);
      Run(prev.errs + [step.err], step.cache, step.ledger)
  }

  /** The rows a run of calls at `times` with results `errs` appends: one per call, successful when the call succeeded. */
  function Rows(phone: string, times: seq<int>, errs: seq<Option<Error>>): (rows: seq<OtpRequest>)
    requires |times| == |errs|
    ensures |rows| == |times|
  {
    if times == [] then []
    else
      var n := |times| - 1;
      Rows(phone, times[..n], errs[..n]) + [OtpRequest(phone, times[n], errs[n].None?)]
  }

  predicate NonDecreasing(times: seq<int>)
  {
    forall i, j :: 0 <= i <= j < |times| ==> times[i] <= times[j]
  }

  /** The calls before the last of a burst form a burst too, and all of them lie in the last call's window. */
  lemma PrefixInWindow(times: seq<int>)
    requires |times| > 0 && NonDecreasing(times)
    requires times[|times| - 1] - RateWindow <= times[0]
    ensures var n := |times| - 1;
            && NonDecreasing(times[..n])
            && (n > 0 ==> times[..n][n - 1] - RateWindow <= times[..n][0])
            && forall i :: 0 <= i < n ==> times[..n][i] >= times[n] - RateWindow
  {
  }

  /** Rows of calls made no earlier than `since` are each counted once. */
  lemma {:induction false} CountRows(phone: string, times: seq<int>, errs: seq<Option<Error>>, since: int)
    requires |times| == |errs|
    requires forall i :: 0 <= i < |times| ==> times[i] >= since
    ensures CountSince(Rows(phone, times, errs), phone, since) == |times|
  {
    if times != [] {
      var n := |times| - 1;
      var rows := Rows(phone, times, errs);
      CountRows(phone, times[..n], errs[..n], since);
      assert rows[..n] == Rows(phone, times[..n], errs[..n]);
    }
  }

  /** The rate-limit error of one call is decided by the count it sees. */
  lemma RejectedIffOverLimit(cache: map<string, CacheEntry>, ledger: seq<OtpRequest>, phone: string, now: int, f: RequestFaults)
    requires f.countFault.None?
    ensures RequestStep(cache, ledger, phone, now, f).err == Some(RateLimitExceeded)
            <==> CountSince(ledger, phone, now - RateWindow) > RateLimit
  {
  }

  /** One more call extends a run by that call's result and state. */
  lemma RunSnoc(cache: map<string, CacheEntry>, ledger: seq<OtpRequest>, phone: string,
                times: seq<int>, faults: seq<RequestFaults>)
    requires |times| == |faults| > 0
    ensures var n := |times| - 1;
            var prev := RunRequests(cache, ledger, phone, times[..n], faults[..n]);
            var step := RequestStep(prev.cache, prev.ledger, phone, times[n], faults[n]);
            RunRequests(cache, ledger, phone, times, faults) == Run(prev.errs + [step.err], step.cache, step.ledger)
  {
  }

  /** The rows of a run end with the row of its last call. */
  lemma RowsSnoc(phone: string, times: seq<int>, errs: seq<Option<Error>>, err: Option<Error>)
    requires |times| == |errs| + 1
    ensures Rows(phone, times, errs + [err])
         == Rows(phone, times[..|errs|], errs) + [OtpRequest(phone, times[|errs|], err.None?)]
  {
    assert (errs + [err])[..|errs|] == errs;
  }

  /** A run appends its rows to the ledger, after the ledger it started from. */
  lemma {:induction false} RunAppendsRows(cache: map<string, CacheEntry>, ledger: seq<OtpRequest>, phone: string,
                                          times: seq<int>, faults: seq<RequestFaults>)
    requires |times| == |faults|
    requires forall i :: 0 <= i < |faults| ==> faults[i].countFault.None? && faults[i].recordFault.None?
    ensures var r := RunRequests(cache, ledger, phone, times, faults);
            |r.errs| == |times| && r.ledger == ledger + Rows(phone, times, r.errs)
  {
    if times != [] {
      var n := |times| - 1;
      assert faults[n].countFault.None? && faults[n].recordFault.None?;
      RunAppendsRows(cache, ledger, phone, times[..n], faults[..n]);
      var prev := RunRequests(cache, ledger, phone, times[..n], faults[..n]);
      OneRecordPerAttempt(prev.cache, prev.ledger, phone, times[n], faults[n]);
      var step := RequestStep(prev.cache, prev.ledger, phone, times[n], faults[n]);
      RunSnoc(cache, ledger, phone, times, faults);
      RowsSnoc(phone, times, prev.errs, step.err);
      var row := OtpRequest(phone, times[n], step.err.None?);
      calc {
        step.ledger;
        prev.ledger + [row];
        ledger + Rows(phone, times[..n], prev.errs) + [row];
        ledger + (Rows(phone, times[..n], prev.errs) + [row]);
      }
    }
  }

  /** In a burst, the last call sees exactly the attempts of the calls before it. */
  lemma CountBeforeLast(ledger: seq<OtpRequest>, phone: string, times: seq<int>, errs: seq<Option<Error>>)
    requires |times| == |errs| + 1
    requires NonDecreasing(times)
    requires times[|times| - 1] - RateWindow <= times[0]
    requires CountSince(ledger, phone, times[0] - RateWindow) == 0
    ensures var n := |times| - 1;
            CountSince(ledger + Rows(phone, times[..n], errs), phone, times[n] - RateWindow) == n
  {
    var n := |times| - 1;
    PrefixInWindow(times);
    var rows := Rows(phone, times[..n], errs);
    var since := times[n] - RateWindow;
    assert times[0] <= times[n];
    CountsGrowWithWindow(ledger, phone, since, times[0] - RateWindow);
    assert CountSince(ledger, phone, since) == 0;
    CountRows(phone, times[..n], errs, since);
    assert CountSince(rows, phone, since) == n;
    CountConcat(ledger, rows, phone, since);
  }

  /** In a burst, the last call is rejected by the rate limit exactly when more than RateLimit calls came before it. */
  lemma LastCallVerdict(cache: map<string, CacheEntry>, ledger: seq<OtpRequest>, phone: string,
                        times: seq<int>, errs: seq<Option<Error>>, f: RequestFaults)
    requires |times| == |errs| + 1
    requires f.countFault.None?
    requires NonDecreasing(times)
    requires times[|times| - 1] - RateWindow <= times[0]
    requires CountSince(ledger, phone, times[0] - RateWindow) == 0
    ensures var n := |times| - 1;
            RequestStep(cache, ledger + Rows(phone, times[..n], errs), phone, times[n], f).err == Some(RateLimitExceeded)
            <==> n > RateLimit
  {
    var n := |times| - 1;
    var seen := ledger + Rows(phone, times[..n], errs);
    CountBeforeLast(ledger, phone, times, errs);
    RejectedIffOverLimit(cache, seen, phone, times[n], f);
  }

  /**
   * A burst of calls for one phone, all within one rate window, starting with
   * no attempts of that phone in the window, and with the ledger reachable
   * throughout (RunAppendsRows: every call appends one row): call j (counting from 0) is
   * rejected by the rate limit exactly when j > RateLimit, i.e. calls 1-4
   * pass the check and calls 5, 6, ... are rejected.
   */
  lemma {:induction false} RateLimitBurst(cache: map<string, CacheEntry>, ledger: seq<OtpRequest>, phone: string,
                                          times: seq<int>, faults: seq<RequestFaults>)
    requires |times| == |faults|
    requires forall i :: 0 <= i < |faults| ==> faults[i].countFault.None? && faults[i].recordFault.None?
    requires NonDecreasing(times)
    requires |times| > 0 ==> times[|times| - 1] - RateWindow <= times[0]
    requires |times| > 0 ==> CountSince(ledger, phone, times[0] - RateWindow) == 0
    ensures var errs := RunRequests(cache, ledger, phone, times, faults).errs;
            && |errs| == |times|
            && forall j :: 0 <= j < |times| ==> (errs[j] == Some(RateLimitExceeded) <==> j > RateLimit)
  {
    if times != [] {
      var n := |times| - 1;
      PrefixInWindow(times);
      RateLimitBurst(cache, ledger, phone, times[..n], faults[..n]);
      var prev := RunRequests(cache, ledger, phone, times[..n], faults[..n]);
      RunAppendsRows(cache, ledger, phone, times[..n], faults[..n]);
      assert faults[n].countFault.None?;
      LastCallVerdict(prev.cache, ledger, phone, times, prev.errs, faults[n]);
      RunSnoc(cache, ledger, phone, times, faults);
      var errs := RunRequests(cache, ledger, phone, times, faults).errs;
      forall j | 0 <= j < |times|
        ensures errs[j] == Some(RateLimitExceeded) <==> j > RateLimit
      {
        if j < n {
          assert errs[j] == prev.errs[j];
        }
      }
    }
  }

  /** Every attempt of a burst is in the ledger: the phone's count over the window grows by the number of calls. */
  lemma EveryAttemptRecorded(cache: map<string, CacheEntry>, ledger: seq<OtpRequest>, phone: string,
                             times: seq<int>, faults: seq<RequestFaults>)
    requires |times| == |faults| > 0
    requires forall i :: 0 <= i < |faults| ==> faults[i].countFault.None? && faults[i].recordFault.None?
    requires NonDecreasing(times)
    ensures var r := RunRequests(cache, ledger, phone, times, faults);
            CountSince(r.ledger, phone, times[0]) == CountSince(ledger, phone, times[0]) + |times|
  {
    var r := RunRequests(cache, ledger, phone, times, faults);
    RunAppendsRows(cache, ledger, phone, times, faults);
    CountRows(phone, times, r.errs, times[0]);
    CountConcat(ledger, Rows(phone, times, r.errs), phone, times[0]);
  }
}
