/**
 * GET /otp/stats: the number of OTP attempts a phone number made in the last
 * `hours` hours (24 by default), how many of them succeeded, how many failed,
 * and the success rate in percent.
 */
module OtpStats {
  import opened Common
  import opened GoStrings
  import opened Models
  import opened OtpRepo
  import opened AuthHandlers

  /** The value DefaultQuery("hours", "24") gives when the parameter is absent. */
  const DefaultHours: string := "24"

  /** The largest number of hours whose duration fits in a time.Duration (int64 nanoseconds). */
  const MaxLookbackHours: int := MaxInt64 / Hour

  /** The handler's answers; `since` is in nanoseconds, like the clock. */
  datatype StatsResponse =
    | BadRequest(error: string)
    | ServerError(error: string)
    | Stats(phoneNumber: string, hoursLookedBack: int, totalRequests: nat, successfulRequests: nat,
            failedRequests: int, successRate: real, since: int)

  /**
   * The `hours` query parameter read by strconv.Atoi, after defaulting to
   * "24" when absent; it must be a positive integer.
   */
  function ParseHours(hoursParam: Option<string>): (r: Option<int>)
    ensures hoursParam.None? ==> r == Some(24)
    ensures hoursParam.Some? ==>
      (r.Some? <==> Atoi(hoursParam.value).Some? && Atoi(hoursParam.value).value > 0)
    ensures hoursParam.Some? && r.Some? ==> r.value == Atoi(hoursParam.value).value
    ensures r.Some? ==> 0 < r.value <= MaxInt64
  {
    var text := if hoursParam.Some? then hoursParam.value else DefaultHours;
    assert hoursParam.None? ==> Atoi(text) == Some(24) by {
      if hoursParam.None? {
        assert DigitsValue("2") == 2;
        assert DigitsValue("24") == 24 by { assert "24"[..1] == "2"; }
      }
    }
    var n := Atoi(text);
    if n.None? || n.value <= 0 then None else n
  }

  /** Positive decimal numbers are read back as themselves. */
  lemma ParseHoursOfDecimal(hours: nat)
    requires 0 < hours <= MaxInt64
    ensures ParseHours(Some(Decimal(hours))) == Some(hours)
  {
    AtoiOfDecimal(hours);
  }

  /** Only a positive integer is accepted: zero, negatives and non-numbers are rejected. */
  lemma ParseHoursRejects(text: string)
    requires Atoi(text).None? || Atoi(text).value <= 0
    ensures ParseHours(Some(text)) == None
  {
  }

  /**
   * The start of the window as the handler computes it:
   * now.Add(-time.Duration(hours) * time.Hour), where the product is an int64
   * multiplication that wraps around.
   */
  function WindowStartAsWritten(now: int, hours: int): (since: int)
    requires 0 < hours <= MaxInt64
    ensures MinInt64 <= since - now <= MaxInt64
    ensures (since - (now - hours * Hour)) % TwoTo64 == 0
  {
    var offset := WrapInt64(-hours * Hour);
    assert now + offset - (now - hours * Hour) == offset - (-hours * Hour);
    now + offset
  }

  /** The window start the handler means: `hours` hours before now. */
  function WindowStart(now: int, hours: int): (since: int)
    requires hours > 0
    ensures since < now
    ensures since + hours * Hour == now
  {
    now - hours * Hour
  }

  /** Up to MaxLookbackHours the product fits in int64 and the two window starts coincide. */
  lemma WindowStartAgrees(now: int, hours: int)
    requires 0 < hours <= MaxLookbackHours
    ensures WindowStartAsWritten(now, hours) == WindowStart(now, hours)
  {
    assert hours * Hour <= MaxLookbackHours * Hour <= MaxInt64;
  }

  /**
   * One hour past the bound the product wraps around to a positive duration:
   * the window starts some 292 years after `now`.
   */
  lemma WindowStartOverflows(now: int)
    ensures WindowStartAsWritten(now, MaxLookbackHours + 1) > now
    ensures WindowStart(now, MaxLookbackHours + 1) < now
  {
    assert MaxLookbackHours + 1 == 2562048;
    assert -2562048 * Hour == -9223372800000000000;
    assert WrapInt64(-9223372800000000000) == 9223371273709551616;
  }

  /**
   * The consequence for the statistics: with hours = 2562048 an attempt made
   * one hour ago is missed by the as-written window and caught by the intended one.
   */
  lemma OverflowedWindowMissesRecentAttempt(phone: string, now: int)
    ensures var ledger := [OtpRequest(phone, now - Hour, true)];
            && CountSince(ledger, phone, WindowStartAsWritten(now, MaxLookbackHours + 1)) == 0
            && CountSince(ledger, phone, WindowStart(now, MaxLookbackHours + 1)) == 1
  {
    WindowStartOverflows(now);
    var ledger := [OtpRequest(phone, now - Hour, true)];
    assert ledger[..0] == [];
  }

  /** A longer look-back starts earlier, so neither count can shrink. */
  lemma LongerLookbackCountsMore(ledger: seq<OtpRequest>, phone: string, now: int, hours: int, more: int)
    requires 0 < hours <= more
    ensures CountSince(ledger, phone, WindowStart(now, hours)) <= CountSince(ledger, phone, WindowStart(now, more))
    ensures CountSuccessfulSince(ledger, phone, WindowStart(now, hours)) <= CountSuccessfulSince(ledger, phone, WindowStart(now, more))
  {
    assert hours * Hour <= more * Hour;
    CountsGrowWithWindow(ledger, phone, WindowStart(now, hours), WindowStart(now, more));
  }

  /** The success rate in percent: 0 with no attempts, otherwise successful / total * 100. */
  function SuccessRate(successful: nat, total: nat): (rate: real)
    requires successful <= total
    ensures 0.0 <= rate <= 100.0
    ensures total == 0 ==> rate == 0.0
    ensures total > 0 ==> rate * (total as real) == (successful as real) * 100.0
    ensures total > 0 ==> (rate == 100.0 <==> successful == total)
  {
    if total == 0 then 0.0
    else
      assert (successful as real) / (total as real) <= 1.0;
      (successful as real) / (total as real) * 100.0
  }

  /** The handler object: it holds the OTP repository it queries. */
  class OTPStatsHandler {
    const otpRepo: OtpRepository

    constructor (otpRepo: OtpRepository)
      ensures this.otpRepo == otpRepo
    {
      this.otpRepo := otpRepo;
    }

    /**
     * The counting half of the handler, once the phone is normalised, the
     * hours are parsed and the window start is computed: query both counts
     * from `since` on and derive the failed count and the success rate.
     */
    function Report(phone: string, hours: int, since: int, totalFault: Option<string>, successFault: Option<string>): (r: StatsResponse)
      reads otpRepo
      ensures r == ServerError("Failed to get request count") <==> totalFault.Some?
      ensures r == ServerError("Failed to get successful request count") <==> totalFault.None? && successFault.Some?
      ensures r.Stats? <==> totalFault.None? && successFault.None?
      ensures r.Stats? ==>
        && r.phoneNumber == phone && r.hoursLookedBack == hours && r.since == since
        && r.totalRequests == CountSince(otpRepo.ledger, phone, since)
        && r.successfulRequests == CountSuccessfulSince(otpRepo.ledger, phone, since)
        && 0 <= r.failedRequests == r.totalRequests - r.successfulRequests
        && r.successRate == SuccessRate(r.successfulRequests, r.totalRequests)
    {
      var total := otpRepo.GetRequestCount(phone, since, totalFault);
      if total.Failure? then ServerError("Failed to get request count")
      else
        var successful := otpRepo.GetSuccessfulRequestCount(phone, since, successFault);
        if successful.Failure? then ServerError("Failed to get successful request count")
        else
          Stats(phone, hours, total.value, successful.value, total.value - successful.value,
                SuccessRate(successful.value, total.value), since)
    }

    /**
     * GET /otp/stats?phone=...&hours=...: validate the parameters, normalise
     * the phone, compute the window start as the handler does (with the
     * wrapping int64 product) and report the counts from there on.
     */
    function GetOTPStats(phoneParam: string, hoursParam: Option<string>, now: int,
                         totalFault: Option<string>, successFault: Option<string>): (r: StatsResponse)
      reads otpRepo
      ensures r == BadRequest("Phone number is required") <==> TrimSpace(phoneParam) == ""
      ensures r == BadRequest("Invalid hours parameter") <==> TrimSpace(phoneParam) != "" && ParseHours(hoursParam).None?
      ensures r == ServerError("Failed to get request count") <==>
        TrimSpace(phoneParam) != "" && ParseHours(hoursParam).Some? && totalFault.Some?
      ensures r == ServerError("Failed to get successful request count") <==>
        TrimSpace(phoneParam) != "" && ParseHours(hoursParam).Some? && totalFault.None? && successFault.Some?
      ensures r.Stats? <==>
        TrimSpace(phoneParam) != "" && ParseHours(hoursParam).Some? && totalFault.None? && successFault.None?
      ensures r.Stats? ==>
        && r.phoneNumber == NormalizePhoneNumber(phoneParam)
        && r.hoursLookedBack == ParseHours(hoursParam).value
        && r.since == WindowStartAsWritten(now, r.hoursLookedBack)
        && (r.hoursLookedBack <= MaxLookbackHours ==> r.since == WindowStart(now, r.hoursLookedBack))
        && r.totalRequests == CountSince(otpRepo.ledger, r.phoneNumber, r.since)
        && r.successfulRequests == CountSuccessfulSince(otpRepo.ledger, r.phoneNumber, r.since)
        && 0 <= r.failedRequests == r.totalRequests - r.successfulRequests
        && r.successRate == SuccessRate(r.successfulRequests, r.totalRequests)
    {
      var trimmed := TrimSpace(phoneParam);
      if trimmed == "" then BadRequest("Phone number is required")
      else
        var phone := if HasPlusPrefix(trimmed) then trimmed else "+" + trimmed;
        var hours := ParseHours(hoursParam);
        if hours.None? then BadRequest("Invalid hours parameter")
        else
          var since := WindowStartAsWritten(now, hours.value);
          assert hours.value <= MaxLookbackHours ==> since == WindowStart(now, hours.value) by {
            if hours.value <= MaxLookbackHours {
              WindowStartAgrees(now, hours.value);
            }
          }
          Report(phone, hours.value, since, totalFault, successFault)
    }

    /**
     * The handler as intended: the same validation and counting, with the
     * window starting `hours` hours before now for every accepted `hours`.
     */
    function GetOTPStatsIntended(phoneParam: string, hoursParam: Option<string>, now: int,
                                 totalFault: Option<string>, successFault: Option<string>): (r: StatsResponse)
      reads otpRepo
      ensures r.Stats? ==>
        && r.phoneNumber == NormalizePhoneNumber(phoneParam)
        && ParseHours(hoursParam).Some? && r.hoursLookedBack == ParseHours(hoursParam).value > 0
        && r.since == WindowStart(now, r.hoursLookedBack) && r.since < now
        && r.totalRequests == CountSince(otpRepo.ledger, r.phoneNumber, r.since)
        && r.successfulRequests == CountSuccessfulSince(otpRepo.ledger, r.phoneNumber, r.since)
    {
      var trimmed := TrimSpace(phoneParam);
      if trimmed == "" then BadRequest("Phone number is required")
      else
        var phone := if HasPlusPrefix(trimmed) then trimmed else "+" + trimmed;
        var hours := ParseHours(hoursParam);
        if hours.None? then BadRequest("Invalid hours parameter")
        else
          var since := WindowStart(now, hours.value);
          Report(phone, hours.value, since, totalFault, successFault)
    }
  }

  /**
   * The handler as written and as intended give the same answer whenever the
   * request is rejected or fails, and also on success up to MaxLookbackHours.
   */
  lemma IntendedAgreesWithinBound(h: OTPStatsHandler, phoneParam: string, hoursParam: Option<string>, now: int,
                                  totalFault: Option<string>, successFault: Option<string>)
    ensures var asWritten := h.GetOTPStats(phoneParam, hoursParam, now, totalFault, successFault);
            var intended := h.GetOTPStatsIntended(phoneParam, hoursParam, now, totalFault, successFault);
            && (intended.Stats? <==> asWritten.Stats?)
            && (!intended.Stats? ==> intended == asWritten)
            && (ParseHours(hoursParam).Some? && ParseHours(hoursParam).value <= MaxLookbackHours ==> intended == asWritten)
  {
    var hours := ParseHours(hoursParam);
    var trimmed := TrimSpace(phoneParam);
    var asWritten := h.GetOTPStats(phoneParam, hoursParam, now, totalFault, successFault);
    var intended := h.GetOTPStatsIntended(phoneParam, hoursParam, now, totalFault, successFault);
    if trimmed == "" || hours.None? {
      assert intended == asWritten;
    } else {
      var phone := if HasPlusPrefix(trimmed) then trimmed else "+" + trimmed;
      assert asWritten == h.Report(phone, hours.value, WindowStartAsWritten(now, hours.value), totalFault, successFault);
      assert intended == h.Report(phone, hours.value, WindowStart(now, hours.value), totalFault, successFault);
      if hours.value <= MaxLookbackHours {
        WindowStartAgrees(now, hours.value);
      }
    }
  }

  /**
   * The overflow seen at the endpoint: asked for hours=2562048 with one
   * attempt made an hour ago, the handler reports no attempts at all, while
   * the intended window counts it.
   */
  lemma StatsMissRecentAttemptPastBound(h: OTPStatsHandler, phone: string, now: int)
    requires HasPlusPrefix(phone) && !IsSpace(phone[|phone| - 1])
    requires h.otpRepo.ledger == [OtpRequest(phone, now - Hour, true)]
    ensures var query := Some(Decimal(MaxLookbackHours + 1));
            var asWritten := h.GetOTPStats(phone, query, now, None, None);
            var intended := h.GetOTPStatsIntended(phone, query, now, None, None);
            && asWritten.Stats? && asWritten.totalRequests == 0
            && intended.Stats? && intended.totalRequests == 1
  {
    ParseHoursOfDecimal(MaxLookbackHours + 1);
    TrimSpaceFixed(phone);
    OverflowedWindowMissesRecentAttempt(phone, now);
  }
}
