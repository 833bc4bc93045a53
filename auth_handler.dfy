/**
 * The HTTP handlers for /auth/request-otp and /auth/verify-otp: bind the JSON
 * body, call the service with the phone number exactly as sent, and turn the
 * service's outcome into a status code and a JSON payload. The phone-number
 * normalisation that the statistics endpoint applies lives here too.
 */
module AuthHandlers {
  import opened Common
  import opened GoStrings
  import opened Models
  import opened OtpRepo
  import opened UserRepo
  import opened Auth

  const StatusOK: int := 200
  const StatusBadRequest: int := 400
  const StatusUnauthorized: int := 401
  const StatusTooManyRequests: int := 429
  const StatusInternalServerError: int := 500

  /** The error text the RequestOTP handler matches to answer 429. */
  const RateLimitText: string := "rate limit exceeded"

  /**
   * normalizePhoneNumber: trim white space, then prefix "+" unless the
   * trimmed number already starts with one.
   */
  function NormalizePhoneNumber(phone: string): (r: string)
    ensures |r| > 0 && r[0] == '+'
    ensures HasPlusPrefix(TrimSpace(phone)) ==> r == TrimSpace(phone)
    ensures !HasPlusPrefix(TrimSpace(phone)) ==> r == "+" + TrimSpace(phone)
  {
    var trimmed := TrimSpace(phone);
    if HasPlusPrefix(trimmed) then trimmed else "+" + trimmed
  }

  /** A normalised number is its own normalisation. */
  lemma NormalizeIdempotent(phone: string)
    ensures NormalizePhoneNumber(NormalizePhoneNumber(phone)) == NormalizePhoneNumber(phone)
  {
    var r := NormalizePhoneNumber(phone);
    var t := TrimSpace(phone);
    assert !IsSpace(r[|r| - 1]) by {
      if r != t {
        assert r == "+" + t;
        if t != [] {
          assert r[|r| - 1] == t[|t| - 1];
        }
      }
    }
    TrimSpaceFixed(r);
  }

  /** Surrounding white space and a missing "+" are the only differences normalisation removes. */
  lemma NormalizeMergesSpellings(digits: string)
    requires digits != [] && !IsSpace(digits[0]) && !IsSpace(digits[|digits| - 1]) && digits[0] != '+'
    ensures NormalizePhoneNumber(digits) == NormalizePhoneNumber("+" + digits) == NormalizePhoneNumber(" " + digits + "\n")
    ensures OtpKey(digits) != OtpKey("+" + digits)
  {
    TrimSpaceFixed(digits);
    var plus := "+" + digits;
    assert plus[|plus| - 1] == digits[|digits| - 1];
    TrimSpaceFixed(plus);
    TrimSpaceDropsPadding(digits);
    assert OtpKey(digits)[|KeyPrefix|] != OtpKey(plus)[|KeyPrefix|];
  }

  /**
   * A JSON request body as gin binds it: either it does not decode, or it
   * decodes to an object whose string fields are read ("" when absent).
   */
  datatype JsonBody = Malformed | Json(phoneNumber: string, otp: string)

  /** The JSON payload of a response. */
  datatype Payload = ErrorPayload(error: string) | MessagePayload(message: string) | TokenPayload(token: Claims)

  datatype Response = Response(status: int, payload: Payload)

  const InvalidRequest: Response := Response(StatusBadRequest, ErrorPayload("Invalid request"))

  /** ShouldBindJSON into RequestOTPRequest: `phone_number` is required, i.e. must be present and non-empty. */
  function BindRequestOTP(body: JsonBody): Option<string>
  {
    if body.Json? && body.phoneNumber != "" then Some(body.phoneNumber) else None
  }

  /** ShouldBindJSON into VerifyOTPRequest: `phone_number` and `otp` are both required. */
  function BindVerifyOTP(body: JsonBody): Option<(string, string)>
  {
    if body.Json? && body.phoneNumber != "" && body.otp != "" then Some((body.phoneNumber, body.otp)) else None
  }

  /** The response to RequestOTP's outcome: 429 only for an error whose text is the rate-limit text. */
  function RequestOTPResponse(err: Option<Error>): (resp: Response)
    ensures resp.status == StatusOK <==> err.None?
    ensures resp.status == StatusTooManyRequests <==> err.Some? && Message(err.value) == RateLimitText
    ensures resp.status == StatusInternalServerError <==> err.Some? && Message(err.value) != RateLimitText
    ensures resp.status == StatusOK ==> resp.payload == MessagePayload("OTP sent successfully")
    ensures resp.status == StatusTooManyRequests ==> resp.payload == ErrorPayload("Too many requests")
    ensures resp.status == StatusInternalServerError ==> resp.payload == ErrorPayload("Failed to generate OTP")
  {
    if err.None? then Response(StatusOK, MessagePayload("OTP sent successfully"))
    else if Message(err.value) == RateLimitText then Response(StatusTooManyRequests, ErrorPayload("Too many requests"))
    else Response(StatusInternalServerError, ErrorPayload("Failed to generate OTP"))
  }

  /** The response to VerifyOTP's outcome: every error is 401, success carries the token. */
  function VerifyOTPResponse(r: Result<Claims, Error>): (resp: Response)
    ensures resp.status == StatusOK <==> r.Success?
    ensures r.Success? ==> resp.payload == TokenPayload(r.value)
    ensures r.Failure? ==> resp == Response(StatusUnauthorized, ErrorPayload("Invalid OTP"))
  {
    if r.Failure? then Response(StatusUnauthorized, ErrorPayload("Invalid OTP"))
    else Response(StatusOK, TokenPayload(r.value))
  }

  /**
   * When no collaborator's own error text happens to be the rate-limit text,
   * RequestOTP answers 429 exactly when the service refused the call because of
   * the rate limit.
   */
  lemma TooManyRequestsIffRateLimited(cache: map<string, CacheEntry>, ledger: seq<OtpRequest>, phone: string, now: int, f: RequestFaults)
    requires f.countFault != Some(RateLimitText) && f.storeFault != Some(RateLimitText)
    requires forall k :: 0 <= k < OtpLength && f.rand(k).DrawFailed? ==> f.rand(k).msg != RateLimitText
    ensures var s := RequestStep(cache, ledger, phone, now, f);
            RequestOTPResponse(s.err).status == StatusTooManyRequests <==> s.err == Some(RateLimitExceeded)
  {
    GeneratedCodeShape(OtpLength, f.rand);
  }

  /**
   * The request handlers pass the phone number on as sent, while the
   * statistics endpoint normalises it: an attempt made with a spelling that
   * normalisation changes is never counted in the statistics of that number.
   */
  lemma RawAttemptInvisibleToStats(cache: map<string, CacheEntry>, ledger: seq<OtpRequest>, phone: string, now: int, f: RequestFaults, since: int)
    requires phone != NormalizePhoneNumber(phone)
    ensures var s := RequestStep(cache, ledger, phone, now, f);
            && CountSince(s.ledger, NormalizePhoneNumber(phone), since) == CountSince(ledger, NormalizePhoneNumber(phone), since)
            && CountSuccessfulSince(s.ledger, NormalizePhoneNumber(phone), since) == CountSuccessfulSince(ledger, NormalizePhoneNumber(phone), since)
  {
    RequestIsolated(cache, ledger, phone, NormalizePhoneNumber(phone), now, f, now, since);
  }

  /** The handler object: it holds the service it calls. */
  class AuthHandler {
    const authService: AuthService

    constructor (authService: AuthService)
      ensures this.authService == authService
    {
      this.authService := authService;
    }

    /** POST /auth/request-otp. */
    method RequestOTP(body: JsonBody, now: int, f: RequestFaults) returns (resp: Response)
      modifies authService.otpRepo
      ensures !(body.Json? && body.phoneNumber != "") ==> resp == InvalidRequest && unchanged(authService.otpRepo)
      ensures body.Json? && body.phoneNumber != "" ==>
        var s := RequestStep(old(authService.otpRepo.cache), old(authService.otpRepo.ledger), body.phoneNumber, now, f);
        && resp == RequestOTPResponse(s.err)
        && authService.otpRepo.cache == s.cache && authService.otpRepo.ledger == s.ledger
    {
      var req := BindRequestOTP(body);
      if req.None? {
        return InvalidRequest;
      }
      var err := authService.RequestOTP(req.value, now, f);
      resp := RequestOTPResponse(err);
    }

    /** POST /auth/verify-otp. */
    method VerifyOTP(body: JsonBody, now: int, f: VerifyFaults) returns (resp: Response)
      requires authService.userRepo.Valid()
      modifies authService.userRepo
      ensures authService.userRepo.Valid()
      ensures unchanged(authService.otpRepo)
      ensures !(body.Json? && body.phoneNumber != "" && body.otp != "") ==> resp == InvalidRequest && unchanged(authService.userRepo)
      ensures body.Json? && body.phoneNumber != "" && body.otp != "" ==>
        var v := VerifyStep(authService.otpRepo.cache, old(authService.userRepo.users), old(authService.userRepo.nextId),
                            body.phoneNumber, body.otp, now, f);
        && resp == VerifyOTPResponse(v.result)
        && authService.userRepo.users == v.users && authService.userRepo.nextId == v.nextId
    {
      var req := BindVerifyOTP(body);
      if req.None? {
        return InvalidRequest;
      }
      var r := authService.VerifyOTP(req.value.0, req.value.1, now, f);
      resp := VerifyOTPResponse(r);
    }
  }
}
