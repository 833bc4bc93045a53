/**
 * The authentication service: issuing a one-time code to a phone under a
 * rate limit, verifying a code and exchanging it for session-token claims.
 *
 * RequestStep and VerifyStep state, on the repository contents as values,
 * what one call does; the AuthService methods run the calls step by step
 * against the repository objects and are proved to agree with them.
 */
module Auth {
  import opened Common
  import opened Models
  import opened GoStrings
  import opened OtpRepo
  import opened UserRepo

  /** The service's fixed configuration. */
  const OtpExpiry: int := 2 * Minute
  const RateLimit: int := 3
  const RateWindow: int := 10 * Minute
  const OtpLength: nat := 6
  const TokenLifetime: int := 24 * Hour

  const Digits: string := "0123456789"

  /** One answer of crypto/rand's `rand.Int(rand.Reader, 10)`: a number in [0, 10), or an error. */
  type DigitValue = n: int | 0 <= n < 10
  datatype Draw = Drawn(n: DigitValue) | DrawFailed(msg: string)

  /**
   * The code generateOTP produces when draw i of the call answers `rand(i)`:
   * one digit per successful draw, stopping at the first failed draw.
   */
  function DrawnCode(length: nat, rand: nat -> Draw): (r: Result<string, Error>)
    ensures r.Success? ==> |r.value| == length && AllDigits(r.value)
    ensures r.Failure? ==> r.error.RandError?
  {
    if length == 0 then Success([])
    else
      match DrawnCode(length - 1, rand)
      case Failure(e) => Failure(e)
      case Success(prefix) =>
        match rand(length - 1)
        case Drawn(d) => Success(prefix + [Digits[d]])
        case DrawFailed(m) => Failure(RandError(m))
  }

  /**
   * Generation succeeds exactly when every draw does; the code then has the
   * requested length and its i-th character is the digit of draw i. Otherwise
   * the error is the first failed draw's.
   */
  lemma {:induction false} GeneratedCodeShape(length: nat, rand: nat -> Draw)
    ensures DrawnCode(length, rand).Success? <==> forall i :: 0 <= i < length ==> rand(i).Drawn?
    ensures DrawnCode(length, rand).Success? ==>
      && |DrawnCode(length, rand).value| == length
      && forall i :: 0 <= i < length ==>
           DrawnCode(length, rand).value[i] == Digits[rand(i).n] && IsDigit(DrawnCode(length, rand).value[i])
    ensures DrawnCode(length, rand).Failure? ==>
      exists k :: 0 <= k < length && rand(k).DrawFailed? && (forall i :: 0 <= i < k ==> rand(i).Drawn?)
                  && DrawnCode(length, rand).error == RandError(rand(k).msg)
  {
    if length > 0 {
      GeneratedCodeShape(length - 1, rand);
      var prev := DrawnCode(length - 1, rand);
      if prev.Failure? {
        var k :| 0 <= k < length - 1 && rand(k).DrawFailed? && (forall i :: 0 <= i < k ==> rand(i).Drawn?)
                 && prev.error == RandError(rand(k).msg);
        assert DrawnCode(length, rand).error == RandError(rand(k).msg);
      } else if rand(length - 1).DrawFailed? {
        assert DrawnCode(length, rand).error == RandError(rand(length - 1).msg);
      }
    }
  }

  /** Once generation has failed, drawing further digits keeps that failure. */
  lemma {:induction false} FailureIsFinal(i: nat, length: nat, rand: nat -> Draw)
    requires i <= length && DrawnCode(i, rand).Failure?
    ensures DrawnCode(length, rand) == DrawnCode(i, rand)
    decreases length - i
  {
    if i < length {
      FailureIsFinal(i, length - 1, rand);
    }
  }

  /** generateOTP: fills a buffer of `length` bytes with one random digit each. */
  method GenerateOTP(length: nat, rand: nat -> Draw) returns (r: Result<string, Error>)
    ensures r == DrawnCode(length, rand)
  {
    var otp := new char[length];
    for i := 0 to length
      invariant DrawnCode(i, rand).Success?
      invariant otp[..i] == DrawnCode(i, rand).value
    {
      match rand(i)
      case DrawFailed(m) =>
        FailureIsFinal(i + 1, length, rand);
        return Failure(RandError(m));
      case Drawn(d) =>
        otp[i] := Digits[d];
        assert otp[..i + 1] == otp[..i] + [Digits[d]];
    }
    assert otp[..] == otp[..length];
    return Success(otp[..]);
  }

  /** The claims of the session token: the user's ID and phone, expiring 24 hours after `now` (in Unix seconds). */
  datatype Claims = Claims(userId: nat, phone: string, exp: int)

  /** GenerateJWT without the HMAC signature; the signing library's failure is an oracle input. */
  function GenerateJWT(user: User, now: int, signFault: Option<string>): (r: Result<Claims, Error>)
    ensures r.Success? <==> signFault.None?
    ensures r.Success? ==> r.value.userId == user.id && r.value.phone == user.phoneNumber
    ensures r.Success? ==> r.value.exp * Second <= now + TokenLifetime < (r.value.exp + 1) * Second
  {
    if signFault.Some? then Failure(SignError(signFault.value))
    else Success(Claims(user.id, user.phoneNumber, (now + TokenLifetime) / Second))
  }

  /** What each collaborator answers during one RequestOTP call. */
  datatype RequestFaults = RequestFaults(
    countFault: Option<string>,   // the ledger count query
    rand: nat -> Draw,            // digit i of the code
    storeFault: Option<string>,   // the Redis SET
    recordFault: Option<string>)  // the ledger INSERT, whose error RequestOTP ignores

  /** The result of RequestOTP and the repository contents after it. */
  datatype Issued = Issued(err: Option<Error>, cache: map<string, CacheEntry>, ledger: seq<OtpRequest>)

  /** RequestOTP on repository contents: count, rate-limit check, generate, store, record. */
  function RequestStep(cache: map<string, CacheEntry>, ledger: seq<OtpRequest>, phone: string, now: int, f: RequestFaults): (r: Issued)
    ensures r.err == Some(RateLimitExceeded) <==> f.countFault.None? && CountSince(ledger, phone, now - RateWindow) > RateLimit
    ensures r.err.None? <==>
      && f.countFault.None? && CountSince(ledger, phone, now - RateWindow) <= RateLimit
      && DrawnCode(OtpLength, f.rand).Success? && f.storeFault.None?
    ensures f.countFault.None? && CountSince(ledger, phone, now - RateWindow) <= RateLimit ==>
      && (DrawnCode(OtpLength, f.rand).Failure? ==> r.err == Some(DrawnCode(OtpLength, f.rand).error))
      && (DrawnCode(OtpLength, f.rand).Success? && f.storeFault.Some? ==> r.err == Some(CacheError(f.storeFault.value)))
    ensures |ledger| <= |r.ledger| <= |ledger| + 1 && r.ledger[..|ledger|] == ledger
    ensures |r.ledger| == |ledger| + 1 <==> f.countFault.None? && f.recordFault.None?
    ensures |r.ledger| == |ledger| + 1 ==> r.ledger[|ledger|] == OtpRequest(phone, now, r.err.None?)
    ensures r.err.Some? ==> r.cache == cache
    ensures r.err.None? ==>
      && OtpKey(phone) in r.cache && r.cache[OtpKey(phone)].expiresAt == Some(now + OtpExpiry)
      && |r.cache[OtpKey(phone)].value| == OtpLength && AllDigits(r.cache[OtpKey(phone)].value)
  {
    if f.countFault.Some? then Issued(Some(DbError(f.countFault.value)), cache, ledger)
    else if CountSince(ledger, phone, now - RateWindow) > RateLimit then
      Issued(Some(RateLimitExceeded), cache, Append(ledger, phone, false, now, f.recordFault))
    else
      match DrawnCode(OtpLength, f.rand)
      case Failure(e) => Issued(Some(e), cache, Append(ledger, phone, false, now, f.recordFault))
      case Success(otp) =>
        if f.storeFault.Some? then
          Issued(Some(CacheError(f.storeFault.value)), cache, Append(ledger, phone, false, now, f.recordFault))
        else
          Issued(None, Put(cache, phone, otp, OtpExpiry, now), Append(ledger, phone, true, now, f.recordFault))
  }

  /** What each collaborator answers during one VerifyOTP call. */
  datatype VerifyFaults = VerifyFaults(
    cacheFault: Option<string>,   // the Redis GET
    lookupFault: Option<string>,  // the user lookup
    createFault: Option<string>,  // the user INSERT
    signFault: Option<string>)    // token signing

  /** The result of VerifyOTP and the users table after it. */
  datatype Verified = Verified(result: Result<Claims, Error>, users: map<string, User>, nextId: nat)

  /** VerifyOTP on repository contents: read the code, compare, find or create the user, make the claims. */
  function VerifyStep(cache: map<string, CacheEntry>, users: map<string, User>, nextId: nat,
                      phone: string, otp: string, now: int, f: VerifyFaults): (r: Verified)
    requires TableValid(users, nextId)
    ensures TableValid(r.users, r.nextId)
    ensures r.result.Success? ==> StoredCode(cache, phone, now, f.cacheFault) == Success(otp) && r.result.value.phone == phone
    ensures r.users != users ==>
      && StoredCode(cache, phone, now, f.cacheFault) == Success(otp)
      && FindUser(users, phone, f.lookupFault).Failure? && phone !in users
      && phone in r.users && r.users == users[phone := r.users[phone]] && r.users[phone].createdAt == now
  {
    var stored := StoredCode(cache, phone, now, f.cacheFault);
    if stored.Failure? then Verified(Failure(InvalidOrExpiredOtp), users, nextId)
    else if stored.value != otp then Verified(Failure(InvalidOtp), users, nextId)
    else
      var found := FindUser(users, phone, f.lookupFault);
      if found.Success? then Verified(GenerateJWT(found.value, now, f.signFault), users, nextId)
      else
        var ins := InsertUser(users, nextId, phone, now, f.createFault);
        if ins.result.Failure? then Verified(Failure(ins.result.error), users, nextId)
        else Verified(GenerateJWT(ins.result.value, now, f.signFault), ins.users, ins.nextId)
  }

  /** The service object: it holds the two repositories it works on. */
  class AuthService {
    const userRepo: UserRepository
    const otpRepo: OtpRepository

    constructor (userRepo: UserRepository, otpRepo: OtpRepository)
      ensures this.userRepo == userRepo && this.otpRepo == otpRepo
    {
      this.userRepo := userRepo;
      this.otpRepo := otpRepo;
    }

    /** Issue a code for `phoneNumber`, unless the phone has made more than RateLimit attempts in the window. */
    method RequestOTP(phoneNumber: string, now: int, f: RequestFaults) returns (err: Option<Error>)
      modifies otpRepo
      ensures var s := RequestStep(old(otpRepo.cache), old(otpRepo.ledger), phoneNumber, now, f);
              err == s.err && otpRepo.cache == s.cache && otpRepo.ledger == s.ledger
    {
      var count := otpRepo.IncrementRequestCount(phoneNumber, RateWindow, now, f.countFault);
      if count.Failure? {
        return Some(count.error);
      }
      if count.value > RateLimit {
        var ignored := otpRepo.RecordOTPRequest(phoneNumber, false, now, f.recordFault);
        return Some(RateLimitExceeded);
      }
      var otp := GenerateOTP(OtpLength, f.rand);
      if otp.Failure? {
        var ignored := otpRepo.RecordOTPRequest(phoneNumber, false, now, f.recordFault);
        return Some(otp.error);
      }
      var stored := otpRepo.StoreOTP(phoneNumber, otp.value, OtpExpiry, now, f.storeFault);
      if stored.Some? {
        var ignored := otpRepo.RecordOTPRequest(phoneNumber, false, now, f.recordFault);
        return stored;
      }
      var ignored := otpRepo.RecordOTPRequest(phoneNumber, true, now, f.recordFault);
      return None;
    }

    /** Check `otp` against the stored code and, on a match, give the claims of the phone's user, creating the user if needed. */
    method VerifyOTP(phoneNumber: string, otp: string, now: int, f: VerifyFaults) returns (r: Result<Claims, Error>)
      requires userRepo.Valid()
      modifies userRepo
      ensures userRepo.Valid()
      ensures unchanged(otpRepo)
      ensures var v := VerifyStep(otpRepo.cache, old(userRepo.users), old(userRepo.nextId), phoneNumber, otp, now, f);
              r == v.result && userRepo.users == v.users && userRepo.nextId == v.nextId
    {
      var stored := otpRepo.GetOTP(phoneNumber, now, f.cacheFault);
      if stored.Failure? {
        return Failure(InvalidOrExpiredOtp);
      }
      if stored.value != otp {
        return Failure(InvalidOtp);
      }
      var user := userRepo.FindByPhoneNumber(phoneNumber, f.lookupFault);
      if user.Failure? {
        user := userRepo.Create(phoneNumber, now, f.createFault);
        if user.Failure? {
          return Failure(user.error);
        }
      }
      r := GenerateJWT(user.value, now, f.signFault);
    }
  }

  // ---------------------------------------------------------------------
  // Properties of one RequestOTP call

  /** A failing count query ends the call: no ledger row, no store write. */
  lemma CountFailureChangesNothing(cache: map<string, CacheEntry>, ledger: seq<OtpRequest>, phone: string, now: int, f: RequestFaults)
    requires f.countFault.Some?
    ensures RequestStep(cache, ledger, phone, now, f) == Issued(Some(DbError(f.countFault.value)), cache, ledger)
  {
  }

  /**
   * Over the limit (more than RateLimit attempts counted before this one), the
   * call fails with the rate-limit error, records one unsuccessful attempt and
   * leaves the stored code alone.
   */
  lemma RateLimitedAttempt(cache: map<string, CacheEntry>, ledger: seq<OtpRequest>, phone: string, now: int, f: RequestFaults)
    requires f.countFault.None? && f.recordFault.None?
    requires CountSince(ledger, phone, now - RateWindow) > RateLimit
    ensures var r := RequestStep(cache, ledger, phone, now, f);
            r.err == Some(RateLimitExceeded) && r.cache == cache
            && r.ledger == ledger + [OtpRequest(phone, now, false)]
  {
  }

  /**
   * Every call that gets past the count query appends exactly one row for this
   * phone at `now`, successful exactly when the fresh code was stored; when the
   * call fails the cache is as it was.
   */
  lemma OneRecordPerAttempt(cache: map<string, CacheEntry>, ledger: seq<OtpRequest>, phone: string, now: int, f: RequestFaults)
    requires f.countFault.None? && f.recordFault.None?
    ensures var r := RequestStep(cache, ledger, phone, now, f);
            && r.ledger == ledger + [OtpRequest(phone, now, r.err.None?)]
            && (r.err.None? ==> DrawnCode(OtpLength, f.rand).Success?
                                && r.cache == Put(cache, phone, DrawnCode(OtpLength, f.rand).value, OtpExpiry, now))
            && (r.err.Some? ==> r.cache == cache)
  {
  }

  /**
   * Under the limit, with every draw and every collaborator working, the call
   * issues a code: RequestOTP does succeed.
   */
  lemma IssuesUnderLimit(cache: map<string, CacheEntry>, ledger: seq<OtpRequest>, phone: string, now: int, f: RequestFaults)
    requires f.countFault.None? && f.storeFault.None?
    requires CountSince(ledger, phone, now - RateWindow) <= RateLimit
    requires forall i :: 0 <= i < OtpLength ==> f.rand(i).Drawn?
    ensures RequestStep(cache, ledger, phone, now, f).err.None?
  {
    GeneratedCodeShape(OtpLength, f.rand);
  }

  /** The ledger insert's own failure is swallowed: it changes neither the result nor the cache. */
  lemma RecordFaultIgnored(cache: map<string, CacheEntry>, ledger: seq<OtpRequest>, phone: string, now: int, f: RequestFaults)
    ensures var r := RequestStep(cache, ledger, phone, now, f);
            var clean := RequestStep(cache, ledger, phone, now, f.(recordFault := None));
            r.err == clean.err && r.cache == clean.cache
            && (f.recordFault.Some? ==> r.ledger == ledger)
  {
  }

  /**
   * A successful call stores a fresh six-digit code for the phone, readable at
   * every instant before now + OtpExpiry and at none from then on, replacing any
   * earlier code.
   */
  lemma IssuedCodeIsFresh(cache: map<string, CacheEntry>, ledger: seq<OtpRequest>, phone: string, now: int, f: RequestFaults, t: int)
    requires RequestStep(cache, ledger, phone, now, f).err.None?
    ensures DrawnCode(OtpLength, f.rand).Success?
    ensures var code := DrawnCode(OtpLength, f.rand).value;
            && |code| == OtpLength && AllDigits(code)
            && (t < now + OtpExpiry ==> Lookup(RequestStep(cache, ledger, phone, now, f).cache, phone, t) == Success(code))
            && (t >= now + OtpExpiry ==> Lookup(RequestStep(cache, ledger, phone, now, f).cache, phone, t) == Failure(CacheMiss))
  {
    GeneratedCodeShape(OtpLength, f.rand);
    var code := DrawnCode(OtpLength, f.rand).value;
    StoreThenGet(cache, phone, code, OtpExpiry, now, t);
  }

  /** A call for one phone changes neither another phone's code nor its counts. */
  lemma RequestIsolated(cache: map<string, CacheEntry>, ledger: seq<OtpRequest>, phone: string, other: string,
                        now: int, f: RequestFaults, t: int, since: int)
    requires other != phone
    ensures var r := RequestStep(cache, ledger, phone, now, f);
            && Lookup(r.cache, other, t) == Lookup(cache, other, t)
            && CountSince(r.ledger, other, since) == CountSince(ledger, other, since)
            && CountSuccessfulSince(r.ledger, other, since) == CountSuccessfulSince(ledger, other, since)
  {
    var r := RequestStep(cache, ledger, phone, now, f);
    if r.cache != cache {
      StoreIsolated(cache, phone, other, DrawnCode(OtpLength, f.rand).value, OtpExpiry, now, t);
    }
    if r.ledger != ledger {
      CountIgnoresOtherPhones(ledger, r.ledger[|ledger|], other, since);
      assert r.ledger == ledger + [r.ledger[|ledger|]];
    }
  }

  // ---------------------------------------------------------------------
  // Properties of VerifyOTP

  /** Without a live stored code equal to the candidate, verification fails and creates no user. */
  lemma VerifyRejectsMismatch(cache: map<string, CacheEntry>, users: map<string, User>, nextId: nat,
                              phone: string, otp: string, now: int, f: VerifyFaults)
    requires TableValid(users, nextId)
    requires StoredCode(cache, phone, now, f.cacheFault) != Success(otp)
    ensures var v := VerifyStep(cache, users, nextId, phone, otp, now, f);
            && v.users == users && v.nextId == nextId
            && (v.result == Failure(InvalidOrExpiredOtp) || v.result == Failure(InvalidOtp))
  {
  }

  /**
   * On a match with no collaborator failing, the phone's user gets the claims:
   * an existing user is reused, a missing one is created with CreatedAt = now.
   */
  lemma VerifyFindsOrCreates(cache: map<string, CacheEntry>, users: map<string, User>, nextId: nat,
                             phone: string, otp: string, now: int)
    requires TableValid(users, nextId)
    requires Lookup(cache, phone, now) == Success(otp)
    ensures var v := VerifyStep(cache, users, nextId, phone, otp, now, VerifyFaults(None, None, None, None));
            && phone in v.users
            && v.result.Success?
            && v.result.value.userId == v.users[phone].id
            && v.result.value.phone == phone
            && (phone in users ==> v.users == users)
            && (phone !in users ==> v.users[phone].createdAt == now && v.users == users[phone := v.users[phone]]
                                    && forall p :: p in users ==> users[p].id != v.users[phone].id)
  {
  }

  /**
   * A failed user lookup for a phone that has a user sends the call down the
   * create path, where the unique index refuses the insert: the call fails and
   * the table is unchanged.
   */
  lemma VerifyLookupFaultOnExistingUser(cache: map<string, CacheEntry>, users: map<string, User>, nextId: nat,
                                        phone: string, otp: string, now: int, f: VerifyFaults)
    requires TableValid(users, nextId)
    requires StoredCode(cache, phone, now, f.cacheFault) == Success(otp)
    requires f.lookupFault.Some? && phone in users
    ensures var v := VerifyStep(cache, users, nextId, phone, otp, now, f);
            && v.users == users && v.nextId == nextId
            && v.result == Failure(if f.createFault.Some? then DbError(f.createFault.value) else UniqueViolation)
  {
  }

  /**
   * The code is not consumed: after a successful verification, verifying the
   * same code again before it expires also succeeds, for the same user, and
   * creates nobody.
   */
  lemma VerifyRepeatable(cache: map<string, CacheEntry>, users: map<string, User>, nextId: nat,
                         phone: string, otp: string, t1: int, t2: int)
    requires TableValid(users, nextId)
    requires Lookup(cache, phone, t2) == Success(otp)
    requires VerifyStep(cache, users, nextId, phone, otp, t1, VerifyFaults(None, None, None, None)).result.Success?
    ensures var none := VerifyFaults(None, None, None, None);
            var v1 := VerifyStep(cache, users, nextId, phone, otp, t1, none);
            var v2 := VerifyStep(cache, v1.users, v1.nextId, phone, otp, t2, none);
            && v2.result.Success?
            && v2.result.value.userId == v1.result.value.userId
            && v2.users == v1.users && v2.nextId == v1.nextId
  {
    var none := VerifyFaults(None, None, None, None);
    var v1 := VerifyStep(cache, users, nextId, phone, otp, t1, none);
    VerifyFindsOrCreates(cache, users, nextId, phone, otp, t1);
    VerifyFindsOrCreates(cache, v1.users, v1.nextId, phone, otp, t2);
  }

  // ---------------------------------------------------------------------
  // Issuance followed by verification

  /**
   * The code a successful RequestOTP stores verifies for that phone at every
   * instant before it expires, giving claims for the phone; from the expiry on
   * it is rejected as invalid or expired.
   */
  lemma IssueThenVerify(cache: map<string, CacheEntry>, ledger: seq<OtpRequest>, users: map<string, User>, nextId: nat,
                        phone: string, now: int, f: RequestFaults, t: int)
    requires TableValid(users, nextId)
    requires RequestStep(cache, ledger, phone, now, f).err.None?
    ensures var code := DrawnCode(OtpLength, f.rand).value;
            var v := VerifyStep(RequestStep(cache, ledger, phone, now, f).cache, users, nextId, phone, code, t,
                                VerifyFaults(None, None, None, None));
            && (t < now + OtpExpiry ==> v.result.Success? && v.result.value.phone == phone)
            && (t >= now + OtpExpiry ==> v.result == Failure(InvalidOrExpiredOtp) && v.users == users)
  {
    IssuedCodeIsFresh(cache, ledger, phone, now, f, t);
    var code := DrawnCode(OtpLength, f.rand).value;
    var issued := RequestStep(cache, ledger, phone, now, f);
    if t < now + OtpExpiry {
      VerifyFindsOrCreates(issued.cache, users, nextId, phone, code, t);
    }
  }

  /**
   * Issuing twice overwrites: once a second code has been stored, the first
   * code (when the two differ) no longer verifies.
   */
  lemma SecondIssuanceReplacesFirst(cache: map<string, CacheEntry>, ledger: seq<OtpRequest>, users: map<string, User>, nextId: nat,
                                    phone: string, t1: int, f1: RequestFaults, t2: int, f2: RequestFaults, t: int, vf: VerifyFaults)
    requires TableValid(users, nextId)
    requires RequestStep(cache, ledger, phone, t1, f1).err.None?
    requires var first := RequestStep(cache, ledger, phone, t1, f1);
             RequestStep(first.cache, first.ledger, phone, t2, f2).err.None?
    requires DrawnCode(OtpLength, f1.rand) != DrawnCode(OtpLength, f2.rand)
    ensures var first := RequestStep(cache, ledger, phone, t1, f1);
            var second := RequestStep(first.cache, first.ledger, phone, t2, f2);
            var v := VerifyStep(second.cache, users, nextId, phone, DrawnCode(OtpLength, f1.rand).value, t, vf);
            v.result.Failure? && v.users == users
  {
    var first := RequestStep(cache, ledger, phone, t1, f1);
    IssuedCodeIsFresh(first.cache, first.ledger, phone, t2, f2, t);
    IssuedCodeIsFresh(cache, ledger, phone, t1, f1, t);
  }
}
