/**
 * The OTP repository: the Redis cache that holds the current code of each
 * phone under the key "otp:" + phone with a time-to-live, and the Postgres
 * ledger `otp_requests` of issuance attempts with its count queries.
 *
 * The cache is a map from key to entry and the ledger a sequence of rows in
 * insertion order. A driver failure is an oracle input: `fault == Some(msg)`
 * means the call fails with that message.
 */
module OtpRepo {
  import opened Common
  import opened Models

  /** A Redis string value with its absolute expiry instant, or none. */
  datatype CacheEntry = CacheEntry(value: string, expiresAt: Option<int>)

  predicate Live(e: CacheEntry, now: int)
  {
    e.expiresAt.None? || now < e.expiresAt.value
  }

  const KeyPrefix: string := "otp:"

  /** The Redis key of a phone's code. */
  function OtpKey(phone: string): (k: string)
    ensures |k| == |KeyPrefix| + |phone| && k[|KeyPrefix|..] == phone
  {
    KeyPrefix + phone
  }

  /** Distinct phones have distinct keys. */
  lemma OtpKeyInjective(p: string, q: string)
    requires OtpKey(p) == OtpKey(q)
    ensures p == q
  {
    assert p == OtpKey(p)[|KeyPrefix|..];
  }

  /** The cache after `SET otp:phone otp EX expiration` at `now`; a non-positive expiration sets no TTL. */
  function Put(cache: map<string, CacheEntry>, phone: string, otp: string, expiration: int, now: int): (r: map<string, CacheEntry>)
    ensures OtpKey(phone) in r && r[OtpKey(phone)].value == otp
    ensures expiration > 0 ==> r[OtpKey(phone)].expiresAt == Some(now + expiration)
    ensures expiration <= 0 ==> r[OtpKey(phone)].expiresAt.None?
    ensures forall k :: k != OtpKey(phone) ==> (k in r <==> k in cache)
    ensures forall k :: k != OtpKey(phone) && k in cache ==> r[k] == cache[k]
  {
    cache[OtpKey(phone) := CacheEntry(otp, if expiration > 0 then Some(now + expiration) else None)]
  }

  /** The answer of `GET otp:phone` at `now`: the value while it lives, redis.Nil otherwise. */
  function Lookup(cache: map<string, CacheEntry>, phone: string, now: int): (r: Result<string, Error>)
    ensures r.Success? <==> OtpKey(phone) in cache && Live(cache[OtpKey(phone)], now)
    ensures r.Success? ==> r.value == cache[OtpKey(phone)].value
    ensures r.Failure? ==> r.error == CacheMiss
  {
    var k := OtpKey(phone);
    if k in cache && Live(cache[k], now) then Success(cache[k].value) else Failure(CacheMiss)
  }

  /** The answer of GET when the Redis call itself may fail: the driver's error, or the lookup. */
  function StoredCode(cache: map<string, CacheEntry>, phone: string, now: int, fault: Option<string>): Result<string, Error>
  {
    if fault.Some? then Failure(CacheError(fault.value)) else Lookup(cache, phone, now)
  }

  /** A stored code is read back at every instant before its expiry, and at none from the expiry on. */
  lemma StoreThenGet(cache: map<string, CacheEntry>, phone: string, otp: string, expiration: int, at: int, now: int)
    requires expiration > 0
    ensures Lookup(Put(cache, phone, otp, expiration, at), phone, now).Success? <==> now < at + expiration
    ensures now < at + expiration ==> Lookup(Put(cache, phone, otp, expiration, at), phone, now) == Success(otp)
    ensures now >= at + expiration ==> Lookup(Put(cache, phone, otp, expiration, at), phone, now) == Failure(CacheMiss)
  {
  }

  /** A later store replaces the earlier one entirely: code and expiry. */
  lemma StoreOverwrites(cache: map<string, CacheEntry>, phone: string, c1: string, c2: string, d1: int, d2: int, t1: int, t2: int, now: int)
    ensures Lookup(Put(Put(cache, phone, c1, d1, t1), phone, c2, d2, t2), phone, now)
         == Lookup(Put(map[], phone, c2, d2, t2), phone, now)
  {
  }

  /** Storing a code for one phone changes no other phone's answer. */
  lemma StoreIsolated(cache: map<string, CacheEntry>, phone: string, other: string, otp: string, expiration: int, at: int, now: int)
    requires other != phone
    ensures Lookup(Put(cache, phone, otp, expiration, at), other, now) == Lookup(cache, other, now)
  {
    if OtpKey(other) == OtpKey(phone) {
      OtpKeyInjective(other, phone);
    }
  }

  /** The row of one attempt matches the window query for `phone` from `since` on. */
  predicate InWindow(r: OtpRequest, phone: string, since: int)
  {
    r.phoneNumber == phone && r.requestedAt >= since
  }

  /** SELECT count(*) WHERE phone_number = phone AND requested_at >= since. */
  function CountSince(ledger: seq<OtpRequest>, phone: string, since: int): (n: nat)
    ensures n <= |ledger|
  {
    if ledger == [] then 0
    else CountSince(ledger[..|ledger| - 1], phone, since)
         + (if InWindow(ledger[|ledger| - 1], phone, since) then 1 else 0)
  }

  /** The same query restricted to successful rows. */
  function CountSuccessfulSince(ledger: seq<OtpRequest>, phone: string, since: int): (n: nat)
    ensures n <= |ledger|
  {
    if ledger == [] then 0
    else CountSuccessfulSince(ledger[..|ledger| - 1], phone, since)
         + (if InWindow(ledger[|ledger| - 1], phone, since) && ledger[|ledger| - 1].successful then 1 else 0)
  }

  /** The positions of the rows the window query selects. */
  function WindowRows(ledger: seq<OtpRequest>, phone: string, since: int): set<nat>
  {
    set i: nat | i < |ledger| && InWindow(ledger[i], phone, since)
  }

  /** The count is the number of selected rows: phone equal, requested at or after `since`, success flag ignored. */
  lemma {:induction false} CountIsWindowSize(ledger: seq<OtpRequest>, phone: string, since: int)
    ensures CountSince(ledger, phone, since) == |WindowRows(ledger, phone, since)|
  {
    if ledger != [] {
      var n := |ledger| - 1;
      var init := ledger[..n];
      CountIsWindowSize(init, phone, since);
      var rows := WindowRows(ledger, phone, since);
      var initRows := WindowRows(init, phone, since);
      assert n !in initRows;
      forall i | i in initRows
        ensures i in rows
      {
        assert ledger[i] == init[i];
      }
      forall i | i in rows && i != n
        ensures i in initRows
      {
        assert ledger[i] == init[i];
      }
      if InWindow(ledger[n], phone, since) {
        assert rows == initRows + {n};
      } else {
        assert rows == initRows;
      }
    }
  }

  /** The positions of the rows the successful-window query selects. */
  function SuccessfulWindowRows(ledger: seq<OtpRequest>, phone: string, since: int): set<nat>
  {
    set i: nat | i < |ledger| && InWindow(ledger[i], phone, since) && ledger[i].successful
  }

  /** The successful count is the number of selected rows that are marked successful. */
  lemma {:induction false} CountSuccessfulIsWindowSize(ledger: seq<OtpRequest>, phone: string, since: int)
    ensures CountSuccessfulSince(ledger, phone, since) == |SuccessfulWindowRows(ledger, phone, since)|
  {
    if ledger != [] {
      var n := |ledger| - 1;
      var init := ledger[..n];
      CountSuccessfulIsWindowSize(init, phone, since);
      var rows := SuccessfulWindowRows(ledger, phone, since);
      var initRows := SuccessfulWindowRows(init, phone, since);
      assert n !in initRows;
      forall i | i in initRows
        ensures i in rows
      {
        assert ledger[i] == init[i];
      }
      forall i | i in rows && i != n
        ensures i in initRows
      {
        assert ledger[i] == init[i];
      }
      if InWindow(ledger[n], phone, since) && ledger[n].successful {
        assert rows == initRows + {n};
      } else {
        assert rows == initRows;
      }
    }
  }

  /** Successful attempts never outnumber attempts. */
  lemma {:induction false} SuccessfulAtMostTotal(ledger: seq<OtpRequest>, phone: string, since: int)
    ensures CountSuccessfulSince(ledger, phone, since) <= CountSince(ledger, phone, since)
  {
    if ledger != [] {
      SuccessfulAtMostTotal(ledger[..|ledger| - 1], phone, since);
    }
  }

  /** Moving `since` earlier never decreases either count. */
  lemma {:induction false} CountsGrowWithWindow(ledger: seq<OtpRequest>, phone: string, since: int, earlier: int)
    requires earlier <= since
    ensures CountSince(ledger, phone, since) <= CountSince(ledger, phone, earlier)
    ensures CountSuccessfulSince(ledger, phone, since) <= CountSuccessfulSince(ledger, phone, earlier)
  {
    if ledger != [] {
      CountsGrowWithWindow(ledger[..|ledger| - 1], phone, since, earlier);
    }
  }

  /** Counting over two stretches of the ledger adds up. */
  lemma {:induction false} CountConcat(a: seq<OtpRequest>, b: seq<OtpRequest>, phone: string, since: int)
    ensures CountSince(a + b, phone, since) == CountSince(a, phone, since) + CountSince(b, phone, since)
    ensures CountSuccessfulSince(a + b, phone, since) == CountSuccessfulSince(a, phone, since) + CountSuccessfulSince(b, phone, since)
  {
    if b == [] {
      assert a + b == a;
    } else {
      var n := |b| - 1;
      CountConcat(a, b[..n], phone, since);
      assert (a + b)[..|a + b| - 1] == a + b[..n];
      assert (a + b)[|a + b| - 1] == b[n];
    }
  }

  /** Rows of other phones do not affect a phone's counts. */
  lemma {:induction false} CountIgnoresOtherPhones(ledger: seq<OtpRequest>, r: OtpRequest, phone: string, since: int)
    requires r.phoneNumber != phone
    ensures CountSince(ledger + [r], phone, since) == CountSince(ledger, phone, since)
    ensures CountSuccessfulSince(ledger + [r], phone, since) == CountSuccessfulSince(ledger, phone, since)
  {
    assert (ledger + [r])[..|ledger|] == ledger;
  }

  /** The ledger after an INSERT of one attempt; a failed insert leaves it as it was. */
  function Append(ledger: seq<OtpRequest>, phone: string, successful: bool, now: int, fault: Option<string>): (r: seq<OtpRequest>)
    ensures |r| == |ledger| + (if fault.None? then 1 else 0)
    ensures r[..|ledger|] == ledger
    ensures fault.None? ==> r[|ledger|] == OtpRequest(phone, now, successful)
  {
    if fault.Some? then ledger else ledger + [OtpRequest(phone, now, successful)]
  }

  /**
   * The repository object: the cache contents and the ledger rows, both
   * changed only by StoreOTP and RecordOTPRequest.
   */
  class OtpRepository {
    var cache: map<string, CacheEntry>
    var ledger: seq<OtpRequest>

    constructor ()
      ensures cache == map[] && ledger == []
    {
      cache := map[];
      ledger := [];
    }

    /** SET "otp:"+phone with the given TTL, overwriting any earlier code. */
    method StoreOTP(phoneNumber: string, otp: string, expiration: int, now: int, fault: Option<string>)
      returns (err: Option<Error>)
      modifies this
      ensures err.Some? <==> fault.Some?
      ensures fault.Some? ==> err == Some(CacheError(fault.value)) && cache == old(cache)
      ensures fault.None? ==> cache == Put(old(cache), phoneNumber, otp, expiration, now)
      ensures ledger == old(ledger)
    {
      if fault.Some? {
        return Some(CacheError(fault.value));
      }
      cache := Put(cache, phoneNumber, otp, expiration, now);
      return None;
    }

    /** GET "otp:"+phone: redis.Nil once the code is absent or expired, the driver's error when Redis fails. */
    function GetOTP(phoneNumber: string, now: int, fault: Option<string>): (r: Result<string, Error>)
      reads this
      ensures fault.Some? ==> r == Failure(CacheError(fault.value))
      ensures r.Success? ==> OtpKey(phoneNumber) in cache && r.value == cache[OtpKey(phoneNumber)].value
      ensures r.Success? <==> fault.None? && OtpKey(phoneNumber) in cache && Live(cache[OtpKey(phoneNumber)], now)
      ensures fault.None? && r.Failure? ==> r.error == CacheMiss
    {
      StoredCode(cache, phoneNumber, now, fault)
    }

    /** Despite its name, only counts the phone's attempts since `now - expiration`. */
    function IncrementRequestCount(phoneNumber: string, expiration: int, now: int, fault: Option<string>): (r: Result<nat, Error>)
      reads this
      ensures r == GetRequestCount(phoneNumber, now - expiration, fault)
    {
      var since := now - expiration;
      GetRequestCount(phoneNumber, since, fault)
    }

    /** INSERT one row (phone, now, successful); earlier rows are untouched. */
    method RecordOTPRequest(phoneNumber: string, successful: bool, now: int, fault: Option<string>)
      returns (err: Option<Error>)
      modifies this
      ensures err.Some? <==> fault.Some?
      ensures fault.None? ==> ledger == old(ledger) + [OtpRequest(phoneNumber, now, successful)]
      ensures fault.Some? ==> err == Some(DbError(fault.value)) && ledger == old(ledger)
      ensures cache == old(cache)
    {
      if fault.Some? {
        return Some(DbError(fault.value));
      }
      ledger := ledger + [OtpRequest(phoneNumber, now, successful)];
      return None;
    }

    /** The number of the phone's attempts requested at or after `since`. */
    function GetRequestCount(phoneNumber: string, since: int, fault: Option<string>): (r: Result<nat, Error>)
      reads this
      ensures r.Success? <==> fault.None?
      ensures r.Success? ==> r.value == |WindowRows(ledger, phoneNumber, since)|
      ensures r.Failure? ==> r.error == DbError(fault.value)
    {
      CountIsWindowSize(ledger, phoneNumber, since);
      if fault.Some? then Failure(DbError(fault.value)) else Success(CountSince(ledger, phoneNumber, since))
    }

    /** The number of the phone's successful attempts requested at or after `since`. */
    function GetSuccessfulRequestCount(phoneNumber: string, since: int, fault: Option<string>): (r: Result<nat, Error>)
      reads this
      ensures r.Success? <==> fault.None?
      ensures r.Success? ==> r.value == |SuccessfulWindowRows(ledger, phoneNumber, since)|
      ensures r.Success? ==> r.value <= CountSince(ledger, phoneNumber, since)
      ensures r.Failure? ==> r.error == DbError(fault.value)
    {
      CountSuccessfulIsWindowSize(ledger, phoneNumber, since);
      SuccessfulAtMostTotal(ledger, phoneNumber, since);
      if fault.Some? then Failure(DbError(fault.value)) else Success(CountSuccessfulSince(ledger, phoneNumber, since))
    }
  }
}
