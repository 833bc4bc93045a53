# OTP authentication service — a Dafny model

This project models the core of an OTP login service written in Go:

- **Issuing a code.** `AuthService.RequestOTP` first counts the phone number's attempts in the last 10 minutes.
  - More than 3 attempts means the call is rejected.
  - Otherwise it draws a six-digit code from a random source and stores it in Redis under `"otp:" + phone` for 2 minutes.
  - Every attempt that gets past the count query is recorded as a row in the `otp_requests` table, with a success flag.
- **Verifying a code.** `AuthService.VerifyOTP` compares the candidate with the stored code. On a match it finds or creates the user and returns the claims of a 24-hour session token.
- **The HTTP handlers.** They bind the JSON body, call the service with the phone number exactly as sent, and map the outcome to a status:
  - 200 on success.
  - 400 for a body that does not bind.
  - 429 when the error text is `"rate limit exceeded"`.
  - 500 for any other issuing error.
  - 401 for any verification error.
- **The statistics endpoint.** It normalises the phone number to a leading `+` and reads `hours` (default 24). It computes the window start as `now.Add(-time.Duration(hours) * time.Hour)`, an int64 product that wraps around for very large `hours` (see Findings). It then counts all and successful attempts from that instant on, and reports the failed count and the success rate.

## Modelling choices

**State**
- The Redis keyspace is a `map<string, CacheEntry>`. An entry holds a value and an optional expiry instant.
- The `otp_requests` table is a `seq<OtpRequest>` in insertion order.
- The `users` table is a map from phone number to row, plus the auto-increment counter.

**Classes**
- `OtpRepository`, `UserRepository`, `AuthService`, `AuthHandler` and `OTPStatsHandler` are classes whose methods update those fields.
- Read-only queries are functions with `reads` clauses.

**Specification functions**
- Each state-changing service call is also stated as a pure function over the repository contents: `RequestStep` and `VerifyStep`.
- The methods are proved equal to them, and the lemmas are stated about the functions.

**The clock**
- The clock is an explicit `now` parameter, in nanoseconds, the unit of Go's `time.Duration`.
- Every `time.Now()` inside one call reads the same `now`.

**Collaborators that can fail** are oracle parameters:
- An `Option<string>` per Redis or Postgres call: `None` means success, `Some(msg)` means the driver's error with that text.
- `rand: nat -> Draw` answers draw `i` of the code, either a digit or an error.

**Go library behaviour**
- `strings.TrimSpace`, `strings.HasPrefix` and `strconv.Atoi` are modelled on code points, with Go's white-space set and Atoi's sign and int64 range rules.
- The int64 wrap-around of `time.Duration` arithmetic is written out (`WrapInt64`).

**The model follows the code, not the documentation, in these places**
- `IncrementRequestCount` increments nothing. It counts the rows since `now - window`.
- The rate check is a strict `>` on the count taken before the attempt is recorded. So four calls in a window get past the check, and the fifth and later are rejected.
- Rejected attempts are recorded too, with `successful = false`.
- A failing ledger insert is ignored by the service.
- A failing user lookup of any kind sends `VerifyOTP` down the create path. If the phone already has a row, the insert then fails on the unique index.
- The stored code is not deleted after a successful verification, so it can be used again until it expires.

## Model

| member | source | states |
|---|---|---|
| `Common.WrapInt64` | internal/handler/otp_stats.go:52 | the int64 result of a Duration product: in range, congruent mod 2^64, the identity inside the range |
| `GoStrings.TrimLeft` | internal/handler/auth.go:22 | drops exactly a leading run of Unicode white space; the rest does not start with white space |
| `GoStrings.TrimRight` | internal/handler/auth.go:22 | drops exactly a trailing run of Unicode white space; the rest does not end with white space |
| `GoStrings.TrimSpace` | internal/handler/otp_stats.go:34 | the result is a contiguous piece of the input, everything cut off on either side is white space, and the result neither starts nor ends with white space |
| `GoStrings.TrimSpaceIdempotent` | internal/handler/auth.go:22 | trimming twice is trimming once |
| `GoStrings.Atoi` | internal/handler/otp_stats.go:46 | strconv.Atoi accepts only an optional sign followed by one or more ASCII digits, with a value in the int64 range, negative only after '-' |
| `GoStrings.AtoiOfDecimal` | internal/handler/otp_stats.go:46 | every non-negative int64 written in decimal is read back as itself |
| `GoStrings.AtoiRejectsMisplacedSign` | internal/handler/otp_stats.go:46-47 | a bare sign, or a sign anywhere but in front, is an Atoi error |
| `GoStrings.AtoiRejectsNonDigit` | internal/handler/otp_stats.go:46-47 | a string holding any character other than a sign or a digit is an Atoi error |
| `OtpRepo.OtpKey` | internal/repository/otp.go:32 | the Redis key is "otp:" followed by the phone number |
| `OtpRepo.Put` | internal/repository/otp.go:32 | SET writes the code under the phone's key, with expiry now + expiration when that is positive and none otherwise; every other key is untouched |
| `OtpRepo.Lookup` | internal/repository/otp.go:37 | GET succeeds iff the key is present and live, giving its value; otherwise redis.Nil |
| `OtpRepo.CountSince` | internal/repository/otp.go:57-59 | the count never exceeds the number of rows (`CountIsWindowSize` states which rows it counts) |
| `OtpRepo.CountSuccessfulSince` | internal/repository/otp.go:66-68 | the successful count never exceeds the number of rows (`CountSuccessfulIsWindowSize` states which rows it counts) |
| `OtpRepo.Append` | internal/repository/otp.go:46-53 | INSERT keeps the earlier rows as a prefix and adds the row (phone, now, successful) iff it does not fail |
| `OtpRepo.OtpKeyInjective` | internal/repository/otp.go:32-37 | distinct phone numbers never share a key |
| `OtpRepo.StoreThenGet` | internal/repository/otp.go:30-38 | after SET with a positive TTL, GET returns the code exactly before the TTL elapses and redis.Nil from then on |
| `OtpRepo.StoreOverwrites` | internal/repository/otp.go:30-33 | a second SET for the phone replaces the first code |
| `OtpRepo.StoreIsolated` | internal/repository/otp.go:30-38 | a SET for one phone leaves every other phone's GET unchanged |
| `OtpRepo.CountIsWindowSize` | internal/repository/otp.go:57-59 | the count is the number of rows with that phone and requested_at >= since (inclusive bound) |
| `OtpRepo.CountSuccessfulIsWindowSize` | internal/repository/otp.go:66-68 | the successful count is the number of such rows that are marked successful |
| `OtpRepo.SuccessfulAtMostTotal` | internal/repository/otp.go:55-70 | the successful count never exceeds the total count |
| `OtpRepo.CountsGrowWithWindow` | internal/repository/otp.go:55-70 | moving since earlier never lowers either count |
| `OtpRepo.CountConcat` | internal/repository/otp.go:55-70 | counts over appended rows add up |
| `OtpRepo.CountIgnoresOtherPhones` | internal/repository/otp.go:57-59 | a row for another phone changes neither count |
| `OtpRepo.OtpRepository.StoreOTP` | internal/repository/otp.go:30-33 | SET writes the phone's key with the TTL, or fails with the driver error and changes nothing |
| `OtpRepo.OtpRepository.GetOTP` | internal/repository/otp.go:35-38 | GET gives the stored value exactly when the call does not fail and the key is present and live; a failing call gives the driver error, and an absent or expired key gives redis.Nil |
| `OtpRepo.OtpRepository.IncrementRequestCount` | internal/repository/otp.go:40-44 | it is the row count from now - expiration on, and increments nothing |
| `OtpRepo.OtpRepository.RecordOTPRequest` | internal/repository/otp.go:46-53 | INSERT appends exactly one row (phone, now, successful), or fails and appends nothing |
| `OtpRepo.OtpRepository.GetRequestCount` | internal/repository/otp.go:55-62 | the number of the phone's rows requested at or after since, or the driver error |
| `OtpRepo.OtpRepository.GetSuccessfulRequestCount` | internal/repository/otp.go:64-70 | the number of those rows that are successful, never above the total, or the driver error |
| `UserRepo.InsertUser` | internal/repository/user.go:25-27 | insert succeeds iff no fault and the phone is new, keeps the table valid, and gives an ID no other row has |
| `UserRepo.UserRepository.Create` | internal/repository/user.go:25-27 | the table after Create is the insert's result; validity is kept |
| `UserRepo.UserRepository.FindByPhoneNumber` | internal/repository/user.go:29-33 | finds the phone's row exactly when it exists and the query does not fail |
| `Auth.DrawnCode` | internal/service/auth.go:123-136 | a generated code has the requested length and only decimal digits; a failure is a random-source error |
| `Auth.GeneratedCodeShape` | internal/service/auth.go:123-136 | generation succeeds iff every draw does, then gives `length` decimal digits, digit i from draw i; otherwise the first failed draw's error |
| `Auth.FailureIsFinal` | internal/service/auth.go:127-131 | the first RNG error ends generation with that error |
| `Auth.GenerateOTP` | internal/service/auth.go:123-136 | the loop over the buffer produces exactly the drawn code |
| `Auth.GenerateJWT` | internal/service/auth.go:112-121 | the claims carry the user's ID and phone and expire 24 hours after now, truncated to Unix seconds; signing can only fail |
| `Auth.RequestStep` | internal/service/auth.go:39-75 | success iff the count query works and sees at most 3 rows, the code is drawn and the store works; a failed draw returns the random source's error and a failed store the Redis error; the rate-limit error iff the count query works and sees more than 3 rows; earlier rows kept, one row (phone, now, success) appended iff the count query and the insert work; the cache changes only on success, to a six-digit code expiring now + 2 minutes |
| `Auth.VerifyStep` | internal/service/auth.go:77-110 | a verification keeps the users table valid; success needs the stored code to equal the candidate and gives claims for the phone; the table changes only by adding the phone's missing user, created now, after the lookup failed |
| `Auth.AuthService.RequestOTP` | internal/service/auth.go:39-75 | the call's error, cache and ledger are those of the request step |
| `Auth.AuthService.VerifyOTP` | internal/service/auth.go:77-110 | the call's result and users table are those of the verify step; the OTP store is untouched |
| `Auth.CountFailureChangesNothing` | internal/service/auth.go:41-44 | a failing count query returns its error and writes nothing |
| `Auth.RateLimitedAttempt` | internal/service/auth.go:46-50 | over the limit: rate-limit error, one unsuccessful row, cache unchanged |
| `Auth.OneRecordPerAttempt` | internal/service/auth.go:46-69 | past the count query, exactly one row is appended, successful iff the call succeeds; the cache changes only on success |
| `Auth.IssuesUnderLimit` | internal/service/auth.go:39-75 | under the limit, with every draw and collaborator working, the call issues a code |
| `Auth.RecordFaultIgnored` | internal/service/auth.go:48-69 | a failing ledger insert changes neither the result nor the cache |
| `Auth.IssuedCodeIsFresh` | internal/service/auth.go:52-66 | a successful call stores a six-digit code readable exactly until now + 2 minutes |
| `Auth.RequestIsolated` | internal/service/auth.go:39-75 | a call for one phone changes no other phone's code or counts |
| `Auth.VerifyRejectsMismatch` | internal/service/auth.go:79-87 | without a live stored code equal to the candidate, verification fails and creates nobody |
| `Auth.VerifyFindsOrCreates` | internal/service/auth.go:89-104 | on a match the existing user is reused, or a new one is created with a fresh ID |
| `Auth.VerifyLookupFaultOnExistingUser` | internal/service/auth.go:89-99 | a failing lookup for a phone that has a user goes down the create path, which fails on the unique index (or with the insert's own error) and changes nothing |
| `Auth.VerifyRepeatable` | internal/service/auth.go:77-110 | the code is not consumed: verifying it again succeeds for the same user and creates nobody |
| `Auth.IssueThenVerify` | internal/service/auth.go:39-110 | the issued code verifies before it expires and is rejected as expired from then on |
| `Auth.SecondIssuanceReplacesFirst` | internal/service/auth.go:60-66 | once a second code is stored, the first no longer verifies |
| `RateLimitRuns.CountRows` | internal/repository/otp.go:57-59 | every row a burst appends is in the window of a later call |
| `RateLimitRuns.RejectedIffOverLimit` | internal/service/auth.go:41-50 | a call is rate-limited iff the count it sees is above 3 |
| `RateLimitRuns.RunAppendsRows` | internal/service/auth.go:39-75 | a run of calls appends one row per call, in order, successful iff that call succeeded |
| `RateLimitRuns.CountBeforeLast` | internal/service/auth.go:41 | within a window, call n sees the n attempts before it |
| `RateLimitRuns.LastCallVerdict` | internal/service/auth.go:46-50 | the last call of a burst is rejected iff more than 3 calls came before it |
| `RateLimitRuns.RateLimitBurst` | internal/service/auth.go:41-50 | in a burst inside one window, calls 1-4 get past the check and call 5 and later are rejected |
| `RateLimitRuns.EveryAttemptRecorded` | internal/service/auth.go:46-69 | every attempt of a run, rejected or not, is counted by later queries |
| `AuthHandlers.NormalizePhoneNumber` | internal/handler/auth.go:21-27 | the result is the trimmed number, with "+" added unless it already starts with one |
| `AuthHandlers.NormalizeIdempotent` | internal/handler/auth.go:21-27 | normalising twice is normalising once |
| `AuthHandlers.NormalizeMergesSpellings` | internal/handler/auth.go:21-27 | "d", "+d" and " d\n" normalise alike, while their OTP keys differ |
| `Common.Message` | internal/handler/auth.go:59 | apart from a driver's own text, only the rate-limit error reads "rate limit exceeded" |
| `AuthHandlers.RequestOTPResponse` | internal/handler/auth.go:57-67 | 200 iff no error, 429 iff the error text is "rate limit exceeded", 500 otherwise, each with its payload |
| `AuthHandlers.VerifyOTPResponse` | internal/handler/auth.go:89-95 | any error is 401 "Invalid OTP"; success is 200 with the token |
| `AuthHandlers.TooManyRequestsIffRateLimited` | internal/handler/auth.go:59-61 | when no driver message happens to be that text, 429 iff the service rejected the call on the rate limit |
| `AuthHandlers.RawAttemptInvisibleToStats` | internal/handler/auth.go:57 | an attempt made with an unnormalised spelling is not counted by the statistics for the normalised number |
| `AuthHandlers.AuthHandler.RequestOTP` | internal/handler/auth.go:50-68 | a body that does not decode or lacks phone_number gives 400 and changes nothing; otherwise the raw phone goes to the service and its outcome is mapped |
| `AuthHandlers.AuthHandler.VerifyOTP` | internal/handler/auth.go:82-96 | a body that does not decode or lacks phone_number or otp gives 400 and changes nothing; otherwise the raw phone and code go to the service and its outcome is mapped |
| `OtpStats.ParseHours` | internal/handler/otp_stats.go:45-50 | absent means 24; otherwise accepted iff Atoi succeeds with a positive value |
| `OtpStats.ParseHoursOfDecimal` | internal/handler/otp_stats.go:45-50 | every positive int64 in decimal is accepted as itself |
| `OtpStats.ParseHoursRejects` | internal/handler/otp_stats.go:47 | zero, negatives and non-numbers are rejected |
| `OtpStats.WindowStartAsWritten` | internal/handler/otp_stats.go:52 | the window start as computed, with the int64 product wrapping around |
| `OtpStats.WindowStart` | internal/handler/otp_stats.go:52 | the intended window start: hours hours before now |
| `OtpStats.WindowStartAgrees` | internal/handler/otp_stats.go:52 | up to 2562047 hours the computed and intended starts coincide |
| `OtpStats.WindowStartOverflows` | internal/handler/otp_stats.go:52 | at 2562048 hours the computed start lies after now |
| `OtpStats.OverflowedWindowMissesRecentAttempt` | internal/handler/otp_stats.go:52-59 | at 2562048 hours an attempt one hour old is not counted as written, but is counted by the intended window |
| `OtpStats.LongerLookbackCountsMore` | internal/handler/otp_stats.go:52-66 | under the intended window start, a longer look-back never reports fewer requests |
| `OtpStats.SuccessRate` | internal/handler/otp_stats.go:68-72 | the rate lies in [0, 100], is 0 with no requests, and times the total equals 100 times the successes |
| `OtpStats.OTPStatsHandler.Report` | internal/handler/otp_stats.go:54-83 | each 500 answer under exactly its condition; otherwise both counts from since, failed = total - successful >= 0, and the success rate of those counts |
| `OtpStats.OTPStatsHandler.GetOTPStats` | internal/handler/otp_stats.go:33-84 | each 400 and 500 answer under exactly its condition; otherwise the normalised phone, the hours, the wrapping window start (the intended one up to 2562047 hours), both counts from it, failed = total - successful >= 0, and the success rate of those counts |
| `OtpStats.OTPStatsHandler.GetOTPStatsIntended` | internal/handler/otp_stats.go:33-84 | the handler with the window start `hours` hours before now: the start lies before now and both counts are taken from it |
| `OtpStats.IntendedAgreesWithinBound` | internal/handler/otp_stats.go:33-84 | the handler as written and as intended answer alike on every rejection and failure, and on success up to 2562047 hours |
| `OtpStats.StatsMissRecentAttemptPastBound` | internal/handler/otp_stats.go:45-84 | asked for hours=2562048 with one attempt an hour old, the handler reports 0 requests while the intended one reports 1 |

## Left out

- JWT signing (HS256 over the claims, with a secret that is never set) is not modelled. `GenerateJWT` returns the claims, and signing is a failure oracle.
- Sending the code is left out. The service prints it to the console.
- I/O is left out: the gin context, JSON encoding, RFC 3339 formatting of `since`, and the constant `"timezone": "UTC"` field.
- The Redis and Postgres drivers are reduced to their effect on the modelled state plus an error oracle.
- Concurrency is left out. Every call runs alone, so the count-then-record race between concurrent RequestOTP calls is not modelled.
- The success rate is computed on exact reals; the rounding of float64 division is left out.
- Postgres stores `requested_at` to the microsecond and the driver truncates `since` the same way, so the inclusive `>=` of the count queries compares microseconds. The model compares nanoseconds: a row in the same microsecond as `since` but earlier in it is counted by the program and not by the model.
- Redis expiry is simplified. `Live` treats a key as expired from the instant `now == expiresAt` on, while Redis keeps it through that millisecond and expires it only once the clock is past the expiry. The rounding of the TTL to milliseconds is left out too.
- go-redis sends KEEPTTL only for an expiration of exactly -1, keeping an existing TTL; the model stores every expiration of zero or less without TTL. The service always passes 2 minutes, so this path is not taken.
- Postgres ID sequences are reduced to a counter. Gaps after a failed insert are not modelled, and the otp_requests row ID is omitted.
- Every `time.Now()` of one call is read as the same `now`. The few nanoseconds between them are not modelled.
- Strings are sequences of code points. Byte-level UTF-8 handling, and invalid UTF-8 in a JSON body, are not modelled.
- JSON binding is reduced to "decodes or not" plus the two string fields, where an absent field is the empty string. Type errors and non-string values count as not decoding.
- The JWT middleware, the configuration loader, the health check, `main.go`, and the user service and listing endpoints are outside this model.
- `RateLimitRuns.RateLimitBurst`, `RateLimitRuns.CountBeforeLast` and `RateLimitRuns.RunAppendsRows` assume that the ledger insert and the count query do not fail during the run. A failing count changes nothing (`Auth.CountFailureChangesNothing`). A failing insert drops that one row (`Auth.RecordFaultIgnored`).

## Findings

| source | as written | input that shows it | evidently intended | confidence | as-written member | corrected member |
|---|---|---|---|---|---|---|
| internal/handler/otp_stats.go:52 | `-time.Duration(hours) * time.Hour` is an int64 product that wraps around for hours > 2562047; the window start then lies about 292 years after now | hours = 2562048 with an attempt one hour old: total_requests is 0 | look back `hours` hours, so the window always starts before now and a longer look-back counts at least as much | not executed | `OtpStats.WindowStartAsWritten` | `OtpStats.WindowStart` |

The discrepancy is exhibited by `OtpStats.WindowStartOverflows` and `OtpStats.OverflowedWindowMissesRecentAttempt`. The intended behaviour is proved by `OtpStats.WindowStartAgrees` and `OtpStats.LongerLookbackCountsMore`. `OtpStats.OTPStatsHandler.GetOTPStats` models the handler as written, with the wrapping window start. `OtpStats.OTPStatsHandler.GetOTPStatsIntended` is the handler with the corrected window start. `OtpStats.IntendedAgreesWithinBound` shows the two agree up to 2562047 hours. `OtpStats.StatsMissRecentAttemptPastBound` shows them disagree at the endpoint one hour past it.
