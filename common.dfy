/**
 * Values shared by every part of the OTP service model: the failure-carrying
 * wrappers, the error values the Go code passes around, and Go's time and
 * integer units.
 */
module Common {

  datatype Option<+T> = None | Some(value: T)

  datatype Result<+T, +E> = Success(value: T) | Failure(error: E)

  /** Go's time.Duration and the instants of time.Time are counted in nanoseconds. */
  const Second: int := 1_000_000_000
  const Minute: int := 60 * Second
  const Hour: int := 60 * Minute

  /** Bounds of Go's 64-bit `int`, `int64` and `time.Duration`. */
  const MinInt64: int := -0x8000_0000_0000_0000
  const MaxInt64: int := 0x7FFF_FFFF_FFFF_FFFF
  const TwoTo64: int := 0x1_0000_0000_0000_0000

  /** Two's-complement wrap-around of a 64-bit signed multiplication or addition. */
  function WrapInt64(x: int): (r: int)
    ensures MinInt64 <= r <= MaxInt64
    ensures (r - x) % TwoTo64 == 0
    ensures MinInt64 <= x <= MaxInt64 ==> r == x
  {
    var m := x % TwoTo64;
    if m <= MaxInt64 then m else m - TwoTo64
  }

  /**
   * The errors the Go code returns. Errors produced by the Redis and Postgres
   * drivers and by crypto/rand carry the driver's own message, which the model
   * takes as an oracle input.
   */
  datatype Error =
    | CacheMiss                 // redis.Nil: the key is absent or has expired
    | CacheError(msg: string)   // any other Redis failure
    | RecordNotFound            // gorm.ErrRecordNotFound
    | UniqueViolation           // insert refused by the unique index on phone_number
    | DbError(msg: string)      // any other Postgres failure
    | RandError(msg: string)    // crypto/rand could not produce a number
    | RateLimitExceeded         // fmt.Errorf("rate limit exceeded")
    | InvalidOrExpiredOtp       // fmt.Errorf("invalid or expired OTP")
    | InvalidOtp                // fmt.Errorf("invalid OTP")
    | SignError(msg: string)    // the JWT library refused to sign

  /** The text `err.Error()` returns, which the HTTP layer inspects. */
  function Message(e: Error): (r: string)
    ensures r == "rate limit exceeded" ==>
      e == RateLimitExceeded || e.CacheError? || e.DbError? || e.RandError? || e.SignError?
  {
    match e
    case CacheMiss => "redis: nil"
    case CacheError(m) => m
    case RecordNotFound => "record not found"
    // pgconn's text reads `ERROR: duplicate key value violates unique constraint "…" (SQLSTATE 23505)`;
    // only its difference from "rate limit exceeded" matters to the model.
    case UniqueViolation => "ERROR: duplicate key value violates unique constraint \"idx_users_phone_number\" (SQLSTATE 23505)"
    case DbError(m) => m
    case RandError(m) => m
    case RateLimitExceeded => "rate limit exceeded"
    case InvalidOrExpiredOtp => "invalid or expired OTP"
    case InvalidOtp => "invalid OTP"
    case SignError(m) => m
  }
}
