/**
 * The parts of Go's `strings` and `strconv` packages the handlers rely on:
 * strings.TrimSpace, strings.HasPrefix and strconv.Atoi, on strings taken
 * as sequences of Unicode code points.
 */
module GoStrings {
  import opened Common

  /** unicode.IsSpace: the code points strings.TrimSpace removes. */
  predicate IsSpace(c: char)
  {
    || c == ' '
    || ('\t' <= c <= '\r')
    || c == '\U{85}'
    || c == '\U{A0}'
    || c == '\U{1680}'
    || ('\U{2000}' <= c <= '\U{200A}')
    || c == '\U{2028}'
    || c == '\U{2029}'
    || c == '\U{202F}'
    || c == '\U{205F}'
    || c == '\U{3000}'
  }

  /** Drops the leading white space: what is dropped is all space, what is left does not start with space. */
  function TrimLeft(s: string): (r: string)
    ensures |r| <= |s| && r == s[|s| - |r|..]
    ensures forall k :: 0 <= k < |s| - |r| ==> IsSpace(s[k])
    ensures r == [] || !IsSpace(r[0])
  {
    if |s| > 0 && IsSpace(s[0]) then TrimLeft(s[1..]) else s
  }

  /** Drops the trailing white space: what is dropped is all space, what is left does not end with space. */
  function TrimRight(s: string): (r: string)
    ensures |r| <= |s| && r == s[..|r|]
    ensures forall k :: |r| <= k < |s| ==> IsSpace(s[k])
    ensures r == [] || !IsSpace(r[|r| - 1])
  {
    if |s| > 0 && IsSpace(s[|s| - 1]) then TrimRight(s[..|s| - 1]) else s
  }

  /** `r` is the piece of `s` that starts at `a`, and everything around it is white space. */
  predicate CutFrom(s: string, r: string, a: int)
  {
    && 0 <= a <= |s| - |r| && r == s[a..a + |r|]
    && (forall k :: 0 <= k < a ==> IsSpace(s[k]))
    && (forall k :: a + |r| <= k < |s| ==> IsSpace(s[k]))
  }

  /**
   * strings.TrimSpace: the result is a contiguous piece of `s`, everything
   * cut off on either side is white space, and the result neither starts nor
   * ends with white space.
   */
  function TrimSpace(s: string): (r: string)
    ensures |r| <= |s|
    ensures exists a :: CutFrom(s, r, a)
    ensures r == [] || (!IsSpace(r[0]) && !IsSpace(r[|r| - 1]))
  {
    CutOfTrims(s, TrimLeft(s), TrimRight(TrimLeft(s)));
    TrimRight(TrimLeft(s))
  }

  /** A left trim followed by a right trim cuts the result out of `s` after what the left trim dropped. */
  lemma CutOfTrims(s: string, left: string, r: string)
    requires |left| <= |s| && left == s[|s| - |left|..]
    requires forall k :: 0 <= k < |s| - |left| ==> IsSpace(s[k])
    requires |r| <= |left| && r == left[..|r|]
    requires forall k :: |r| <= k < |left| ==> IsSpace(left[k])
    ensures CutFrom(s, r, |s| - |left|)
  {
    var a := |s| - |left|;
    assert r == s[a..a + |r|];
    forall k | a + |r| <= k < |s|
      ensures IsSpace(s[k])
    {
      assert s[k] == left[k - a];
    }
  }

  /** A string that neither starts nor ends with white space is its own TrimSpace. */
  lemma TrimSpaceFixed(s: string)
    requires s == [] || (!IsSpace(s[0]) && !IsSpace(s[|s| - 1]))
    ensures TrimSpace(s) == s
  {
  }

  /** TrimSpace removes a leading blank and a trailing newline around a trimmed string. */
  lemma TrimSpaceDropsPadding(s: string)
    requires s != [] && !IsSpace(s[0]) && !IsSpace(s[|s| - 1])
    ensures TrimSpace(" " + s + "\n") == s
  {
    var padded := " " + s + "\n";
    var tail := s + "\n";
    assert padded[1..] == tail;
    assert TrimLeft(padded) == TrimLeft(tail) == tail;
    assert tail[..|tail| - 1] == s;
    assert TrimRight(tail) == TrimRight(s) == s;
  }

  /** TrimSpace is idempotent. */
  lemma TrimSpaceIdempotent(s: string)
    ensures TrimSpace(TrimSpace(s)) == TrimSpace(s)
  {
    TrimSpaceFixed(TrimSpace(s));
  }

  /** strings.HasPrefix(s, "+"). */
  predicate HasPlusPrefix(s: string)
  {
    |s| > 0 && s[0] == '+'
  }

  predicate IsDigit(c: char)
  {
    '0' <= c <= '9'
  }

  predicate AllDigits(s: string)
  {
    forall k :: 0 <= k < |s| ==> IsDigit(s[k])
  }

  /** The value of a string of decimal digits, most significant first. */
  function DigitsValue(s: string): (n: nat)
    requires AllDigits(s)
  {
    if s == [] then 0
    else 10 * DigitsValue(s[..|s| - 1]) + (s[|s| - 1] as int - '0' as int)
  }

  /**
   * strconv.Atoi on a 64-bit platform: an optional '+' or '-', then one or
   * more ASCII digits, whose value must fit in `int`; anything else is an error.
   */
  function Atoi(s: string): (r: Option<int>)
    ensures r.Some? ==> MinInt64 <= r.value <= MaxInt64
    ensures r.Some? ==> |s| > 0 && (IsDigit(s[0]) || s[0] == '+' || s[0] == '-')
    ensures r.Some? && r.value < 0 ==> s[0] == '-'
    ensures r.Some? ==> var d := s[if s[0] == '+' || s[0] == '-' then 1 else 0..]; d != [] && AllDigits(d)
  {
    if |s| == 0 then None
    else
      var digits := if s[0] == '+' || s[0] == '-' then s[1..] else s;
      if digits == [] || !AllDigits(digits) then None
      else
        var v: int := if s[0] == '-' then -(DigitsValue(digits) as int) else DigitsValue(digits);
        if MinInt64 <= v <= MaxInt64 then Some(v) else None
  }

  /** The decimal rendering of a natural number (strconv.Itoa on n >= 0). */
  function Decimal(n: nat): (s: string)
    ensures |s| > 0 && AllDigits(s)
  {
    if n < 10 then ['0' + n as char]
    else Decimal(n / 10) + ['0' + (n % 10) as char]
  }

  /** Reading back a decimal rendering gives the number. */
  lemma {:induction false} DigitsValueOfDecimal(n: nat)
    ensures DigitsValue(Decimal(n)) == n
  {
    var s := Decimal(n);
    if n >= 10 {
      DigitsValueOfDecimal(n / 10);
      assert s[..|s| - 1] == Decimal(n / 10);
    }
  }

  /** Atoi accepts the decimal rendering of every non-negative `int` and returns it. */
  lemma AtoiOfDecimal(n: nat)
    requires n <= MaxInt64
    ensures Atoi(Decimal(n)) == Some(n)
  {
    DigitsValueOfDecimal(n);
  }

  /** Atoi rejects a sign anywhere but in front, and a sign with no digits after it. */
  lemma AtoiRejectsMisplacedSign(s: string, k: nat)
    requires k < |s| && (s[k] == '+' || s[k] == '-')
    requires k > 0 || |s| == 1
    ensures Atoi(s) == None
  {
    if k > 0 {
      var digits := if s[0] == '+' || s[0] == '-' then s[1..] else s;
      assert digits[k - (|s| - |digits|)] == s[k];
    }
  }

  /** Atoi rejects any string holding a character that is neither a sign nor a digit. */
  lemma {:induction false} AtoiRejectsNonDigit(s: string, k: nat)
    requires k < |s| && !IsDigit(s[k]) && s[k] != '+' && s[k] != '-'
    ensures Atoi(s) == None
  {
    if k > 0 {
      var digits := if s[0] == '+' || s[0] == '-' then s[1..] else s;
      assert digits[k - (|s| - |digits|)] == s[k];
    }
  }
}
