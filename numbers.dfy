/**
 * Integer arithmetic and decimal text as the .NET runtime performs it:
 * two's-complement wrap-around of `int` and `long`, C#'s truncating `/`,
 * `ToString()` of an integer, `int.Parse`/`long.Parse` with the default
 * number style, and the `"#,###,###,##0"` grouped format (invariant culture).
 */
module Numbers {
  import opened Wrappers

  const TWO_32: int := 0x1_0000_0000
  const TWO_64: int := 0x1_0000_0000_0000_0000
  const INT32_MIN: int := -0x8000_0000
  const INT32_MAX: int := 0x7FFF_FFFF
  const INT64_MIN: int := -0x8000_0000_0000_0000
  const INT64_MAX: int := 0x7FFF_FFFF_FFFF_FFFF

  predicate IsInt32(x: int) { INT32_MIN <= x <= INT32_MAX }
  predicate IsInt64(x: int) { INT64_MIN <= x <= INT64_MAX }

  /** Unchecked C# `int` arithmetic: the result modulo 2^32, as a signed value. */
  function Wrap32(x: int): (r: int)
    ensures IsInt32(r)
    ensures (x - r) % TWO_32 == 0
    ensures IsInt32(x) ==> r == x
  {
    (x - INT32_MIN) % TWO_32 + INT32_MIN
  }

  /** Unchecked C# `long` arithmetic: the result modulo 2^64, as a signed value. */
  function Wrap64(x: int): (r: int)
    ensures IsInt64(r)
    ensures (x - r) % TWO_64 == 0
    ensures IsInt64(x) ==> r == x
  {
    (x - INT64_MIN) % TWO_64 + INT64_MIN
  }

  function Abs(x: int): nat { if x < 0 then -x else x }

  /**
   * C#'s integer division by a positive divisor, which rounds toward zero
   * (Dafny's `/` is Euclidean):
   * the remainder is smaller than the divisor and never has the opposite sign
   * of the dividend.
   */
  function TruncDiv(a: int, b: int): (q: int)
    requires b > 0
    ensures Abs(a - q * b) < b
    ensures a - q * b == 0 || (a - q * b > 0 <==> a > 0)
    ensures a >= 0 ==> q == a / b
  {
    if a >= 0 then
      var q0 := a / b;
      assert a - q0 * b == a % b;
      q0
    else
      var q0 := (-a) / b;
      assert a - (-q0) * b == -((-a) % b);
      -q0
  }

  // ---- decimal digits --------------------------------------------------

  predicate IsDigit(c: char) { '0' <= c <= '9' }

  function DigitChar(d: nat): (c: char)
    requires d < 10
    ensures IsDigit(c) && c as int - '0' as int == d
  {
    ['0', '1', '2', '3', '4', '5', '6', '7', '8', '9'][d]
  }

  function DigitValue(c: char): nat
    requires IsDigit(c)
  {
    c as int - '0' as int
  }

  predicate AllDigits(s: string) { forall i :: 0 <= i < |s| ==> IsDigit(s[i]) }

  /** `ToString()` of a non-negative integer: shortest decimal form. */
  function NatToString(n: nat): (s: string)
    decreases n
  {
    if n < 10 then [DigitChar(n)] else NatToString(n / 10) + [DigitChar(n % 10)]
  }

  /** The value of a non-empty digit string, most significant digit first. */
  function DigitsValue(s: string): nat
    requires AllDigits(s)
  {
    if s == [] then 0 else DigitsValue(s[..|s| - 1]) * 10 + DigitValue(s[|s| - 1])
  }

  lemma {:induction false} NatToStringDigits(n: nat)
    ensures |NatToString(n)| >= 1 && AllDigits(NatToString(n))
    ensures DigitsValue(NatToString(n)) == n
    decreases n
  {
    if n >= 10 {
      NatToStringDigits(n / 10);
      var s := NatToString(n);
      assert s[..|s| - 1] == NatToString(n / 10);
    }
  }

  /** `ToString()` of an `int` or `long` (invariant culture). */
  function FormatInt(n: int): (s: string)
  {
    if n < 0 then "-" + NatToString(-n) else NatToString(n)
  }

  lemma FormatIntShape(n: int)
    ensures |FormatInt(n)| >= 1
    ensures forall i :: 0 <= i < |FormatInt(n)| ==> FormatInt(n)[i] == '-' || IsDigit(FormatInt(n)[i])
    ensures n >= 0 ==> AllDigits(FormatInt(n))
  {
    NatToStringDigits(Abs(n));
  }

  // ---- int.Parse / long.Parse -----------------------------------------

  /** White space that the default number style tolerates around the digits. */
  predicate IsNumberWhite(c: char)
  {
    c == '\t' || c == '\n' || c == '\U{000B}' || c == '\U{000C}' || c == '\r' || c == ' '
  }

  function TrimNumberWhite(s: string): (t: string)
    ensures |t| <= |s|
    ensures t == [] || (!IsNumberWhite(t[0]) && !IsNumberWhite(t[|t| - 1]))
    decreases |s|
  {
    if s == [] then s
    else if IsNumberWhite(s[0]) then TrimNumberWhite(s[1..])
    else if IsNumberWhite(s[|s| - 1]) then TrimNumberWhite(s[..|s| - 1])
    else s
  }

  /**
   * `int.Parse` (lo, hi = the `int` range) or `long.Parse` (the `long` range):
   * optional surrounding white space, an optional sign, at least one digit.
   * `None` is the FormatException or OverflowException the source throws.
   */
  function ParseInteger(s: string, lo: int, hi: int): (r: Option<int>)
    ensures r.Some? ==> lo <= r.value <= hi
  {
    var t := TrimNumberWhite(s);
    var negative := |t| > 0 && t[0] == '-';
    var body := if |t| > 0 && (t[0] == '-' || t[0] == '+') then t[1..] else t;
    if body == [] || !AllDigits(body) then None
    else
      var v: int := if negative then -(DigitsValue(body) as int) else DigitsValue(body);
      if lo <= v <= hi then Some(v) else None
  }

  function ParseInt32(s: string): (r: Option<int>)
    ensures r.Some? ==> IsInt32(r.value)
  {
    ParseInteger(s, INT32_MIN, INT32_MAX)
  }

  function ParseInt64(s: string): (r: Option<int>)
    ensures r.Some? ==> IsInt64(r.value)
  {
    ParseInteger(s, INT64_MIN, INT64_MAX)
  }

  /** Parsing what `ToString()` printed gives the number back. */
  lemma ParseFormatInteger(n: int, lo: int, hi: int)
    requires lo <= n <= hi
    ensures ParseInteger(FormatInt(n), lo, hi) == Some(n)
  {
    NatToStringDigits(Abs(n));
    var s := FormatInt(n);
    assert TrimNumberWhite(s) == s by {
      FormatIntShape(n);
      assert !IsNumberWhite(s[0]) && !IsNumberWhite(s[|s| - 1]);
    }
    if n < 0 {
      assert s[1..] == NatToString(-n);
    }
  }

  lemma ParseFormatInt32(n: int)
    requires IsInt32(n)
    ensures ParseInt32(FormatInt(n)) == Some(n)
  {
    ParseFormatInteger(n, INT32_MIN, INT32_MAX);
  }

  lemma ParseFormatInt64(n: int)
    requires IsInt64(n)
    ensures ParseInt64(FormatInt(n)) == Some(n)
  {
    ParseFormatInteger(n, INT64_MIN, INT64_MAX);
  }

  // ---- "#,###,###,##0" --------------------------------------------------

  /** Three digits with leading zeros, as a digit group after a separator. */
  function Group3(k: nat): (s: string)
    requires k < 1000
    ensures |s| == 3 && AllDigits(s)
  {
    [DigitChar(k / 100), DigitChar(k / 10 % 10), DigitChar(k % 10)]
  }

  function GroupedNat(n: nat): string
    decreases n
  {
    if n < 1000 then NatToString(n) else GroupedNat(n / 1000) + "," + Group3(n % 1000)
  }

  /** `string.Format("{0:#,###,###,##0}", n)` in the invariant culture. */
  function Grouped(n: int): string
  {
    if n < 0 then "-" + GroupedNat(-n) else GroupedNat(n)
  }

  function RemoveCommas(s: string): (t: string)
  {
    if s == [] then [] else (if s[0] == ',' then [] else [s[0]]) + RemoveCommas(s[1..])
  }

  lemma RemoveCommasAppend(a: string, b: string)
    ensures RemoveCommas(a + b) == RemoveCommas(a) + RemoveCommas(b)
  {
    if a == [] {
      assert a + b == b;
    } else {
      assert (a + b)[1..] == a[1..] + b;
      RemoveCommasAppend(a[1..], b);
    }
  }

  lemma RemoveCommasDigits(s: string)
    requires AllDigits(s)
    ensures RemoveCommas(s) == s
  {
    if s != [] {
      RemoveCommasDigits(s[1..]);
    }
  }

  /** The decimal form of q * 1000 + k is that of q followed by k as three digits. */
  lemma NatToStringThousands(q: nat, k: nat)
    requires q >= 1 && k < 1000
    ensures NatToString(q * 1000 + k) == NatToString(q) + Group3(k)
  {
    var n := q * 1000 + k;
    assert n / 10 == q * 100 + k / 10 && n % 10 == k % 10;
    var n1 := n / 10;
    assert n1 / 10 == q * 10 + k / 100 && n1 % 10 == k / 10 % 10;
    var n2 := n1 / 10;
    assert n2 / 10 == q && n2 % 10 == k / 100;
    assert NatToString(n) == NatToString(n1) + [DigitChar(k % 10)];
    assert NatToString(n1) == NatToString(n2) + [DigitChar(k / 10 % 10)];
    assert NatToString(n2) == NatToString(q) + [DigitChar(k / 100)];
  }

  /** The grouped form is the plain decimal form with separators inserted. */
  lemma {:induction false} GroupedIsDecimal(n: int)
    ensures RemoveCommas(Grouped(n)) == FormatInt(n)
  {
    if n < 0 {
      GroupedNatIsDecimal(-n);
      RemoveCommasAppend("-", GroupedNat(-n));
    } else {
      GroupedNatIsDecimal(n);
    }
  }

  lemma {:induction false} GroupedNatIsDecimal(n: nat)
    ensures RemoveCommas(GroupedNat(n)) == NatToString(n)
    decreases n
  {
    NatToStringDigits(n);
    if n < 1000 {
      RemoveCommasDigits(NatToString(n));
    } else {
      var q, k := n / 1000, n % 1000;
      GroupedNatIsDecimal(q);
      RemoveCommasAppend(GroupedNat(q) + ",", Group3(k));
      RemoveCommasAppend(GroupedNat(q), ",");
      RemoveCommasDigits(Group3(k));
      NatToStringThousands(q, k);
    }
  }
}
