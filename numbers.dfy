/** Decimal text and the C++ standard-library number conversions the sources
    rely on: `std::to_string` and stream output of unsigned numbers,
    `std::setw`/`std::setfill('0')` padding, and `std::stoul`, `std::stoull`
    and `std::stoi` (which skip leading white space, accept one sign, read
    the longest run of decimal digits and throw when there is no digit or
    the value is out of range). Integers are 64-bit `long` as on LP64. */
module Numbers {
  import opened Wrappers

  const ULONG_MAX: int := 0xFFFF_FFFF_FFFF_FFFF
  const TWO64: int := 0x1_0000_0000_0000_0000
  const INT_MIN: int := -0x8000_0000
  const INT_MAX: int := 0x7FFF_FFFF

  predicate IsDigit(c: char)
  {
    '0' <= c <= '9'
  }

  function DigitValue(c: char): nat
    requires IsDigit(c)
  {
    c as int - '0' as int
  }

  function DigitChar(d: nat): (c: char)
    requires d < 10
    ensures IsDigit(c) && DigitValue(c) == d
  {
    (d + '0' as int) as char
  }

  predicate AllDigits(s: string)
  {
    forall i :: 0 <= i < |s| ==> IsDigit(s[i])
  }

  /** The value of a run of decimal digits, most significant first. */
  function DigitsValue(s: string): nat
    requires AllDigits(s)
  {
    if s == [] then 0 else DigitsValue(s[..|s| - 1]) * 10 + DigitValue(s[|s| - 1])
  }

  /** Shortest decimal text of n, as `std::to_string` and `operator<<` write it. */
  function NatToString(n: nat): (r: string)
    ensures |r| > 0 && AllDigits(r)
    ensures |r| > 1 ==> r[0] != '0'
  {
    if n < 10 then [DigitChar(n)] else NatToString(n / 10) + [DigitChar(n % 10)]
  }

  lemma {:induction false} NatToStringRoundTrip(n: nat)
    ensures DigitsValue(NatToString(n)) == n
  {
    if n >= 10 {
      NatToStringRoundTrip(n / 10);
      var s := NatToString(n);
      assert s[..|s| - 1] == NatToString(n / 10);
    }
  }

  function Zeros(k: nat): (r: string)
    ensures |r| == k && AllDigits(r)
  {
    if k == 0 then [] else Zeros(k - 1) + ['0']
  }

  /** `std::setfill('0') << std::setw(width) << n`: at least `width` characters. */
  function PadZero(n: nat, width: nat): (r: string)
    ensures AllDigits(r)
  {
    var s := NatToString(n);
    if |s| < width then Zeros(width - |s|) + s else s
  }

  lemma {:induction false} DigitsValueLeadingZeros(k: nat, s: string)
    requires AllDigits(s)
    ensures AllDigits(Zeros(k) + s) && DigitsValue(Zeros(k) + s) == DigitsValue(s)
    decreases |s|
  {
    if s == [] {
      ZerosValue(k);
      assert Zeros(k) + s == Zeros(k);
    } else {
      var t := Zeros(k) + s;
      assert t[..|t| - 1] == Zeros(k) + s[..|s| - 1];
      DigitsValueLeadingZeros(k, s[..|s| - 1]);
    }
  }

  lemma {:induction false} ZerosValue(k: nat)
    ensures DigitsValue(Zeros(k)) == 0
  {
    if k > 0 {
      ZerosValue(k - 1);
      assert Zeros(k)[..k - 1] == Zeros(k - 1);
    }
  }

  function Pow10(k: nat): nat
  {
    if k == 0 then 1 else 10 * Pow10(k - 1)
  }

  lemma {:induction false} Pow10Monotone(a: nat, b: nat)
    requires a <= b
    ensures Pow10(a) <= Pow10(b)
    decreases b
  {
    if a < b {
      Pow10Monotone(a, b - 1);
    }
  }

  /** k digits stand for less than 10^k. */
  lemma {:induction false} DigitsValueBelow(s: string)
    requires AllDigits(s)
    ensures DigitsValue(s) < Pow10(|s|)
  {
    if s != [] {
      DigitsValueBelow(s[..|s| - 1]);
    }
  }

  lemma {:induction false} NatToStringLength(n: nat, k: nat)
    requires n < Pow10(k)
    ensures |NatToString(n)| <= if k == 0 then 1 else k
  {
    if n >= 10 {
      assert Pow10(0) == 1 && Pow10(1) == 10;
      NatToStringLength(n / 10, k - 1);
    }
  }

  /** Digits are none of the separators the parsers cut at. */
  lemma DigitsNoSeparator(d: string)
    requires AllDigits(d)
    ensures ':' !in d && ',' !in d && ' ' !in d && '\n' !in d && '\r' !in d
  {
  }

  /** Padding with zeros never changes the value that is read back. */
  lemma PadZeroValue(n: nat, width: nat)
    ensures DigitsValue(PadZero(n, width)) == n
  {
    var s := NatToString(n);
    NatToStringRoundTrip(n);
    if |s| < width {
      DigitsValueLeadingZeros(width - |s|, s);
    }
  }

  /** A number with fewer digits than the width is padded to the width. */
  lemma PadZeroLength(n: nat, width: nat)
    requires n < Pow10(width) && width > 0
    ensures |PadZero(n, width)| == width
  {
    NatToStringLength(n, width);
  }

  /** `isspace` in the "C" locale. */
  predicate IsSpace(c: char)
  {
    c == ' ' || c == '\t' || c == '\n' || c == '\r' || c as int == 11 || c as int == 12
  }

  /** Number of characters from `i` on that satisfy `IsSpace`. */
  function SpaceRun(s: string, i: nat): (k: nat)
    requires i <= |s|
    ensures i + k <= |s|
    ensures forall j :: i <= j < i + k ==> IsSpace(s[j])
    ensures i + k < |s| ==> !IsSpace(s[i + k])
    decreases |s| - i
  {
    if i < |s| && IsSpace(s[i]) then 1 + SpaceRun(s, i + 1) else 0
  }

  /** Number of decimal digits from `i` on. */
  function DigitRun(s: string, i: nat): (k: nat)
    requires i <= |s|
    ensures i + k <= |s| && AllDigits(s[i..i + k])
    ensures i + k < |s| ==> !IsDigit(s[i + k])
    decreases |s| - i
  {
    if i < |s| && IsDigit(s[i]) then
      var k := DigitRun(s, i + 1);
      assert s[i..i + 1 + k] == [s[i]] + s[i + 1..i + 1 + k];
      1 + k
    else 0
  }

  /** What `strtol`/`strtoul` read: white space, one optional sign, then the
      longest run of digits. None when there is no digit (the conversion
      functions then throw `std::invalid_argument`). The result is the signed
      mathematical value, before any range check. */
  function ScanInteger(s: string): (r: Option<int>)
    ensures r.Some? ==> exists i :: 0 <= i < |s| && IsDigit(s[i])
  {
    var w := SpaceRun(s, 0);
    var negative := w < |s| && s[w] == '-';
    var d := if w < |s| && (s[w] == '-' || s[w] == '+') then w + 1 else w;
    var k := DigitRun(s, d);
    if k == 0 then None
    else
      var mag: int := DigitsValue(s[d..d + k]);
      assert IsDigit(s[d..d + k][0]);
      Some(if negative then -mag else mag)
  }

  /** `std::stoul` (and `std::stoull`, the same width on LP64): out-of-range
      magnitudes throw; a negative value is negated in unsigned arithmetic. */
  function Stoul(s: string): (r: Option<nat>)
    ensures r.Some? ==> r.value <= ULONG_MAX
  {
    match ScanInteger(s)
    case None => None
    case Some(v) =>
      if v > ULONG_MAX || -v > ULONG_MAX then None else Some(v % TWO64)
  }

  /** `std::stoi`: throws unless the value fits a 32-bit `int`. */
  function Stoi(s: string): (r: Option<int>)
    ensures r.Some? ==> INT_MIN <= r.value <= INT_MAX
  {
    match ScanInteger(s)
    case None => None
    case Some(v) => if INT_MIN <= v <= INT_MAX then Some(v) else None
  }

  /** A non-empty run of digits is read whole. */
  lemma ScanDigits(s: string)
    requires s != [] && AllDigits(s)
    ensures ScanInteger(s) == Some(DigitsValue(s))
  {
    assert IsDigit(s[0]);
    assert SpaceRun(s, 0) == 0;
    DigitRunAll(s, 0);
    assert s[0..|s|] == s;
  }

  lemma ScanDecimal(n: nat)
    ensures ScanInteger(NatToString(n)) == Some(n)
  {
    ScanDigits(NatToString(n));
    NatToStringRoundTrip(n);
  }

  lemma {:induction false} DigitRunAll(s: string, i: nat)
    requires i <= |s| && AllDigits(s)
    ensures DigitRun(s, i) == |s| - i
    decreases |s| - i
  {
    if i < |s| {
      DigitRunAll(s, i + 1);
    }
  }

  /** `std::stoul` reads back what `std::to_string` wrote. */
  lemma StoulOfDecimal(n: nat)
    requires n <= ULONG_MAX
    ensures Stoul(NatToString(n)) == Some(n)
  {
    ScanDecimal(n);
    StoulOfScan(NatToString(n), n);
  }

  lemma StoulOfScan(s: string, n: nat)
    requires ScanInteger(s) == Some(n) && n <= ULONG_MAX
    ensures Stoul(s) == Some(n)
  {
    assert n % TWO64 == n;
  }

  /** `std::stoi` reads back what `std::to_string` wrote, for values of `int`. */
  lemma StoiOfDecimal(n: nat)
    requires n <= INT_MAX
    ensures Stoi(NatToString(n)) == Some(n)
  {
    ScanDecimal(n);
  }

  /** A text without any digit is rejected by every conversion. */
  lemma NoDigitNoNumber(s: string)
    requires forall i :: 0 <= i < |s| ==> !IsDigit(s[i])
    ensures Stoul(s).None? && Stoi(s).None?
  {
    var w := SpaceRun(s, 0);
    var d := if w < |s| && (s[w] == '-' || s[w] == '+') then w + 1 else w;
    assert DigitRun(s, d) == 0;
  }
}
