/** Subtitle times on their way from the frame creator to the muxer: the
    newer frame creator writes each time as "HH:MM:SS.mmm"
    (`format_duration`, subtitle-renderer/src/pgsframecreator.cpp:30-48),
    and the muxer reads it back with
    `sscanf(t, "%2d:%2d:%2d.%3d", ...)` (PGSEncoder/main.c:449-450) before
    turning it into milliseconds (main.c:470-471). The older frame creator
    wrote 90 kHz ticks itself (`pgsTimestamp`,
    SubtitleRenderer/pgsframecreator.cpp:18-22). */
module FrameTime {
  import opened Wrappers
  import opened Numbers
  import opened PgsSegments

  const HOUR_MS: nat := 3600000
  const MINUTE_MS: nat := 60000

  const TWO63: int := 0x8000_0000_0000_0000

  /** `std::chrono::milliseconds ms(_ms)`: the unsigned 64-bit time read as
      the signed 64-bit count of the duration. */
  function SignedCount(ms: nat): (v: int)
    ensures -TWO63 <= v < TWO63
    ensures (v - ms) % TWO64 == 0
    ensures ms < TWO63 ==> v == ms
  {
    var u := ms % TWO64;
    if u < TWO63 then u else u - TWO64
  }

  /** `duration_cast` to a coarser unit: division truncated toward zero. */
  function Quot(a: int, b: nat): (q: int)
    requires b > 0
    ensures a >= 0 ==> q == a / b && 0 <= a - q * b < b
    ensures a < 0 ==> q <= 0 && -(b as int) < a - q * b <= 0
  {
    if a >= 0 then a / b
    else
      assert (-a) == ((-a) / b) * b + (-a) % b;
      -((-a) / b)
  }

  /** The clock fields `format_duration` computes with `duration_cast`,
      which truncates toward zero; hours are not reduced modulo anything.
      A time of 2^63 ms or more is a negative count, and its fields are
      then negative or zero. */
  function DurationClock(ms: nat): (c: Clock)
    ensures ClockMs(c) == SignedCount(ms)
    ensures -60 < c.m < 60 && -60 < c.s < 60 && -1000 < c.ms < 1000
    ensures SignedCount(ms) >= 0 ==>
      && c.h == SignedCount(ms) / HOUR_MS && 0 <= c.m && 0 <= c.s && 0 <= c.ms
    ensures SignedCount(ms) < 0 ==> c.h <= 0 && c.m <= 0 && c.s <= 0 && c.ms <= 0
  {
    var v := SignedCount(ms);
    var secs := Quot(v, 1000);
    var mins := Quot(secs, 60);
    var hours := Quot(mins, 60);
    Clock(hours, mins - hours * 60, secs - mins * 60, v - secs * 1000)
  }

  /** `stream << setfill('0') << setw(width) << v` for a signed count: the
      sign and the digits, with zeros filled in front of both (the stream's
      default right adjustment). */
  function PadSigned(v: int, width: nat): (r: string)
    ensures v >= 0 ==> r == PadZero(v, width)
    ensures v < 0 <==> '-' in r
  {
    if v >= 0 then
      PadZero(v, width)
    else
      var s := "-" + NatToString(-v);
      var r := if |s| < width then Zeros(width - |s|) + s else s;
      assert r[|r| - |s|] == '-';
      r
  }

  /** `format_duration`: the fields zero-padded to two, two, two and three
      characters. A minus sign appears exactly when the time is read as a
      negative count, that is from 2^63 ms on. */
  function FormatDuration(ms: nat): (r: string)
    ensures SignedCount(ms) < 0 <==> '-' in r
  {
    var c := DurationClock(ms);
    var a, b, d, e := PadSigned(c.h, 2), PadSigned(c.m, 2), PadSigned(c.s, 2), PadSigned(c.ms, 3);
    assert SignedCount(ms) < 0 ==> c.h < 0 || c.m < 0 || c.s < 0 || c.ms < 0;
    var r := a + ":" + b + ":" + d + "." + e;
    assert '-' in r <==> '-' in a || '-' in b || '-' in d || '-' in e;
    r
  }

  /** The end of the digits `%Nd` may take from `from` on: digits only, and
      no further than `bound`. */
  function DigitsUpTo(s: string, from: nat, bound: nat): (k: nat)
    requires from <= |s|
    ensures from <= k <= |s| && AllDigits(s[from..k])
    ensures from < k ==> k <= bound
    decreases |s| - from
  {
    if from == |s| || from >= bound || !IsDigit(s[from]) then from
    else
      var k := DigitsUpTo(s, from + 1, bound);
      assert s[from..k] == [s[from]] + s[from + 1..k];
      k
  }

  /** One `%Nd` conversion of `sscanf` from index `i`: white space is
      skipped, then at most `width` characters are read, an optional sign
      and decimal digits, of which there must be at least one. The value
      and the index after it, or None on a matching failure. */
  function ScanField(s: string, i: nat, width: nat): (r: Option<(int, nat)>)
    requires i <= |s| && width >= 1
    ensures r.Some? ==> i < r.value.1 <= |s|
    ensures r.Some? ==> -(Pow10(width - 1) as int) < r.value.0 < Pow10(width)
  {
    var j := i + SpaceRun(s, i);
    var signed := j < |s| && (s[j] == '+' || s[j] == '-');
    var d := if signed then j + 1 else j;
    var e := DigitsUpTo(s, d, j + width);
    if e == d then None
    else
      var v: int := DigitsValue(s[d..e]);
      DigitsValueBelow(s[d..e]);
      Pow10Monotone(e - d, if signed then width - 1 else width);
      Pow10Monotone(width - 1, width);
      Some((if signed && s[j] == '-' then -v else v, e))
  }

  /** A literal character of the format must be the next character. */
  predicate LiteralAt(s: string, i: nat, c: char)
  {
    i < |s| && s[i] == c
  }

  /** `sscanf(t, "%2d:%2d:%2d.%3d", &h, &m, &s, &ms)` when all four
      conversions succeed; None when the text stops matching earlier (the
      muxer then goes on with whatever the variables held, which is not
      modelled). Text after the milliseconds is ignored. */
  function ScanClock(t: string): (r: Option<Clock>)
    ensures r.Some? ==> -10 < r.value.h < 100 && -10 < r.value.m < 100 && -10 < r.value.s < 100
    ensures r.Some? ==> -100 < r.value.ms < 1000
  {
    assert Pow10(1) == 10 && Pow10(2) == 100 && Pow10(3) == 1000 by {
      assert Pow10(0) == 1;
    }
    match ScanField(t, 0, 2)
    case None => None
    case Some((h, i)) =>
      if !LiteralAt(t, i, ':') then None else
      match ScanField(t, i + 1, 2)
      case None => None
      case Some((m, j)) =>
        if !LiteralAt(t, j, ':') then None else
        match ScanField(t, j + 1, 2)
        case None => None
        case Some((sec, k)) =>
          if !LiteralAt(t, k, '.') then None else
          match ScanField(t, k + 1, 3)
          case None => None
          case Some((ms, _)) => Some(Clock(h, m, sec, ms))
  }

  /** Digits stop where the bound or the first non-digit is. */
  lemma {:induction false} DigitsUpToAll(s: string, from: nat, bound: nat)
    requires from <= bound <= |s| && AllDigits(s[from..bound])
    requires bound == |s| || !IsDigit(s[bound])
    ensures DigitsUpTo(s, from, bound) == bound
    decreases bound - from
  {
    if from < bound {
      assert IsDigit(s[from..bound][0]);
      assert s[from + 1..bound] == s[from..bound][1..];
      DigitsUpToAll(s, from + 1, bound);
    }
  }

  /** A `%Nd` conversion reads exactly N digits back when no digit
      follows them. */
  lemma FieldOfDigits(s: string, i: nat, width: nat)
    requires width >= 1 && i + width <= |s| && AllDigits(s[i..i + width])
    requires i + width == |s| || !IsDigit(s[i + width])
    ensures ScanField(s, i, width) == Some((DigitsValue(s[i..i + width]) as int, i + width))
  {
    assert IsDigit(s[i..i + width][0]);
    assert SpaceRun(s, i) == 0;
    assert !(s[i] == '+' || s[i] == '-');
    DigitsUpToAll(s, i, i + width);
  }

  /** The format read over a text with digit fields at 0-1, 3-4, 6-7 and
      9-11 and the separators between them. */
  lemma ScanClockOfFields(t: string)
    requires |t| == 12 && t[2] == ':' && t[5] == ':' && t[8] == '.'
    requires AllDigits(t[0..2]) && AllDigits(t[3..5]) && AllDigits(t[6..8]) && AllDigits(t[9..12])
    ensures ScanClock(t)
      == Some(Clock(DigitsValue(t[0..2]), DigitsValue(t[3..5]), DigitsValue(t[6..8]), DigitsValue(t[9..12])))
  {
    FieldOfDigits(t, 0, 2);
    FieldOfDigits(t, 3, 2);
    FieldOfDigits(t, 6, 2);
    FieldOfDigits(t, 9, 3);
  }

  /** Where the fields of the formatted time sit. */
  lemma FormattedFields(a: string, b: string, d: string, e: string)
    requires |a| == 2 && |b| == 2 && |d| == 2 && |e| == 3
    ensures var t := a + ":" + b + ":" + d + "." + e;
      && |t| == 12 && t[2] == ':' && t[5] == ':' && t[8] == '.'
      && t[0..2] == a && t[3..5] == b && t[6..8] == d && t[9..12] == e
  {
    var t := a + ":" + b + ":" + d + "." + e;
    assert t[0] == a[0] && t[1] == a[1];
    assert t[3] == b[0] && t[4] == b[1];
    assert t[6] == d[0] && t[7] == d[1];
    assert t[9] == e[0] && t[10] == e[1] && t[11] == e[2];
  }

  /** The muxer reads back every time the newer frame creator writes below
      100 hours: the clock it parses is the one formatted, so its
      millisecond value is the original time. */
  lemma DurationRoundTrip(ms: nat)
    requires ms < 100 * HOUR_MS
    ensures ScanClock(FormatDuration(ms)) == Some(DurationClock(ms))
    ensures ClockMs(ScanClock(FormatDuration(ms)).value) == ms
  {
    var c := DurationClock(ms);
    assert c.h < 100;
    assert Pow10(2) == 100 && Pow10(3) == 1000 by {
      assert Pow10(0) == 1;
    }
    PadZeroLength(c.h, 2);
    PadZeroLength(c.m, 2);
    PadZeroLength(c.s, 2);
    PadZeroLength(c.ms, 3);
    PadZeroValue(c.h, 2);
    PadZeroValue(c.m, 2);
    PadZeroValue(c.s, 2);
    PadZeroValue(c.ms, 3);
    FormattedFields(PadZero(c.h, 2), PadZero(c.m, 2), PadZero(c.s, 2), PadZero(c.ms, 3));
    ScanClockOfFields(FormatDuration(ms));
  }

  /** `pgsTimestamp`: milliseconds in 90 kHz ticks, as an unsigned 64-bit
      product. */
  function PgsTimestamp(ms: nat): (t: nat)
    ensures t < TWO64
    ensures ms * 90 < TWO64 ==> t == ms * 90
  {
    (ms * 90) % TWO64
  }

  /** The older frame creator stamps a cue with the same start tick as the
      muxer computes from the formatted time (main.c:470-473), below 100
      hours. */
  lemma TicksAgree(ms: nat)
    requires ms < 100 * HOUR_MS
    ensures ScanClock(FormatDuration(ms)).Some?
    ensures PgsTimestamp(ms) == ClockMs(ScanClock(FormatDuration(ms)).value) * 90
  {
    DurationRoundTrip(ms);
  }
}
