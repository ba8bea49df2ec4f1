/** Run-length coding of the object data (PGSEncoder/main.c:737-879). Each
    row of palette indices is cut into maximal runs, left to right; each run
    is flushed with the shortest code the muxer knows, and the row ends with
    the end-of-line code 00 00. Index 0 (the first opaque colour) is written
    with the colour-less codes; transparent pixels carry the marker 0xFF. */
module PgsRle {
  import opened Wrappers
  import opened Bytes
  import opened PgsPalette

  /** `colorseqcount` pixels of index `prevpalette`. */
  datatype Run = Run(index: int, count: nat)

  /** The maximal runs of s, as the row loop builds them from left to right:
      a pixel equal to the current run's index lengthens it, any other
      pixel closes it and opens a new one. */
  function RunsOf(s: seq<int>): (rs: seq<Run>)
    ensures |rs| > 0 <==> |s| > 0
    ensures forall i :: 0 <= i < |rs| ==> rs[i].count >= 1
  {
    if s == [] then []
    else
      var rs := RunsOf(s[..|s| - 1]);
      var c := s[|s| - 1];
      if rs != [] && rs[|rs| - 1].index == c then
        rs[..|rs| - 1] + [Run(c, rs[|rs| - 1].count + 1)]
      else
        rs + [Run(c, 1)]
  }

  /** Every run's index is one of the row's indices. */
  lemma {:induction false} RunsOfBytes(s: seq<int>)
    requires ByteRow(s)
    ensures ByteIndices(RunsOf(s))
  {
    if s != [] {
      RunsOfBytes(s[..|s| - 1]);
    }
  }

  function Repeat(c: int, n: nat): (s: seq<int>)
    ensures |s| == n && forall i :: 0 <= i < n ==> s[i] == c
  {
    seq(n, _ => c)
  }

  /** The pixels a sequence of runs stands for. */
  function Expand(rs: seq<Run>): seq<int>
  {
    if rs == [] then [] else Repeat(rs[0].index, rs[0].count) + Expand(rs[1..])
  }

  lemma {:induction false} ExpandAppend(rs: seq<Run>, r: Run)
    ensures Expand(rs + [r]) == Expand(rs) + Repeat(r.index, r.count)
  {
    if rs != [] {
      assert (rs + [r])[1..] == rs[1..] + [r];
      ExpandAppend(rs[1..], r);
    }
  }

  /** How one more pixel changes the runs: it lengthens the last run when
      it has the same index, and opens a new run otherwise. */
  lemma RunsOfStep(s: seq<int>, closed: seq<Run>, p: int, n: nat, j: int)
    requires RunsOf(s) == closed + [Run(p, n)]
    ensures RunsOf(s + [j]) == if j == p then closed + [Run(p, n + 1)] else closed + [Run(p, n), Run(j, 1)]
  {
    assert (s + [j])[..|s|] == s;
    var rs := RunsOf(s);
    assert rs[..|rs| - 1] == closed;
  }

  /** The runs stand for exactly the row they were cut from. */
  lemma {:induction false} ExpandRunsOf(s: seq<int>)
    ensures Expand(RunsOf(s)) == s
  {
    if s != [] {
      var t := s[..|s| - 1];
      ExpandRunsOf(t);
      ExpandRunsOfSnoc(t, s[|s| - 1]);
      assert t + [s[|s| - 1]] == s;
    }
  }

  /** One more pixel keeps the runs standing for the row. */
  lemma ExpandRunsOfSnoc(t: seq<int>, c: int)
    requires Expand(RunsOf(t)) == t
    ensures Expand(RunsOf(t + [c])) == t + [c]
  {
    assert (t + [c])[..|t|] == t;
    var rs := RunsOf(t);
    if rs != [] && rs[|rs| - 1].index == c {
      var closed := rs[..|rs| - 1];
      var n := rs[|rs| - 1].count;
      assert RunsOf(t + [c]) == closed + [Run(c, n + 1)];
      assert rs == closed + [Run(c, n)];
      ExpandLengthen(closed, c, n);
    } else {
      assert RunsOf(t + [c]) == rs + [Run(c, 1)];
      ExpandAppend(rs, Run(c, 1));
      assert Repeat(c, 1) == [c];
    }
  }

  lemma ExpandLengthen(closed: seq<Run>, c: int, n: nat)
    ensures Expand(closed + [Run(c, n + 1)]) == Expand(closed + [Run(c, n)]) + [c]
  {
    ExpandAppend(closed, Run(c, n));
    ExpandAppend(closed, Run(c, n + 1));
    assert Repeat(c, n + 1) == Repeat(c, n) + [c];
  }

  /** Two neighbouring runs never have the same index. */
  lemma {:induction false} RunsAlternate(s: seq<int>)
    ensures forall i :: 0 <= i < |RunsOf(s)| - 1 ==> RunsOf(s)[i].index != RunsOf(s)[i + 1].index
  {
    if s != [] {
      RunsAlternate(s[..|s| - 1]);
    }
  }

  /** Every run is at most as long as the row. */
  lemma {:induction false} RunsShorterThanRow(s: seq<int>)
    ensures forall i :: 0 <= i < |RunsOf(s)| ==> RunsOf(s)[i].count <= |s|
  {
    if s != [] {
      RunsShorterThanRow(s[..|s| - 1]);
    }
  }

  /** The codes written for a run of n pixels of index c (the two copies of
      the flush code at PGSEncoder/main.c:774-822 and 827-875). The run
      length's high part `k + 0xC0` or `k + 0x40` is stored into a `char`. */
  function FlushRun(c: int, n: nat): (b: seq<byte>)
    requires 0 <= c < 256
  {
    if n >= 0x40 then
      if c != 0 then [0, Trunc8(n / 256 + 0xC0), n % 256, c]
      else [0, Trunc8(n / 256 + 0x40), n % 256]
    else if c != 0 then
      if c <= 0x39 && n == 1 then [c]
      else if c <= 0x39 && n == 2 then [c, c]
      else [0, n + 0x80, c]
    else [0, n]
  }

  /** A flushed run takes one to four bytes; it starts with its index only
      as the one- and two-byte codes of a single or doubled pixel, and
      otherwise with the escape 0, never followed by the end-of-line 0. */
  lemma FlushRunShape(c: int, n: nat)
    requires 0 <= c < 256
    ensures var b := FlushRun(c, n);
      && 1 <= |b| <= 4
      && (b[0] != 0 ==> b == [c] || b == [c, c])
      && (b[0] == 0 ==> |b| >= 2 && (1 <= n < 0x4000 ==> b[1] != 0))
  {
  }

  predicate ByteIndices(rs: seq<Run>)
  {
    forall i :: 0 <= i < |rs| ==> 0 <= rs[i].index < 256
  }

  function FlushAll(rs: seq<Run>): seq<byte>
    requires ByteIndices(rs)
  {
    if rs == [] then [] else FlushRun(rs[0].index, rs[0].count) + FlushAll(rs[1..])
  }

  lemma {:induction false} FlushAllAppend(rs: seq<Run>, r: Run)
    requires ByteIndices(rs) && 0 <= r.index < 256
    ensures ByteIndices(rs + [r])
    ensures FlushAll(rs + [r]) == FlushAll(rs) + FlushRun(r.index, r.count)
  {
    if rs != [] {
      assert (rs + [r])[1..] == rs[1..] + [r];
      FlushAllAppend(rs[1..], r);
    }
  }

  predicate ByteRow(s: seq<int>)
  {
    forall i :: 0 <= i < |s| ==> 0 <= s[i] < 256
  }

  /** The codes of a whole row of indices. */
  function RowBytes(s: seq<int>): seq<byte>
    requires ByteRow(s)
  {
    var rs := RunsOf(s);
    RunsOfBytes(s);
    FlushAll(rs) + [0, 0]
  }

  /** The palette index of every pixel of a row. */
  function Indices(pal: seq<Rgba>, row: seq<Rgba>): (s: seq<int>)
    ensures |s| == |row|
  {
    if row == [] then [] else Indices(pal, row[..|row| - 1]) + [PixelIndex(pal, row[|row| - 1])]
  }

  /** Every pixel of the row is either transparent or a colour of the palette. */
  predicate Covered(pal: seq<Rgba>, row: seq<Rgba>)
  {
    forall x :: 0 <= x < |row| && !Transparent(row[x]) ==> row[x] in pal
  }

  lemma {:induction false} IndicesAreBytes(pal: seq<Rgba>, row: seq<Rgba>)
    requires |pal| <= 256 && Covered(pal, row)
    ensures ByteRow(Indices(pal, row))
  {
    if row != [] {
      var init := row[..|row| - 1];
      assert Covered(pal, init) by {
        forall x | 0 <= x < |init| && !Transparent(init[x]) ensures init[x] in pal {
          assert init[x] == row[x];
        }
      }
      IndicesAreBytes(pal, init);
    }
  }

  lemma IndexIsByte(pal: seq<Rgba>, row: seq<Rgba>, x: nat)
    requires x < |row| && |pal| <= 256 && Covered(pal, row)
    ensures 0 <= PixelIndex(pal, row[x]) < 256
  {
    if !Transparent(row[x]) {
      assert row[x] in pal;
    }
  }

  lemma IndicesSnoc(pal: seq<Rgba>, row: seq<Rgba>, x: nat)
    requires x < |row|
    ensures Indices(pal, row[..x + 1]) == Indices(pal, row[..x]) + [PixelIndex(pal, row[x])]
  {
    assert row[..x + 1][..x] == row[..x];
  }

  /** One pixel of the row loop: its index is a byte, and it lengthens the
      open run or closes it and opens a new one. */
  lemma EncodeStep(pal: seq<Rgba>, row: seq<Rgba>, x: nat, closed: seq<Run>, p: int, n: nat)
    requires x < |row| && |pal| <= 256 && Covered(pal, row)
    requires RunsOf(Indices(pal, row[..x])) == closed + [Run(p, n)]
    ensures 0 <= PixelIndex(pal, row[x]) < 256
    ensures var j := PixelIndex(pal, row[x]);
      RunsOf(Indices(pal, row[..x + 1])) ==
        if j == p then closed + [Run(p, n + 1)] else closed + [Run(p, n)] + [Run(j, 1)]
  {
    IndexIsByte(pal, row, x);
    IndicesSnoc(pal, row, x);
    RunsOfStep(Indices(pal, row[..x]), closed, p, n, PixelIndex(pal, row[x]));
  }

  /** The row loop of PGSEncoder/main.c:737-879 for one row: index lookup,
      run counting in `prevpalette`/`colorseqcount`, the flush of each closed
      run, the final flush and the end-of-line code. */
  method EncodeRow(pal: seq<Rgba>, row: seq<Rgba>) returns (out: seq<byte>)
    requires |row| > 0 && |pal| <= 256 && Covered(pal, row)
    ensures ByteRow(Indices(pal, row))
    ensures out == RowBytes(Indices(pal, row))
  {
    IndicesAreBytes(pal, row);
    var colorseqcount: nat := 1;
    var prevpalette := LookUp(pal, row[0]);
    if Transparent(row[0]) {
      prevpalette := 0xFF;
    }
    out := [];
    ghost var closed: seq<Run> := [];
    EncodeStart(pal, row);
    var x := 1;
    while x < |row|
      invariant 1 <= x <= |row| && 0 <= prevpalette < 256
      invariant ByteIndices(closed)
      invariant RunsOf(Indices(pal, row[..x])) == closed + [Run(prevpalette, colorseqcount)]
      invariant out == FlushAll(closed)
    {
      closed, prevpalette, colorseqcount, out := EncodePixel(pal, row, x, closed, prevpalette, colorseqcount, out);
      x := x + 1;
    }
    FinishRow(pal, row, closed, prevpalette, colorseqcount);
    out := out + FlushRun(prevpalette, colorseqcount);
    out := out + [0, 0];
  }

  /** One pass of the row loop: the pixel's index either lengthens the open
      run or flushes it and opens a new one. */
  method EncodePixel(pal: seq<Rgba>, row: seq<Rgba>, x: nat, ghost closed: seq<Run>, prevpalette: int,
                     colorseqcount: nat, out: seq<byte>)
    returns (ghost closed': seq<Run>, prevpalette': int, colorseqcount': nat, out': seq<byte>)
    requires x < |row| && |pal| <= 256 && Covered(pal, row)
    requires ByteIndices(closed) && 0 <= prevpalette < 256
    requires RunsOf(Indices(pal, row[..x])) == closed + [Run(prevpalette, colorseqcount)]
    requires out == FlushAll(closed)
    ensures ByteIndices(closed') && 0 <= prevpalette' < 256
    ensures RunsOf(Indices(pal, row[..x + 1])) == closed' + [Run(prevpalette', colorseqcount')]
    ensures out' == FlushAll(closed')
  {
    var j := LookUp(pal, row[x]);
    if Transparent(row[x]) {
      j := 0xFF;
    }
    EncodeStep(pal, row, x, closed, prevpalette, colorseqcount);
    if j == prevpalette {
      closed', prevpalette', colorseqcount', out' := closed, prevpalette, colorseqcount + 1, out;
    } else {
      FlushAllAppend(closed, Run(prevpalette, colorseqcount));
      out' := out + FlushRun(prevpalette, colorseqcount);
      closed' := closed + [Run(prevpalette, colorseqcount)];
      prevpalette' := j;
      colorseqcount' := 1;
    }
  }

  /** The first pixel opens the first run. */
  lemma EncodeStart(pal: seq<Rgba>, row: seq<Rgba>)
    requires 0 < |row| && |pal| <= 256 && Covered(pal, row)
    ensures 0 <= PixelIndex(pal, row[0]) < 256
    ensures RunsOf(Indices(pal, row[..1])) == [Run(PixelIndex(pal, row[0]), 1)]
  {
    IndexIsByte(pal, row, 0);
    IndicesSnoc(pal, row, 0);
    assert row[..0] == [];
    var s := Indices(pal, row[..1]);
    assert s[..0] == [];
  }

  /** The final flush and the end-of-line code complete the row's codes. */
  lemma FinishRow(pal: seq<Rgba>, row: seq<Rgba>, closed: seq<Run>, p: int, n: nat)
    requires ByteIndices(closed) && 0 <= p < 256 && ByteRow(Indices(pal, row))
    requires RunsOf(Indices(pal, row[..|row|])) == closed + [Run(p, n)]
    ensures FlushAll(closed) + FlushRun(p, n) + [0, 0] == RowBytes(Indices(pal, row))
  {
    assert row[..|row|] == row;
    FlushAllAppend(closed, Run(p, n));
  }

  /** A PGS object-data decoder for one row: the pixels and the bytes after
      the end-of-line code, or None when the bytes end first. */
  function DecodeRow(b: seq<byte>): (r: Option<(seq<int>, seq<byte>)>)
    decreases |b|
  {
    if |b| == 0 then None
    else if b[0] != 0 then Prepend([b[0]], DecodeRow(b[1..]))
    else if |b| < 2 then None
    else if b[1] == 0 then Some(([], b[2..]))
    else if b[1] < 0x40 then Prepend(Repeat(0, b[1]), DecodeRow(b[2..]))
    else if |b| < 3 then None
    else if b[1] < 0x80 then Prepend(Repeat(0, (b[1] as int - 0x40) * 256 + b[2] as int), DecodeRow(b[3..]))
    else if b[1] < 0xC0 then Prepend(Repeat(b[2], b[1] - 0x80), DecodeRow(b[3..]))
    else if |b| < 4 then None
    else Prepend(Repeat(b[3], (b[1] as int - 0xC0) * 256 + b[2] as int), DecodeRow(b[4..]))
  }

  function Prepend(p: seq<int>, r: Option<(seq<int>, seq<byte>)>): Option<(seq<int>, seq<byte>)>
  {
    match r
    case None => None
    case Some(v) => Some((p + v.0, v.1))
  }

  /** Decoding one flushed run yields its pixels, for runs the 14-bit run
      length of the format can hold. */
  lemma DecodeFlushRun(c: int, n: nat, rest: seq<byte>)
    requires 0 <= c < 256 && 1 <= n < 0x4000
    ensures DecodeRow(FlushRun(c, n) + rest) == Prepend(Repeat(c, n), DecodeRow(rest))
  {
    if n >= 0x40 {
      DecodeLongRun(c, n, rest);
    } else if c != 0 && c <= 0x39 && n == 2 {
      DecodeDoubled(c, rest);
    } else {
      DecodeShortRun(c, n, rest);
    }
  }

  /** A run of 64 pixels or more: a four- or three-byte code. */
  lemma DecodeLongRun(c: int, n: nat, rest: seq<byte>)
    requires 0 <= c < 256 && 0x40 <= n < 0x4000
    ensures DecodeRow(FlushRun(c, n) + rest) == Prepend(Repeat(c, n), DecodeRow(rest))
  {
    var b := FlushRun(c, n) + rest;
    var hi := n / 256;
    assert n == hi * 256 + n % 256 && hi < 64;
    if c != 0 {
      assert b[0] == 0 && b[1] == hi + 0xC0 && b[2] == n % 256 && b[3] == c;
      assert b[4..] == rest;
    } else {
      assert b[0] == 0 && b[1] == hi + 0x40 && b[2] == n % 256;
      assert b[3..] == rest;
    }
  }

  /** A shorter run other than two pixels of a small index. */
  lemma DecodeShortRun(c: int, n: nat, rest: seq<byte>)
    requires 0 <= c < 256 && 1 <= n < 0x40
    requires !(c != 0 && c <= 0x39 && n == 2)
    ensures DecodeRow(FlushRun(c, n) + rest) == Prepend(Repeat(c, n), DecodeRow(rest))
  {
    var b := FlushRun(c, n) + rest;
    if c != 0 {
      if c <= 0x39 && n == 1 {
        assert b[0] == c && b[1..] == rest;
        assert Repeat(c, 1) == [c];
      } else {
        assert b[0] == 0 && b[1] == n + 0x80 && b[2] == c;
        assert b[3..] == rest;
      }
    } else {
      assert b[0] == 0 && b[1] == n;
      assert b[2..] == rest;
    }
  }

  /** Two pixels of an index below 0x3A are written as the index twice. */
  lemma DecodeDoubled(c: int, rest: seq<byte>)
    requires 0 < c <= 0x39
    ensures DecodeRow(FlushRun(c, 2) + rest) == Prepend(Repeat(c, 2), DecodeRow(rest))
  {
    var b := FlushRun(c, 2) + rest;
    assert b[0] == c && b[1..] == [c] + rest && b[1..][1..] == rest;
    assert Repeat(c, 2) == [c] + [c];
    var d := DecodeRow(rest);
    assert DecodeRow(b[1..]) == Prepend([c], d);
    if d.Some? {
      assert [c] + ([c] + d.value.0) == Repeat(c, 2) + d.value.0;
    }
  }

  /** Decoding the flushed runs followed by the end-of-line code yields the
      runs' pixels and stops right after the code: no earlier code reads as
      an end of line. */
  lemma {:induction false} DecodeFlushAll(rs: seq<Run>, rest: seq<byte>)
    requires ByteIndices(rs)
    requires forall i :: 0 <= i < |rs| ==> 1 <= rs[i].count < 0x4000
    ensures DecodeRow(FlushAll(rs) + [0, 0] + rest) == Some((Expand(rs), rest))
  {
    if rs == [] {
      assert FlushAll(rs) + [0, 0] + rest == [0, 0] + rest;
      assert ([0, 0] + rest)[2..] == rest;
    } else {
      var tail := FlushAll(rs[1..]) + [0, 0] + rest;
      assert FlushAll(rs) + [0, 0] + rest == FlushRun(rs[0].index, rs[0].count) + tail;
      DecodeFlushRun(rs[0].index, rs[0].count, tail);
      DecodeFlushAll(rs[1..], rest);
    }
  }

  /** The row codes decode back to exactly the row's indices, provided no
      run reaches 16384 pixels. */
  lemma RowRoundTrip(s: seq<int>, rest: seq<byte>)
    requires ByteRow(s)
    requires forall i :: 0 <= i < |RunsOf(s)| ==> RunsOf(s)[i].count < 0x4000
    ensures DecodeRow(RowBytes(s) + rest) == Some((s, rest))
  {
    var rs := RunsOf(s);
    RunsOfBytes(s);
    DecodeFlushAll(rs, rest);
    ExpandRunsOf(s);
  }

  /** Every picture narrower than 16384 pixels meets the condition above. */
  lemma NarrowRowRoundTrip(s: seq<int>, rest: seq<byte>)
    requires ByteRow(s) && |s| < 0x4000
    ensures DecodeRow(RowBytes(s) + rest) == Some((s, rest))
  {
    RunsShorterThanRow(s);
    RowRoundTrip(s, rest);
  }

  /** A run of 16384 pixels has a high part of 64: for a coloured run
      `k + 0xC0` wraps to 0 in the `char`, and the run starts with the
      end-of-line code 00 00. */
  lemma LongRunWrapsToEndOfLine(c: int)
    requires 0 < c < 256
    ensures FlushRun(c, 0x4000)[..2] == [0, 0]
  {
    assert Trunc8(0x4000 / 256 + 0xC0) == 0;
    var b := FlushRun(c, 0x4000);
    assert b[0] == 0 && b[1] == 0;
  }

  /** Every pixel of the picture is transparent or a colour of the palette. */
  predicate CoversImage(pal: seq<Rgba>, img: seq<seq<Rgba>>)
  {
    forall y :: 0 <= y < |img| ==> Covered(pal, img[y])
  }

  /** The object data of a whole picture: the codes of each row in turn. */
  function BitmapBytes(pal: seq<Rgba>, img: seq<seq<Rgba>>): seq<byte>
    requires |pal| <= 256 && CoversImage(pal, img)
  {
    if img == [] then []
    else
      var init := img[..|img| - 1];
      assert CoversImage(pal, init) by {
        forall y | 0 <= y < |init| ensures Covered(pal, init[y]) {
          assert init[y] == img[y];
        }
      }
      IndicesAreBytes(pal, img[|img| - 1]);
      BitmapBytes(pal, init) + RowBytes(Indices(pal, img[|img| - 1]))
  }

  /** The rows of the object data loop (the outer `for(y ...)`). */
  method EncodeBitmap(pal: seq<Rgba>, img: seq<seq<Rgba>>) returns (out: seq<byte>)
    requires IsImage(img) && |pal| <= 256 && CoversImage(pal, img)
    ensures out == BitmapBytes(pal, img)
  {
    out := [];
    var y := 0;
    while y < |img|
      invariant 0 <= y <= |img|
      invariant out == BitmapBytes(pal, img[..y])
    {
      assert img[y] == img[0..][y] && |img[y]| == |img[0]|;
      var rowBytes := EncodeRow(pal, img[y]);
      assert img[..y + 1][..y] == img[..y];
      out := out + rowBytes;
      y := y + 1;
    }
    assert img[..|img|] == img;
  }

  /** Decoding h rows of object data. */
  function DecodeRows(h: nat, b: seq<byte>): Option<(seq<seq<int>>, seq<byte>)>
  {
    if h == 0 then Some(([], b))
    else
      match DecodeRows(h - 1, b)
      case None => None
      case Some(v) =>
        match DecodeRow(v.1)
        case None => None
        case Some(w) => Some((v.0 + [w.0], w.1))
  }

  /** The palette indices of every row of a picture. */
  function ImageIndices(pal: seq<Rgba>, img: seq<seq<Rgba>>): (rows: seq<seq<int>>)
    ensures |rows| == |img|
    ensures forall y :: 0 <= y < |img| ==> rows[y] == Indices(pal, img[y])
  {
    seq(|img|, y requires 0 <= y < |img| => Indices(pal, img[y]))
  }

  /** The object data decodes back to the palette index of every pixel,
      row by row, for pictures narrower than 16384 pixels. */
  lemma {:induction false} BitmapRoundTrip(pal: seq<Rgba>, img: seq<seq<Rgba>>, rest: seq<byte>)
    requires |pal| <= 256 && CoversImage(pal, img)
    requires forall y :: 0 <= y < |img| ==> |img[y]| < 0x4000
    ensures DecodeRows(|img|, BitmapBytes(pal, img) + rest) == Some((ImageIndices(pal, img), rest))
  {
    if img != [] {
      var init := img[..|img| - 1];
      var last := img[|img| - 1];
      assert CoversImage(pal, init) by {
        forall y | 0 <= y < |init| ensures Covered(pal, init[y]) {
          assert init[y] == img[y];
        }
      }
      IndicesAreBytes(pal, last);
      var r := RowBytes(Indices(pal, last));
      assert BitmapBytes(pal, img) + rest == BitmapBytes(pal, init) + (r + rest);
      BitmapRoundTrip(pal, init, r + rest);
      NarrowRowRoundTrip(Indices(pal, last), rest);
      assert ImageIndices(pal, img) == ImageIndices(pal, init) + [Indices(pal, last)];
    } else {
      assert BitmapBytes(pal, img) + rest == rest;
      assert ImageIndices(pal, img) == [];
    }
  }
}
