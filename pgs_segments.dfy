/** The per-cue body of the PGS muxer's main loop (PGSEncoder/main.c:445-990):
    every `<subtitle>` element becomes eight presentation-graphics segments,
    each made of the sync bytes "PG", a 32-bit PTS and DTS in 90 kHz ticks,
    a type byte, a 16-bit length and the body. The cue's fields arrive
    already parsed; the PNG arrives decoded as an RGBA grid; the floating
    point RGB to YCrCb conversion is a parameter. */
module PgsSegments {
  import opened Wrappers
  import opened Bytes
  import opened PgsPaths
  import opened PgsPalette
  import opened PgsRle

  const PCS: byte := 0x16
  const WDS: byte := 0x17
  const PDS: byte := 0x14
  const ODS: byte := 0x15
  const END: byte := 0x80

  /** One segment as a decoder sees it. */
  datatype Segment = Segment(pts: int, dts: int, kind: byte, body: seq<byte>)

  /** A segment on the wire. */
  function SegmentBytes(s: Segment): (b: seq<byte>)
    ensures |b| == 13 + |s.body|
  {
    [0x50, 0x47] + LongToBytes(s.pts) + LongToBytes(s.dts) + [s.kind] + IntToBytes(|s.body|) + s.body
  }

  function Serialize(segs: seq<Segment>): seq<byte>
  {
    if segs == [] then [] else SegmentBytes(segs[0]) + Serialize(segs[1..])
  }

  /** A segment reader: sync bytes, timestamps read as signed 32-bit numbers,
      type, and a body of exactly the announced length. */
  function ParseSegments(b: seq<byte>): Option<seq<Segment>>
    decreases |b|
  {
    if b == [] then Some([])
    else if |b| < 13 || b[0] != 0x50 || b[1] != 0x47 then None
    else
      var len := BigEndian16(b[11..13]);
      if |b| < 13 + len then None
      else
        var s := Segment(SignedBigEndian32(b[2..6]), SignedBigEndian32(b[6..10]), b[10], b[13..13 + len]);
        match ParseSegments(b[13 + len..])
        case None => None
        case Some(rest) => Some([s] + rest)
  }

  /** Timestamps that fit the 32-bit fields and bodies that fit the 16-bit length. */
  predicate Representable(s: Segment)
  {
    -0x8000_0000 <= s.pts < 0x8000_0000 && -0x8000_0000 <= s.dts < 0x8000_0000 && |s.body| < TWO16
  }

  lemma SegmentRoundTrip(s: Segment, rest: seq<byte>)
    requires Representable(s)
    ensures ParseSegments(SegmentBytes(s) + rest) ==
      match ParseSegments(rest)
      case None => None
      case Some(r) => Some([s] + r)
  {
    var b := SegmentBytes(s) + rest;
    assert b[2..6] == LongToBytes(s.pts);
    assert b[6..10] == LongToBytes(s.dts);
    assert b[11..13] == IntToBytes(|s.body|);
    LongToBytesRoundTrip(s.pts);
    LongToBytesRoundTrip(s.dts);
    IntToBytesRoundTrip(|s.body|);
    assert b[13..13 + |s.body|] == s.body;
    assert b[13 + |s.body|..] == rest;
  }

  /** Every length field equals its body's size, so a reader recovers
      exactly the segments that were written. */
  lemma {:induction false} SerializeRoundTrip(segs: seq<Segment>)
    requires forall i :: 0 <= i < |segs| ==> Representable(segs[i])
    ensures ParseSegments(Serialize(segs)) == Some(segs)
  {
    if segs != [] {
      SerializeRoundTrip(segs[1..]);
      SegmentRoundTrip(segs[0], Serialize(segs[1..]));
      assert [segs[0]] + segs[1..] == segs;
    }
  }

  lemma {:induction false} SerializeAppend(a: seq<Segment>, b: seq<Segment>)
    ensures Serialize(a + b) == Serialize(a) + Serialize(b)
  {
    if a != [] {
      assert (a + b)[1..] == a[1..] + b;
      SerializeAppend(a[1..], b);
    } else {
      assert a + b == b;
    }
  }

  /** The clock fields of one time attribute, as `sscanf` stores them. */
  datatype Clock = Clock(h: int, m: int, s: int, ms: int)

  function ClockMs(c: Clock): int
  {
    c.h * 3600000 + c.m * 60000 + c.s * 1000 + c.ms
  }

  /** The parsed attributes of one `<subtitle>` element: an absent or empty
      `offset` is None; `image` is the decoded PNG. */
  datatype Cue = Cue(start: Clock, end: Clock, offset: Option<(int, int)>, view: string, image: seq<seq<Rgba>>)

  predicate WellFormed(cue: Cue)
  {
    IsImage(cue.image) && NoNul(cue.view)
  }

  /** The bytes the conversion stores for a palette entry: Y, Cr + 128, Cb + 128. */
  datatype Ycc = Ycc(y: byte, cr: byte, cb: byte)

  /** The presentation times of a cue in 90 kHz ticks, with the decoder
      lead times of the muxer. */
  datatype Timing = Timing(start: int, end: int, time1: int, time2: int, time3: int, time4: int)

  function CueTiming(cue: Cue): Timing
  {
    var start := ClockMs(cue.start) * 90;
    var end := ClockMs(cue.end) * 90;
    Timing(start, end, start - 5832, start - 90, start - 5643, end - 90)
  }

  function CueOffset(defaultOffset: (int, int), cue: Cue): (int, int)
  {
    match cue.offset
    case None => defaultOffset
    case Some(o) => o
  }

  /** The presentation composition that shows the object: video size, a
      composition of one object, forced flag, position. */
  function ShowBody(width: int, height: int, forced: bool, offset: (int, int)): (b: seq<byte>)
    ensures |b| == 19
  {
    IntToBytes(width) + IntToBytes(height) + [0x40, 0x00, 0x00, 0x80, 0x00, 0x00, 0x01, 0x00, 0x00, 0x00]
      + [if forced then 0x40 else 0x00] + IntToBytes(offset.0) + IntToBytes(offset.1)
  }

  /** The presentation composition with no object, which clears the screen. */
  function ClearBody(width: int, height: int): (b: seq<byte>)
    ensures |b| == 11
  {
    IntToBytes(width) + IntToBytes(height) + [0x40, 0x00, 0x01, 0x00, 0x00, 0x00, 0x00]
  }

  /** One window at the cue's offset, as large as the picture. */
  function WindowBody(offset: (int, int), w: int, h: int): (b: seq<byte>)
    ensures |b| == 10
  {
    [0x01, 0x00] + IntToBytes(offset.0) + IntToBytes(offset.1) + IntToBytes(w) + IntToBytes(h)
  }

  function PaletteEntry(j: int, c: Rgba, ycc: Rgba -> Ycc): seq<byte>
    requires 0 <= j < 256
  {
    [j, ycc(c).y, ycc(c).cr, ycc(c).cb, c.a]
  }

  function PaletteEntries(pal: seq<Rgba>, ycc: Rgba -> Ycc): (b: seq<byte>)
    requires |pal| <= 256
    ensures |b| == 5 * |pal|
  {
    if pal == [] then []
    else PaletteEntries(pal[..|pal| - 1], ycc) + PaletteEntry(|pal| - 1, pal[|pal| - 1], ycc)
  }

  function PaletteBody(pal: seq<Rgba>, ycc: Rgba -> Ycc): (b: seq<byte>)
    requires |pal| <= 256
    ensures |b| == 5 * |pal| + 2
  {
    [0x00, 0x00] + PaletteEntries(pal, ycc)
  }

  /** The object definition: one object in one fragment, whose 24-bit data
      length covers the size fields and the run-length codes. */
  function ObjectBody(w: int, h: int, rle: seq<byte>): (b: seq<byte>)
    ensures |b| == 11 + |rle|
  {
    [0x00, 0x00, 0x00, 0xC0, 0x00] + IntToBytes(|rle| + 4) + IntToBytes(w) + IntToBytes(h) + rle
  }

  /** The eight segments of one cue. */
  function CueSegments(width: int, height: int, defaultOffset: (int, int), cue: Cue,
                       ycc: Rgba -> Ycc, pal: seq<Rgba>, rle: seq<byte>): (segs: seq<Segment>)
    requires IsImage(cue.image) && |pal| <= 256
    ensures |segs| == 8
  {
    var t := CueTiming(cue);
    var o := CueOffset(defaultOffset, cue);
    var forced := PrefixAt(cue.view, "forced", 0);
    var w := |cue.image[0]|;
    var h := |cue.image|;
    [ Segment(t.start, t.time1, PCS, ShowBody(width, height, forced, o)),
      Segment(t.time2, t.time1, WDS, WindowBody(o, w, h)),
      Segment(t.time1, 0, PDS, PaletteBody(pal, ycc)),
      Segment(t.time3, t.time1, ODS, ObjectBody(w, h, rle)),
      Segment(t.time3, 0, END, []),
      Segment(t.end, t.time4, PCS, ClearBody(width, height)),
      Segment(t.time4, 0, WDS, WindowBody(o, w, h)),
      Segment(t.time4, 0, END, []) ]
  }

  datatype CueResult =
    | Written(bytes: seq<byte>)
    | TooManyColours
    | TooComplicated(length: int)

  /** Every pixel of a picture is transparent or a colour of its palette. */
  lemma PaletteCoversImage(img: seq<seq<Rgba>>)
    requires PaletteOf(img).Some?
    ensures |PaletteOf(img).value| <= 256 && CoversImage(PaletteOf(img).value, img)
  {
    var pal := PaletteOf(img).value;
    forall y, x | 0 <= y < |img| && 0 <= x < |img[y]| && !Transparent(img[y][x])
      ensures img[y][x] in pal
    {
      IndexRecoversColour(img, y, x);
    }
  }

  /** The run-length codes of a cue's picture under its palette. */
  function CueBitmap(cue: Cue): seq<byte>
    requires WellFormed(cue) && PaletteOf(cue.image).Some?
  {
    PaletteCoversImage(cue.image);
    BitmapBytes(PaletteOf(cue.image).value, cue.image)
  }

  /** What the muxer makes of one cue. */
  function CueOutput(width: int, height: int, defaultOffset: (int, int), cue: Cue, ycc: Rgba -> Ycc): (r: CueResult)
    requires WellFormed(cue)
    ensures r.TooManyColours? <==> PaletteOf(cue.image).None?
    ensures r.TooComplicated? ==> r.length > 65535
  {
    match PaletteOf(cue.image)
    case None => TooManyColours
    case Some(pal) =>
      var rle := CueBitmap(cue);
      if |rle| + 11 > 65535 then TooComplicated(|rle| + 11)
      else Written(Serialize(CueSegments(width, height, defaultOffset, cue, ycc, pal, rle)))
  }

  /** The palette-entry loop (PGSEncoder/main.c:695-706). */
  method WritePalette(supdata: seq<byte>, pal: seq<Rgba>, ycc: Rgba -> Ycc) returns (out: seq<byte>)
    requires |pal| <= 256
    ensures out == supdata + PaletteEntries(pal, ycc)
  {
    out := supdata;
    var j := 0;
    while j < |pal|
      invariant 0 <= j <= |pal|
      invariant out == supdata + PaletteEntries(pal[..j], ycc)
    {
      var c := ycc(pal[j]);
      assert pal[..j + 1][..j] == pal[..j];
      out := out + [j, c.y, c.cr, c.cb, pal[j].a];
      j := j + 1;
    }
    assert pal[..|pal|] == pal;
  }

  /** Writing four bytes into a buffer at t, t+1, t+7 and t+8. */
  lemma Backpatch(a: seq<byte>, x: seq<byte>, b: seq<byte>, y: seq<byte>, c: seq<byte>, nx: seq<byte>, ny: seq<byte>)
    requires |x| == 2 && |b| == 5 && |y| == 2 && |nx| == 2 && |ny| == 2
    ensures (a + x + b + y + c)[|a| := nx[0]][|a| + 1 := nx[1]][|a| + 7 := ny[0]][|a| + 8 := ny[1]]
      == a + nx + b + ny + c
  {
    var s := (a + x + b + y + c)[|a| := nx[0]][|a| + 1 := nx[1]][|a| + 7 := ny[0]][|a| + 8 := ny[1]];
    var t := a + nx + b + ny + c;
    assert |s| == |t|;
    forall i | 0 <= i < |s| ensures s[i] == t[i] {
      if i < |a| {
      } else if i < |a| + 2 {
      } else if i < |a| + 7 {
        assert s[i] == b[i - |a| - 2];
      } else if i < |a| + 9 {
      } else {
        assert s[i] == c[i - |a| - 9];
      }
    }
  }

  lemma SerializeSnoc(segs: seq<Segment>, s: Segment)
    ensures Serialize(segs + [s]) == Serialize(segs) + SegmentBytes(s)
  {
    SerializeAppend(segs, [s]);
    assert [s][1..] == [];
  }

  /** The composition segment that shows the picture (PGSEncoder/main.c:479-514). */
  method AppendShow(supdata: seq<byte>, pts: int, dts: int, width: int, height: int, forced: bool, offset: (int, int))
    returns (out: seq<byte>)
    ensures out == supdata + SegmentBytes(Segment(pts, dts, PCS, ShowBody(width, height, forced, offset)))
  {
    out := supdata + [0x50, 0x47] + LongToBytes(pts) + LongToBytes(dts) + [0x16, 0x00, 0x13]
      + IntToBytes(width) + IntToBytes(height) + [0x40, 0x00, 0x00, 0x80, 0x00, 0x00, 0x01, 0x00, 0x00, 0x00]
      + [if forced then 0x40 else 0x00] + IntToBytes(offset.0) + IntToBytes(offset.1);
    var body := ShowBody(width, height, forced, offset);
    assert [0x16, 0x00, 0x13] == [PCS] + IntToBytes(|body|);
    RegroupShow(supdata, [0x50, 0x47], LongToBytes(pts), LongToBytes(dts), [PCS], IntToBytes(|body|),
      IntToBytes(width), IntToBytes(height), [0x40, 0x00, 0x00, 0x80, 0x00, 0x00, 0x01, 0x00, 0x00, 0x00],
      [if forced then 0x40 else 0x00], IntToBytes(offset.0), IntToBytes(offset.1));
  }

  /** The composition segment as written, grouped as header and body. */
  lemma RegroupShow(sd: seq<byte>, p: seq<byte>, a: seq<byte>, c: seq<byte>, k: seq<byte>, n: seq<byte>,
                    w: seq<byte>, h: seq<byte>, f: seq<byte>, g: seq<byte>, x: seq<byte>, y: seq<byte>)
    ensures sd + p + a + c + (k + n) + w + h + f + g + x + y
         == sd + (p + a + c + k + n + (w + h + f + g + x + y))
  {
  }

  /** A window segment (PGSEncoder/main.c:594-623 and 945-974). */
  method AppendWindow(supdata: seq<byte>, pts: int, dts: int, offset: (int, int), w: int, h: int)
    returns (out: seq<byte>)
    ensures out == supdata + SegmentBytes(Segment(pts, dts, WDS, WindowBody(offset, w, h)))
  {
    out := supdata + [0x50, 0x47] + LongToBytes(pts) + LongToBytes(dts) + [0x17, 0x00, 0x0A, 0x01, 0x00]
      + IntToBytes(offset.0) + IntToBytes(offset.1) + IntToBytes(w) + IntToBytes(h);
  }

  /** The palette segment (PGSEncoder/main.c:676-706). */
  method AppendPalette(supdata: seq<byte>, pts: int, pal: seq<Rgba>, ycc: Rgba -> Ycc) returns (out: seq<byte>)
    requires |pal| <= 256
    ensures out == supdata + SegmentBytes(Segment(pts, 0, PDS, PaletteBody(pal, ycc)))
  {
    out := supdata + [0x50, 0x47] + LongToBytes(pts) + [0x00, 0x00, 0x00, 0x00, 0x14]
      + IntToBytes(|pal| * 5 + 2) + [0x00, 0x00];
    ghost var head := out;
    out := WritePalette(out, pal, ycc);
    assert LongToBytes(0) == [0, 0, 0, 0];
    assert out == head + PaletteEntries(pal, ycc);
  }

  /** The object segment (PGSEncoder/main.c:708-892): header, picture size,
      run-length codes, the 65535 ceiling, then the backpatch of the segment
      length at offset 11 and the object data length at offset 18. */
  method AppendObject(supdata: seq<byte>, pts: int, dts: int, pal: seq<Rgba>, img: seq<seq<Rgba>>)
    returns (out: seq<byte>, bmplength: int)
    requires IsImage(img) && |pal| <= 256 && CoversImage(pal, img)
    ensures bmplength == |BitmapBytes(pal, img)| + 11
    ensures bmplength <= 65535 ==>
      out == supdata + SegmentBytes(Segment(pts, dts, ODS, ObjectBody(|img[0]|, |img|, BitmapBytes(pal, img))))
  {
    var pngW := |img[0]|;
    var pngH := |img|;
    out := supdata + [0x50, 0x47] + LongToBytes(pts) + LongToBytes(dts) + [0x15];
    var bmplengthtarget := |out|;
    out := out + [0x00, 0x00] + [0x00, 0x00, 0x00, 0xC0, 0x00] + [0x00, 0x00] + IntToBytes(pngW) + IntToBytes(pngH);
    bmplength := |out|;
    var rle := EncodeBitmap(pal, img);
    out := out + rle;
    bmplength := |out| - bmplength + 11;
    if bmplength > 65535 {
      return;
    }
    var len := IntToBytes(bmplength);
    var objectLen := IntToBytes(bmplength - 7);
    PatchedObject(supdata, pts, dts, pngW, pngH, rle);
    out := out[bmplengthtarget := len[0]][bmplengthtarget + 1 := len[1]]
              [bmplengthtarget + 7 := objectLen[0]][bmplengthtarget + 8 := objectLen[1]];
  }

  /** Patching the two length fields of the object segment as written
      yields the segment with the right lengths. */
  lemma PatchedObject(supdata: seq<byte>, pts: int, dts: int, w: int, h: int, rle: seq<byte>)
    ensures var t := |supdata| + 11;
      var len := IntToBytes(|rle| + 11);
      var objectLen := IntToBytes(|rle| + 4);
      (supdata + [0x50, 0x47] + LongToBytes(pts) + LongToBytes(dts) + [0x15]
        + [0x00, 0x00] + [0x00, 0x00, 0x00, 0xC0, 0x00] + [0x00, 0x00] + IntToBytes(w) + IntToBytes(h) + rle)
        [t := len[0]][t + 1 := len[1]][t + 7 := objectLen[0]][t + 8 := objectLen[1]]
      == supdata + SegmentBytes(Segment(pts, dts, ODS, ObjectBody(w, h, rle)))
  {
    var hdr: seq<byte> := [0x50, 0x47] + LongToBytes(pts) + LongToBytes(dts) + [0x15];
    var head := supdata + hdr;
    var b: seq<byte> := [0x00, 0x00, 0x00, 0xC0, 0x00];
    var tail := IntToBytes(w) + IntToBytes(h) + rle;
    var len := IntToBytes(|rle| + 11);
    var objectLen := IntToBytes(|rle| + 4);
    Regroup(supdata, [0x50, 0x47], LongToBytes(pts), LongToBytes(dts), [0x15],
            [0x00, 0x00], b, [0x00, 0x00], IntToBytes(w), IntToBytes(h), rle);
    Backpatch(head, [0x00, 0x00], b, [0x00, 0x00], tail, len, objectLen);
    assert head + len + b + objectLen + tail == supdata + SegmentBytes(Segment(pts, dts, ODS, ObjectBody(w, h, rle))) by {
      ObjectSegmentBytes(pts, dts, w, h, rle);
      assert head + len + b + objectLen + tail == supdata + (hdr + len + b + objectLen + tail);
    }
  }

  /** The object segment as written, grouped as header, two length
      fields around the fixed bytes, and the rest. */
  lemma Regroup(sd: seq<byte>, p: seq<byte>, a: seq<byte>, c: seq<byte>, k: seq<byte>,
                x: seq<byte>, m: seq<byte>, y: seq<byte>, iw: seq<byte>, ih: seq<byte>, r: seq<byte>)
    ensures sd + p + a + c + k + x + m + y + iw + ih + r == (sd + (p + a + c + k)) + x + m + y + (iw + ih + r)
  {
  }

  /** The object segment laid out in the order the muxer writes it. */
  lemma ObjectSegmentBytes(pts: int, dts: int, w: int, h: int, rle: seq<byte>)
    ensures SegmentBytes(Segment(pts, dts, ODS, ObjectBody(w, h, rle)))
      == ([0x50, 0x47] + LongToBytes(pts) + LongToBytes(dts) + [0x15]) + IntToBytes(|rle| + 11)
         + [0x00, 0x00, 0x00, 0xC0, 0x00] + IntToBytes(|rle| + 4) + (IntToBytes(w) + IntToBytes(h) + rle)
  {
  }

  /** An end-of-display-set segment (PGSEncoder/main.c:893-906 and 975-988). */
  method AppendEnd(supdata: seq<byte>, pts: int) returns (out: seq<byte>)
    ensures out == supdata + SegmentBytes(Segment(pts, 0, END, []))
  {
    out := supdata + [0x50, 0x47] + LongToBytes(pts) + [0x00, 0x00, 0x00, 0x00, 0x80, 0x00, 0x00];
    assert LongToBytes(0) == [0, 0, 0, 0];
  }

  /** The composition segment that clears the screen (PGSEncoder/main.c:908-943). */
  method AppendClear(supdata: seq<byte>, pts: int, dts: int, width: int, height: int) returns (out: seq<byte>)
    ensures out == supdata + SegmentBytes(Segment(pts, dts, PCS, ClearBody(width, height)))
  {
    out := supdata + [0x50, 0x47] + LongToBytes(pts) + LongToBytes(dts) + [0x16, 0x00, 0x0b]
      + IntToBytes(width) + IntToBytes(height) + [0x40, 0x00, 0x01, 0x00, 0x00, 0x00, 0x00];
  }

  /** The last four segments of a cue: the end of the display set that
      shows the object, then the display set that clears it. */
  function CueEndSegments(time3: int, endtime: int, time4: int, width: int, height: int,
                          offset: (int, int), pngW: int, pngH: int): (segs: seq<Segment>)
    ensures |segs| == 4
  {
    [ Segment(time3, 0, END, []),
      Segment(endtime, time4, PCS, ClearBody(width, height)),
      Segment(time4, 0, WDS, WindowBody(offset, pngW, pngH)),
      Segment(time4, 0, END, []) ]
  }

  /** The writes of PGSEncoder/main.c:945-989, after the object. */
  method AppendCueEnd(supdata: seq<byte>, ghost written: seq<Segment>, time3: int, endtime: int, time4: int,
                      width: int, height: int, offset: (int, int), pngW: int, pngH: int)
    returns (out: seq<byte>)
    requires supdata == Serialize(written)
    ensures out == Serialize(written + CueEndSegments(time3, endtime, time4, width, height, offset, pngW, pngH))
  {
    ghost var w := written;
    ghost var s4 := Segment(time3, 0, END, []);
    out := AppendEnd(supdata, time3);
    SerializeSnoc(w, s4);
    w := w + [s4];
    ghost var s5 := Segment(endtime, time4, PCS, ClearBody(width, height));
    out := AppendClear(out, endtime, time4, width, height);
    SerializeSnoc(w, s5);
    w := w + [s5];
    ghost var s6 := Segment(time4, 0, WDS, WindowBody(offset, pngW, pngH));
    out := AppendWindow(out, time4, 0, offset, pngW, pngH);
    SerializeSnoc(w, s6);
    w := w + [s6];
    ghost var s7 := Segment(time4, 0, END, []);
    out := AppendEnd(out, time4);
    SerializeSnoc(w, s7);
    w := w + [s7];
    assert w == written + CueEndSegments(time3, endtime, time4, width, height, offset, pngW, pngH);
  }

  /** The eight segments as the two written before the palette scan, the
      palette and object segments, and the four after them. */
  lemma CueSegmentsParts(width: int, height: int, defaultOffset: (int, int), cue: Cue,
                         ycc: Rgba -> Ycc, pal: seq<Rgba>, rle: seq<byte>)
    requires IsImage(cue.image) && |pal| <= 256
    ensures var t := CueTiming(cue);
      var o := CueOffset(defaultOffset, cue);
      var w := |cue.image[0]|;
      var h := |cue.image|;
      CueSegments(width, height, defaultOffset, cue, ycc, pal, rle)
        == [ Segment(t.start, t.time1, PCS, ShowBody(width, height, PrefixAt(cue.view, "forced", 0), o)),
             Segment(t.time2, t.time1, WDS, WindowBody(o, w, h)) ]
           + [ Segment(t.time1, 0, PDS, PaletteBody(pal, ycc)),
               Segment(t.time3, t.time1, ODS, ObjectBody(w, h, rle)) ]
           + CueEndSegments(t.time3, t.end, t.time4, width, height, o, w, h)
  {
  }

  /** A cue whose palette fits and whose object fits a segment is written
      as its eight segments, grouped as the muxer writes them. */
  lemma CueOutputWritten(width: int, height: int, defaultOffset: (int, int), cue: Cue, ycc: Rgba -> Ycc, pal: seq<Rgba>)
    requires WellFormed(cue) && PaletteOf(cue.image) == Some(pal)
    requires |CueBitmap(cue)| + 11 <= 65535
    ensures |pal| <= 256 && CoversImage(pal, cue.image)
    ensures var t := CueTiming(cue);
      var o := CueOffset(defaultOffset, cue);
      var w := |cue.image[0]|;
      var h := |cue.image|;
      CueOutput(width, height, defaultOffset, cue, ycc)
        == Written(Serialize(
             [ Segment(t.start, t.time1, PCS, ShowBody(width, height, PrefixAt(cue.view, "forced", 0), o)),
               Segment(t.time2, t.time1, WDS, WindowBody(o, w, h)) ]
           + [ Segment(t.time1, 0, PDS, PaletteBody(pal, ycc)),
               Segment(t.time3, t.time1, ODS, ObjectBody(w, h, BitmapBytes(pal, cue.image))) ]
           + CueEndSegments(t.time3, t.end, t.time4, width, height, o, w, h)))
  {
    PaletteCoversImage(cue.image);
    CueSegmentsParts(width, height, defaultOffset, cue, ycc, pal, BitmapBytes(pal, cue.image));
  }

  /** The composition and window segments that open a cue
      (PGSEncoder/main.c:479-514 and 594-623). */
  method EncodeCueHead(width: int, height: int, t: Timing, forced: bool, offset: (int, int), w: int, h: int)
    returns (out: seq<byte>)
    ensures out == Serialize([ Segment(t.start, t.time1, PCS, ShowBody(width, height, forced, offset)),
                               Segment(t.time2, t.time1, WDS, WindowBody(offset, w, h)) ])
  {
    ghost var s0 := Segment(t.start, t.time1, PCS, ShowBody(width, height, forced, offset));
    out := AppendShow([], t.start, t.time1, width, height, forced, offset);
    assert out == Serialize([s0]);
    ghost var s1 := Segment(t.time2, t.time1, WDS, WindowBody(offset, w, h));
    out := AppendWindow(out, t.time2, t.time1, offset, w, h);
    SerializeSnoc([s0], s1);
    assert [s0] + [s1] == [s0, s1];
  }

  /** The palette, object and end-of-cue segments of one cue, written after the composition and window
      segments already in `supdata`. */
  method EncodeCueBody(supdata: seq<byte>, ghost head: seq<Segment>, width: int, height: int,
                       t: Timing, offset: (int, int), pal: seq<Rgba>, ycc: Rgba -> Ycc, img: seq<seq<Rgba>>)
    returns (out: seq<byte>, bmplength: int)
    requires supdata == Serialize(head)
    requires IsImage(img) && |pal| <= 256 && CoversImage(pal, img)
    ensures bmplength == |BitmapBytes(pal, img)| + 11
    ensures bmplength <= 65535 ==> out == Serialize(head
      + [ Segment(t.time1, 0, PDS, PaletteBody(pal, ycc)),
          Segment(t.time3, t.time1, ODS, ObjectBody(|img[0]|, |img|, BitmapBytes(pal, img))) ]
      + CueEndSegments(t.time3, t.end, t.time4, width, height, offset, |img[0]|, |img|))
  {
    ghost var s2 := Segment(t.time1, 0, PDS, PaletteBody(pal, ycc));
    out := AppendPalette(supdata, t.time1, pal, ycc);
    SerializeSnoc(head, s2);
    out, bmplength := AppendObject(out, t.time3, t.time1, pal, img);
    if bmplength > 65535 {
      return;
    }
    ghost var s3 := Segment(t.time3, t.time1, ODS, ObjectBody(|img[0]|, |img|, BitmapBytes(pal, img)));
    SerializeSnoc(head + [s2], s3);
    assert head + [s2] + [s3] == head + [s2, s3];
    out := AppendCueEnd(out, head + [s2, s3], t.time3, t.end, t.time4, width, height, offset, |img[0]|, |img|);
  }

  /** One pass of the per-cue loop (PGSEncoder/main.c:445-990): offsets,
      forced flag and timestamps, then the eight segments in the source's
      order, with the palette scan after the window segment and the object
      size check before the object is completed. */
  method EncodeCue(width: int, height: int, defaultOffset: (int, int), cue: Cue, ycc: Rgba -> Ycc)
    returns (r: CueResult)
    requires WellFormed(cue)
    ensures r == CueOutput(width, height, defaultOffset, cue, ycc)
  {
    var offset := if cue.offset.None? then defaultOffset else cue.offset.value;
    var onoff := MatchChar(cue.view, "forced", 0);
    var starttime := ClockMs(cue.start);
    var endtime := ClockMs(cue.end);
    starttime := starttime * 90;
    var time1 := starttime - 5832;
    var time2 := starttime - 90;
    var time3 := starttime - 5643;
    endtime := endtime * 90;
    var time4 := endtime - 90;
    var pngW := |cue.image[0]|;
    var pngH := |cue.image|;
    var t := Timing(starttime, endtime, time1, time2, time3, time4);
    assert t == CueTiming(cue);
    assert offset == CueOffset(defaultOffset, cue);
    assert onoff == PrefixAt(cue.view, "forced", 0);
    var supdata := EncodeCueHead(width, height, t, onoff, offset, pngW, pngH);
    ghost var head := [ Segment(starttime, time1, PCS, ShowBody(width, height, onoff, offset)),
                        Segment(time2, time1, WDS, WindowBody(offset, pngW, pngH)) ];
    var palette := BuildPalette(cue.image);
    if palette.None? {
      return TooManyColours;
    }
    var pal := palette.value;
    PaletteCoversImage(cue.image);
    var bmplength;
    supdata, bmplength := EncodeCueBody(supdata, head, width, height, t, offset, pal, ycc, cue.image);
    if bmplength > 65535 {
      return TooComplicated(bmplength);
    }
    CueOutputWritten(width, height, defaultOffset, cue, ycc, pal);
    r := Written(supdata);
  }

  /** All six timestamps of a cue fit the signed 32-bit fields. */
  predicate TimesFit(t: Timing)
  {
    && -0x8000_0000 <= t.time1 && t.start < 0x8000_0000
    && -0x8000_0000 <= t.time4 && t.end < 0x8000_0000
  }

  /** With timestamps that fit and a picture that fits, every segment of a
      cue fits its fields. */
  lemma SegmentsRepresentable(width: int, height: int, defaultOffset: (int, int), cue: Cue, ycc: Rgba -> Ycc,
                              pal: seq<Rgba>, rle: seq<byte>)
    requires IsImage(cue.image) && |pal| <= 256 && TimesFit(CueTiming(cue)) && |rle| + 11 <= 65535
    ensures var segs := CueSegments(width, height, defaultOffset, cue, ycc, pal, rle);
      forall i :: 0 <= i < |segs| ==> Representable(segs[i])
  {
    var segs := CueSegments(width, height, defaultOffset, cue, ycc, pal, rle);
    forall i | 0 <= i < |segs| ensures Representable(segs[i]) {
    }
  }

  /** A reader of the bytes written for a cue gets back the eight segments
      of the cue, with the cue's timestamps, in the muxer's order. */
  lemma CueRoundTrip(width: int, height: int, defaultOffset: (int, int), cue: Cue, ycc: Rgba -> Ycc)
    requires WellFormed(cue) && TimesFit(CueTiming(cue))
    requires CueOutput(width, height, defaultOffset, cue, ycc).Written?
    ensures PaletteOf(cue.image).Some?
    ensures ParseSegments(CueOutput(width, height, defaultOffset, cue, ycc).bytes) ==
      Some(CueSegments(width, height, defaultOffset, cue, ycc, PaletteOf(cue.image).value, CueBitmap(cue)))
  {
    var pal := PaletteOf(cue.image).value;
    var segs := CueSegments(width, height, defaultOffset, cue, ycc, pal, CueBitmap(cue));
    SegmentsRepresentable(width, height, defaultOffset, cue, ycc, pal, CueBitmap(cue));
    SerializeRoundTrip(segs);
  }

  /** The segment kinds and presentation times of a written cue: show at the
      start time with a 5832-tick decode lead, clear at the end time. */
  lemma CueSchedule(width: int, height: int, defaultOffset: (int, int), cue: Cue, ycc: Rgba -> Ycc,
                    pal: seq<Rgba>, rle: seq<byte>)
    requires IsImage(cue.image) && |pal| <= 256
    ensures var segs := CueSegments(width, height, defaultOffset, cue, ycc, pal, rle);
      var start := ClockMs(cue.start) * 90;
      var end := ClockMs(cue.end) * 90;
      && segs[0].kind == PCS && segs[1].kind == WDS && segs[2].kind == PDS && segs[3].kind == ODS
      && segs[4].kind == END && segs[5].kind == PCS && segs[6].kind == WDS && segs[7].kind == END
      && segs[0].pts == start && segs[0].dts == start - 5832
      && (forall i :: 0 <= i < 5 ==> start - 5832 <= segs[i].pts <= start)
      && segs[5].pts == end && segs[5].dts == end - 90
      && (forall i :: 5 <= i < 8 ==> end - 90 <= segs[i].pts <= end)
  {
  }

  /** The size of a written cue: eight 13-byte headers, fixed bodies, five
      bytes per palette entry and the run-length codes. */
  lemma CueSize(width: int, height: int, defaultOffset: (int, int), cue: Cue, ycc: Rgba -> Ycc)
    requires WellFormed(cue)
    requires CueOutput(width, height, defaultOffset, cue, ycc).Written?
    ensures PaletteOf(cue.image).Some?
    ensures |CueOutput(width, height, defaultOffset, cue, ycc).bytes|
      == 167 + 5 * |PaletteOf(cue.image).value| + |CueBitmap(cue)|
    ensures |CueBitmap(cue)| + 11 <= 65535
  {
    SegmentsSize(width, height, defaultOffset, cue, ycc, PaletteOf(cue.image).value, CueBitmap(cue));
  }

  lemma SegmentsSize(width: int, height: int, defaultOffset: (int, int), cue: Cue, ycc: Rgba -> Ycc,
                     pal: seq<Rgba>, rle: seq<byte>)
    requires IsImage(cue.image) && |pal| <= 256
    ensures |Serialize(CueSegments(width, height, defaultOffset, cue, ycc, pal, rle))| == 167 + 5 * |pal| + |rle|
  {
    var segs := CueSegments(width, height, defaultOffset, cue, ycc, pal, rle);
    SerializePrefixLength(segs, 0);
    SerializePrefixLength(segs, 1);
    SerializePrefixLength(segs, 2);
    SerializePrefixLength(segs, 3);
    SerializePrefixLength(segs, 4);
    SerializePrefixLength(segs, 5);
    SerializePrefixLength(segs, 6);
    SerializePrefixLength(segs, 7);
    assert segs[..0] == [];
    assert segs[..8] == segs;
  }

  lemma SerializePrefixLength(segs: seq<Segment>, k: nat)
    requires k < |segs|
    ensures |Serialize(segs[..k + 1])| == |Serialize(segs[..k])| + 13 + |segs[k].body|
  {
    assert segs[..k + 1] == segs[..k] + [segs[k]];
    SerializeSnoc(segs[..k], segs[k]);
  }

  /** Byte 27 of a written cue is the composition's forced flag: 0x40 exactly
      when the `view` attribute starts with "forced". */
  lemma ForcedFlag(width: int, height: int, defaultOffset: (int, int), cue: Cue, ycc: Rgba -> Ycc)
    requires WellFormed(cue)
    requires CueOutput(width, height, defaultOffset, cue, ycc).Written?
    ensures |CueOutput(width, height, defaultOffset, cue, ycc).bytes| > 27
    ensures var b := CueOutput(width, height, defaultOffset, cue, ycc).bytes;
      (b[27] == 0x40 <==> PrefixAt(cue.view, "forced", 0)) && (b[27] == 0x40 || b[27] == 0x00)
  {
    var pal := PaletteOf(cue.image).value;
    var segs := CueSegments(width, height, defaultOffset, cue, ycc, pal, CueBitmap(cue));
    assert Serialize(segs) == SegmentBytes(segs[0]) + Serialize(segs[1..]);
    assert SegmentBytes(segs[0])[27] == segs[0].body[14];
  }

  /** Bytes 28..31 of a written cue are the window position: the cue's own
      `offset` when it has one, the default offset otherwise. */
  lemma CuePosition(width: int, height: int, defaultOffset: (int, int), cue: Cue, ycc: Rgba -> Ycc)
    requires WellFormed(cue)
    requires CueOutput(width, height, defaultOffset, cue, ycc).Written?
    ensures |CueOutput(width, height, defaultOffset, cue, ycc).bytes| > 31
    ensures var b := CueOutput(width, height, defaultOffset, cue, ycc).bytes;
      var o := if cue.offset.Some? then cue.offset.value else defaultOffset;
      b[28..30] == IntToBytes(o.0) && b[30..32] == IntToBytes(o.1)
  {
    var pal := PaletteOf(cue.image).value;
    var segs := CueSegments(width, height, defaultOffset, cue, ycc, pal, CueBitmap(cue));
    assert Serialize(segs) == SegmentBytes(segs[0]) + Serialize(segs[1..]);
    assert SegmentBytes(segs[0])[28..32] == segs[0].body[15..19];
  }

  /** The object's 24-bit data length and picture size read back as written. */
  lemma ObjectFields(w: int, h: int, rle: seq<byte>)
    requires 0 <= w < TWO16 && 0 <= h < TWO16 && |rle| + 4 < TWO16
    ensures var b := ObjectBody(w, h, rle);
      b[4] == 0 && BigEndian16(b[5..7]) == |rle| + 4 && BigEndian16(b[7..9]) == w
      && BigEndian16(b[9..11]) == h && b[11..] == rle
  {
    IntToBytesRoundTrip(|rle| + 4);
    IntToBytesRoundTrip(w);
    IntToBytesRoundTrip(h);
  }

  /** How the muxer's run ended: every cue written, or stopped at cue
      `index` (counted from 0) for the given reason. */
  datatype Outcome = Complete | Stopped(index: nat, reason: CueResult)

  /** The bytes in the output file after the muxer has gone through `cues`:
      each cue's bytes in order; an error ends the run and keeps what the
      earlier cues wrote. */
  function Stream(width: int, height: int, defaultOffset: (int, int), cues: seq<Cue>, ycc: Rgba -> Ycc)
    : (r: (seq<byte>, Outcome))
    requires forall i :: 0 <= i < |cues| ==> WellFormed(cues[i])
    ensures r.1.Stopped? ==> r.1.index < |cues| && !r.1.reason.Written?
    ensures r.1.Stopped? ==> r.1.reason == CueOutput(width, height, defaultOffset, cues[r.1.index], ycc)
  {
    if cues == [] then ([], Complete)
    else
      var prev := Stream(width, height, defaultOffset, cues[..|cues| - 1], ycc);
      if prev.1.Stopped? then prev
      else
        var r := CueOutput(width, height, defaultOffset, cues[|cues| - 1], ycc);
        if r.Written? then (prev.0 + r.bytes, Complete) else (prev.0, Stopped(|cues| - 1, r))
  }

  /** The main loop (PGSEncoder/main.c:445-990): one `fwrite` per cue, and a
      `return` on the first cue that fails. */
  method Mux(width: int, height: int, defaultOffset: (int, int), cues: seq<Cue>, ycc: Rgba -> Ycc)
    returns (file: seq<byte>, outcome: Outcome)
    requires forall i :: 0 <= i < |cues| ==> WellFormed(cues[i])
    ensures (file, outcome) == Stream(width, height, defaultOffset, cues, ycc)
  {
    file, outcome := [], Complete;
    var i := 0;
    while i < |cues|
      invariant 0 <= i <= |cues|
      invariant Stream(width, height, defaultOffset, cues[..i], ycc) == (file, Complete)
    {
      assert cues[..i + 1][..i] == cues[..i];
      var r := EncodeCue(width, height, defaultOffset, cues[i], ycc);
      if !r.Written? {
        outcome := Stopped(i, r);
        StreamStopped(width, height, defaultOffset, cues, ycc, i + 1);
        return;
      }
      file := file + r.bytes;
      i := i + 1;
    }
    assert cues[..|cues|] == cues;
  }

  /** A cue that was written had a palette, and its bytes are its segments. */
  lemma WrittenCue(width: int, height: int, defaultOffset: (int, int), cue: Cue, ycc: Rgba -> Ycc)
    requires WellFormed(cue) && CueOutput(width, height, defaultOffset, cue, ycc).Written?
    ensures PaletteOf(cue.image).Some?
    ensures CueOutput(width, height, defaultOffset, cue, ycc).bytes ==
      Serialize(CueSegments(width, height, defaultOffset, cue, ycc, PaletteOf(cue.image).value, CueBitmap(cue)))
  {
  }

  /** A complete run is a complete run of all but the last cue, followed
      by the last cue's bytes. */
  lemma StreamComplete(width: int, height: int, defaultOffset: (int, int), cues: seq<Cue>, ycc: Rgba -> Ycc)
    requires forall i :: 0 <= i < |cues| ==> WellFormed(cues[i])
    requires cues != [] && Stream(width, height, defaultOffset, cues, ycc).1 == Complete
    ensures Stream(width, height, defaultOffset, cues[..|cues| - 1], ycc).1 == Complete
    ensures CueOutput(width, height, defaultOffset, cues[|cues| - 1], ycc).Written?
    ensures Stream(width, height, defaultOffset, cues, ycc).0 ==
      Stream(width, height, defaultOffset, cues[..|cues| - 1], ycc).0
      + CueOutput(width, height, defaultOffset, cues[|cues| - 1], ycc).bytes
  {
  }

  /** Once the run has stopped, later cues change nothing. */
  lemma {:induction false} StreamStopped(width: int, height: int, defaultOffset: (int, int), cues: seq<Cue>,
                                        ycc: Rgba -> Ycc, k: nat)
    requires forall i :: 0 <= i < |cues| ==> WellFormed(cues[i])
    requires k <= |cues|
    requires Stream(width, height, defaultOffset, cues[..k], ycc).1.Stopped?
    ensures Stream(width, height, defaultOffset, cues, ycc) == Stream(width, height, defaultOffset, cues[..k], ycc)
    decreases |cues|
  {
    if k < |cues| {
      var init := cues[..|cues| - 1];
      assert init[..k] == cues[..k];
      StreamStopped(width, height, defaultOffset, init, ycc, k);
    } else {
      assert cues[..k] == cues;
    }
  }

  /** The output only grows: what a prefix of the cues wrote begins the file. */
  lemma {:induction false} StreamPrefix(width: int, height: int, defaultOffset: (int, int), cues: seq<Cue>,
                                       ycc: Rgba -> Ycc, k: nat)
    requires forall i :: 0 <= i < |cues| ==> WellFormed(cues[i])
    requires k <= |cues|
    ensures Stream(width, height, defaultOffset, cues[..k], ycc).0 <= Stream(width, height, defaultOffset, cues, ycc).0
    decreases |cues|
  {
    if k < |cues| {
      var init := cues[..|cues| - 1];
      assert init[..k] == cues[..k];
      StreamPrefix(width, height, defaultOffset, init, ycc, k);
    } else {
      assert cues[..k] == cues;
    }
  }

  /** The segments of a complete run: each cue's eight segments in order. */
  function AllSegments(width: int, height: int, defaultOffset: (int, int), cues: seq<Cue>, ycc: Rgba -> Ycc)
    : (segs: seq<Segment>)
    requires forall i :: 0 <= i < |cues| ==> WellFormed(cues[i]) && PaletteOf(cues[i].image).Some?
    ensures |segs| == 8 * |cues|
  {
    if cues == [] then []
    else
      var c := cues[|cues| - 1];
      AllSegments(width, height, defaultOffset, cues[..|cues| - 1], ycc)
        + CueSegments(width, height, defaultOffset, c, ycc, PaletteOf(c.image).value, CueBitmap(c))
  }

  /** A complete run writes exactly the serialized segments of all cues. */
  lemma {:induction false} StreamSerializes(width: int, height: int, defaultOffset: (int, int), cues: seq<Cue>,
                                           ycc: Rgba -> Ycc)
    requires forall i :: 0 <= i < |cues| ==> WellFormed(cues[i])
    requires Stream(width, height, defaultOffset, cues, ycc).1 == Complete
    ensures forall i :: 0 <= i < |cues| ==> PaletteOf(cues[i].image).Some?
    ensures Stream(width, height, defaultOffset, cues, ycc).0 == Serialize(AllSegments(width, height, defaultOffset, cues, ycc))
    decreases |cues|
  {
    if cues != [] {
      var init := cues[..|cues| - 1];
      var c := cues[|cues| - 1];
      InitWellFormed(cues, init);
      var bytes := CueOutput(width, height, defaultOffset, c, ycc).bytes;
      assert Stream(width, height, defaultOffset, init, ycc).1 == Complete
          && CueOutput(width, height, defaultOffset, c, ycc).Written?
          && Stream(width, height, defaultOffset, cues, ycc).0 == Stream(width, height, defaultOffset, init, ycc).0 + bytes
      by {
        StreamComplete(width, height, defaultOffset, cues, ycc);
      }
      StreamSerializes(width, height, defaultOffset, init, ycc);
      assert PaletteOf(c.image).Some? by {
        WrittenCue(width, height, defaultOffset, c, ycc);
      }
      var pal := PaletteOf(c.image).value;
      assert bytes == Serialize(CueSegments(width, height, defaultOffset, c, ycc, pal, CueBitmap(c))) by {
        WrittenCue(width, height, defaultOffset, c, ycc);
      }
      forall i | 0 <= i < |cues| ensures PaletteOf(cues[i].image).Some? {
        if i < |init| {
          assert cues[i] == init[i];
        } else {
          assert i == |cues| - 1;
        }
      }
      assert AllSegments(width, height, defaultOffset, cues, ycc)
        == AllSegments(width, height, defaultOffset, init, ycc)
           + CueSegments(width, height, defaultOffset, c, ycc, pal, CueBitmap(c));
      SerializeAppend(AllSegments(width, height, defaultOffset, init, ycc),
        CueSegments(width, height, defaultOffset, c, ycc, pal, CueBitmap(c)));
    }
  }

  /** All cues but the last are well formed when all are. */
  lemma InitWellFormed(cues: seq<Cue>, init: seq<Cue>)
    requires cues != [] && init == cues[..|cues| - 1]
    requires forall i :: 0 <= i < |cues| ==> WellFormed(cues[i])
    ensures forall i :: 0 <= i < |init| ==> WellFormed(init[i])
  {
    forall i | 0 <= i < |init| ensures WellFormed(init[i]) {
      assert init[i] == cues[i];
    }
  }

  /** With timestamps that fit, every segment of a complete run fits its fields. */
  lemma {:induction false} AllRepresentable(width: int, height: int, defaultOffset: (int, int), cues: seq<Cue>,
                                           ycc: Rgba -> Ycc)
    requires forall i :: 0 <= i < |cues| ==> WellFormed(cues[i]) && PaletteOf(cues[i].image).Some?
    requires forall i :: 0 <= i < |cues| ==> TimesFit(CueTiming(cues[i]))
    requires forall i :: 0 <= i < |cues| ==> |CueBitmap(cues[i])| + 11 <= 65535
    ensures forall i :: 0 <= i < 8 * |cues| ==> Representable(AllSegments(width, height, defaultOffset, cues, ycc)[i])
    decreases |cues|
  {
    if cues != [] {
      var init := cues[..|cues| - 1];
      var c := cues[|cues| - 1];
      AllRepresentable(width, height, defaultOffset, init, ycc);
      var a := AllSegments(width, height, defaultOffset, init, ycc);
      var more := CueSegments(width, height, defaultOffset, c, ycc, PaletteOf(c.image).value, CueBitmap(c));
      forall i | 0 <= i < |a| + |more| ensures Representable((a + more)[i]) {
        if i < |a| {
          assert (a + more)[i] == a[i];
          assert Representable(a[i]);
        } else {
          assert TimesFit(CueTiming(c)) && |CueBitmap(c)| + 11 <= 65535;
          SegmentsRepresentable(width, height, defaultOffset, c, ycc, PaletteOf(c.image).value, CueBitmap(c));
          assert (a + more)[i] == more[i - |a|];
          assert Representable(more[i - |a|]);
        }
      }
    }
  }

  /** In a complete run every cue was written, so each picture fits. */
  lemma CompleteCuesFit(width: int, height: int, defaultOffset: (int, int), cues: seq<Cue>, ycc: Rgba -> Ycc)
    requires forall i :: 0 <= i < |cues| ==> WellFormed(cues[i])
    requires Stream(width, height, defaultOffset, cues, ycc).1 == Complete
    ensures forall i :: 0 <= i < |cues| ==> CueOutput(width, height, defaultOffset, cues[i], ycc).Written?
  {
    forall k | 0 <= k < |cues| ensures CueOutput(width, height, defaultOffset, cues[k], ycc).Written? {
      CompleteCueFits(width, height, defaultOffset, cues, ycc, k);
    }
  }

  /** Cue `k` of a complete run was written. */
  lemma {:induction false} CompleteCueFits(width: int, height: int, defaultOffset: (int, int), cues: seq<Cue>,
                                          ycc: Rgba -> Ycc, k: nat)
    requires forall i :: 0 <= i < |cues| ==> WellFormed(cues[i])
    requires Stream(width, height, defaultOffset, cues, ycc).1 == Complete
    requires k < |cues|
    ensures CueOutput(width, height, defaultOffset, cues[k], ycc).Written?
    decreases |cues|
  {
    var init := cues[..|cues| - 1];
    InitWellFormed(cues, init);
    assert Stream(width, height, defaultOffset, init, ycc).1 == Complete
        && CueOutput(width, height, defaultOffset, cues[|cues| - 1], ycc).Written?
    by {
      StreamComplete(width, height, defaultOffset, cues, ycc);
    }
    if k < |init| {
      CompleteCueFits(width, height, defaultOffset, init, ycc, k);
      assert init[k] == cues[k];
    } else {
      assert k == |cues| - 1;
    }
  }

  /** A complete run writes a file from which a reader recovers eight
      segments per cue, each cue's in the muxer's order. */
  lemma StreamRoundTrip(width: int, height: int, defaultOffset: (int, int), cues: seq<Cue>, ycc: Rgba -> Ycc)
    requires forall i :: 0 <= i < |cues| ==> WellFormed(cues[i]) && TimesFit(CueTiming(cues[i]))
    requires Stream(width, height, defaultOffset, cues, ycc).1 == Complete
    ensures forall i :: 0 <= i < |cues| ==> PaletteOf(cues[i].image).Some?
    ensures ParseSegments(Stream(width, height, defaultOffset, cues, ycc).0)
      == Some(AllSegments(width, height, defaultOffset, cues, ycc))
  {
    StreamSerializes(width, height, defaultOffset, cues, ycc);
    CompleteCuesFit(width, height, defaultOffset, cues, ycc);
    forall i | 0 <= i < |cues| ensures |CueBitmap(cues[i])| + 11 <= 65535 {
      CueSize(width, height, defaultOffset, cues[i], ycc);
    }
    AllRepresentable(width, height, defaultOffset, cues, ycc);
    SerializeRoundTrip(AllSegments(width, height, defaultOffset, cues, ycc));
  }
}
