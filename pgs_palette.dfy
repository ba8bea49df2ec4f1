/** The colour palette of one subtitle picture (PGSEncoder/main.c:629-674):
    the decoded PNG is scanned top to bottom and left to right, fully
    transparent pixels are skipped, and every new RGBA value gets the next
    free index. More than 256 colours, or exactly 256 colours in a picture
    that also has transparent pixels, is an error. */
module PgsPalette {
  import opened Wrappers
  import opened Bytes

  datatype Rgba = Rgba(r: byte, g: byte, b: byte, a: byte)

  predicate Transparent(p: Rgba)
  {
    p.a == 0
  }

  /** A decoded PNG: png_h >= 1 rows of png_w >= 1 pixels each (libpng
      refuses images with a zero dimension). */
  predicate IsImage(img: seq<seq<Rgba>>)
  {
    |img| > 0 && |img[0]| > 0 && forall y :: 0 <= y < |img| ==> |img[y]| == |img[0]|
  }

  /** The pixels in scan order. */
  function Flatten(img: seq<seq<Rgba>>): seq<Rgba>
  {
    if img == [] then [] else Flatten(img[..|img| - 1]) + img[|img| - 1]
  }

  /** Every pixel of the picture is scanned. */
  lemma {:induction false} InFlatten(img: seq<seq<Rgba>>, y: nat, x: nat)
    requires y < |img| && x < |img[y]|
    ensures img[y][x] in Flatten(img)
  {
    var last := |img| - 1;
    if y < last {
      assert img[..last][y] == img[y];
      InFlatten(img[..last], y, x);
    } else {
      assert img[y][x] in img[last];
    }
  }

  /** The distinct opaque colours of s, in the order of their first occurrence. */
  function FirstSeen(s: seq<Rgba>): (pal: seq<Rgba>)
    ensures forall i :: 0 <= i < |pal| ==> !Transparent(pal[i]) && pal[i] in s
    ensures forall i, j :: 0 <= i < j < |pal| ==> pal[i] != pal[j]
  {
    if s == [] then []
    else
      var p := FirstSeen(s[..|s| - 1]);
      var x := s[|s| - 1];
      if Transparent(x) || x in p then p else p + [x]
  }

  predicate HasTransparent(s: seq<Rgba>)
  {
    exists i :: 0 <= i < |s| && Transparent(s[i])
  }

  /** The palette of a picture, or None for the "more than 256 colors" error. */
  function PaletteOf(img: seq<seq<Rgba>>): Option<seq<Rgba>>
  {
    var s := Flatten(img);
    var d := FirstSeen(s);
    if |d| > 256 || (|d| == 256 && HasTransparent(s)) then None else Some(d)
  }

  /** The search loop over the palette: the first index holding px, or |pal|. */
  function IndexOf(pal: seq<Rgba>, px: Rgba): (j: nat)
    ensures j <= |pal|
    ensures j < |pal| ==> pal[j] == px
    ensures forall k :: 0 <= k < j ==> pal[k] != px
  {
    if pal == [] then 0
    else if pal[0] == px then 0
    else 1 + IndexOf(pal[1..], px)
  }

  /** The index a pixel is written with: 0xFF marks a transparent pixel. */
  function PixelIndex(pal: seq<Rgba>, px: Rgba): nat
  {
    if Transparent(px) then 0xFF else IndexOf(pal, px)
  }

  /** The palette search loop (`for(j = 0; j < palette_c; j++) ... break;`). */
  method LookUp(pal: seq<Rgba>, px: Rgba) returns (j: nat)
    ensures j == IndexOf(pal, px)
  {
    j := 0;
    while j < |pal| && pal[j] != px
      invariant j <= |pal|
      invariant IndexOf(pal, px) == j + IndexOf(pal[j..], px)
    {
      assert pal[j..][1..] == pal[j + 1..];
      j := j + 1;
    }
  }

  /** The pixels scanned before pixel x of row y. */
  ghost function Scanned(img: seq<seq<Rgba>>, y: nat, x: nat): seq<Rgba>
    requires y < |img| && x <= |img[y]|
  {
    Flatten(img[..y]) + img[y][..x]
  }

  /** One pixel of the scan: a transparent pixel sets `aflag`, a colour not
      yet in the palette is added, or overflows a full palette. */
  method ScanPixel(img: seq<seq<Rgba>>, y: nat, x: nat, palette: array<Rgba>, count: nat, aflag: bool)
    returns (newCount: nat, newAflag: bool, overflow: bool)
    requires y < |img| && x < |img[y]| && palette.Length == 256 && count <= 256
    requires palette[..count] == FirstSeen(Scanned(img, y, x))
    requires aflag == HasTransparent(Scanned(img, y, x))
    modifies palette
    ensures newCount <= 256
    ensures overflow ==> |FirstSeen(Flatten(img))| > 256
    ensures !overflow ==> palette[..newCount] == FirstSeen(Scanned(img, y, x + 1))
    ensures !overflow ==> newAflag == HasTransparent(Scanned(img, y, x + 1))
  {
    newCount, newAflag, overflow := count, aflag, false;
    ghost var before := Scanned(img, y, x);
    var px := img[y][x];
    assert Scanned(img, y, x + 1) == before + [px];
    HasTransparentAppend(before, px);
    if Transparent(px) {
      newAflag := true;
      return;
    }
    var j := LookUp(palette[..count], px);
    if j == count {
      if count == 256 {
        ScannedIsPrefix(img, y, x + 1);
        OverflowPersists(before + [px], Flatten(img));
        overflow := true;
        return;
      }
      palette[count] := px;
      newCount := count + 1;
    }
  }

  /** The inner loop of the scan over row y. On overflow the picture has
      more than 256 colours; otherwise the palette and `aflag` describe all
      rows up to and including y. */
  method ScanRow(img: seq<seq<Rgba>>, y: nat, palette: array<Rgba>, count: nat, aflag: bool)
    returns (newCount: nat, newAflag: bool, overflow: bool)
    requires y < |img| && palette.Length == 256 && count <= 256
    requires palette[..count] == FirstSeen(Flatten(img[..y]))
    requires aflag == HasTransparent(Flatten(img[..y]))
    modifies palette
    ensures newCount <= 256
    ensures overflow ==> |FirstSeen(Flatten(img))| > 256
    ensures !overflow ==> palette[..newCount] == FirstSeen(Flatten(img[..y + 1]))
    ensures !overflow ==> newAflag == HasTransparent(Flatten(img[..y + 1]))
  {
    newCount, newAflag, overflow := count, aflag, false;
    var x := 0;
    assert Scanned(img, y, 0) == Flatten(img[..y]);
    while x < |img[y]|
      invariant 0 <= x <= |img[y]| && 0 <= newCount <= 256
      invariant palette[..newCount] == FirstSeen(Scanned(img, y, x))
      invariant newAflag == HasTransparent(Scanned(img, y, x))
    {
      newCount, newAflag, overflow := ScanPixel(img, y, x, palette, newCount, newAflag);
      if overflow {
        return;
      }
      x := x + 1;
    }
    assert Flatten(img[..y + 1]) == Scanned(img, y, |img[y]|) by {
      assert img[..y + 1][..y] == img[..y];
      assert img[y][..|img[y]|] == img[y];
    }
  }

  /** The scan of PGSEncoder/main.c:629-674, with the four `palette_*` arrays
      held as one array of 256 colours and the count `palette_c`. */
  method BuildPalette(img: seq<seq<Rgba>>) returns (r: Option<seq<Rgba>>)
    requires IsImage(img)
    ensures r == PaletteOf(img)
  {
    var palette := new Rgba[256](_ => Rgba(0, 0, 0, 0));
    var paletteCount := 0;
    var aflag := false;
    var y := 0;
    while y < |img|
      invariant 0 <= y <= |img| && 0 <= paletteCount <= 256
      invariant palette[..paletteCount] == FirstSeen(Flatten(img[..y]))
      invariant aflag == HasTransparent(Flatten(img[..y]))
    {
      var overflow;
      paletteCount, aflag, overflow := ScanRow(img, y, palette, paletteCount, aflag);
      if overflow {
        return None;
      }
      y := y + 1;
    }
    assert img[..|img|] == img;
    if aflag && paletteCount == 256 {
      return None;
    }
    r := Some(palette[..paletteCount]);
  }

  /** Once more than 256 colours have been seen, the whole scan has more. */
  lemma OverflowPersists(s: seq<Rgba>, all: seq<Rgba>)
    requires s <= all && |FirstSeen(s)| > 256
    ensures |FirstSeen(all)| > 256
  {
    assert all == s + all[|s|..];
    FirstSeenPrefix(s, all[|s|..]);
  }

  lemma HasTransparentAppend(s: seq<Rgba>, px: Rgba)
    ensures HasTransparent(s + [px]) <==> HasTransparent(s) || Transparent(px)
  {
    if HasTransparent(s) {
      var i :| 0 <= i < |s| && Transparent(s[i]);
      assert (s + [px])[i] == s[i];
    }
    if Transparent(px) {
      assert (s + [px])[|s|] == px;
    }
    if HasTransparent(s + [px]) {
      var i :| 0 <= i < |s| + 1 && Transparent((s + [px])[i]);
      if i < |s| {
        assert s[i] == (s + [px])[i];
      } else {
        assert (s + [px])[i] == px;
      }
    }
  }

  /** The pixels scanned so far are a prefix of the whole scan. */
  lemma ScannedIsPrefix(img: seq<seq<Rgba>>, y: nat, x: nat)
    requires y < |img| && x <= |img[y]|
    ensures Scanned(img, y, x) <= Flatten(img)
  {
    FlattenPrefix(img, y + 1);
    assert img[..y + 1][..y] == img[..y];
    assert Flatten(img[..y + 1]) == Flatten(img[..y]) + img[y];
  }

  lemma {:induction false} FlattenPrefix(img: seq<seq<Rgba>>, k: nat)
    requires k <= |img|
    ensures Flatten(img[..k]) <= Flatten(img)
    decreases |img|
  {
    if k < |img| {
      FlattenPrefix(img[..|img| - 1], k);
      assert img[..|img| - 1][..k] == img[..k];
    } else {
      assert img[..k] == img;
    }
  }

  /** Scanning further never reorders or drops colours already in the
      palette: the palette of a prefix is a prefix of the palette. */
  lemma {:induction false} FirstSeenPrefix(s: seq<Rgba>, t: seq<Rgba>)
    ensures FirstSeen(s) <= FirstSeen(s + t)
    decreases |t|
  {
    if t == [] {
      assert s + t == s;
    } else {
      var u := s + t[..|t| - 1];
      FirstSeenPrefix(s, t[..|t| - 1]);
      assert (s + t)[..|s + t| - 1] == u;
    }
  }

  /** Every opaque colour of the scanned pixels is in the palette. */
  lemma {:induction false} FirstSeenComplete(s: seq<Rgba>, px: Rgba)
    requires px in s && !Transparent(px)
    ensures px in FirstSeen(s)
    decreases |s|
  {
    if s[|s| - 1] != px {
      assert px in s[..|s| - 1];
      FirstSeenComplete(s[..|s| - 1], px);
    }
  }

  /** With the palette of a picture, every opaque pixel's index points at its
      own colour, and every transparent pixel gets 0xFF, which is not an index
      of the palette whenever the picture has a transparent pixel. */
  lemma IndexRecoversColour(img: seq<seq<Rgba>>, y: nat, x: nat)
    requires PaletteOf(img).Some? && y < |img| && x < |img[y]|
    ensures var pal := PaletteOf(img).value;
      var px := img[y][x];
      var j := PixelIndex(pal, px);
      (!Transparent(px) ==> j < |pal| && pal[j] == px) &&
      (Transparent(px) ==> j == 0xFF && |pal| <= 0xFF)
  {
    var s := Flatten(img);
    var px := img[y][x];
    InFlatten(img, y, x);
    if !Transparent(px) {
      FirstSeenComplete(s, px);
    } else {
      var i :| 0 <= i < |s| && s[i] == px;
      assert HasTransparent(s);
    }
  }
}
