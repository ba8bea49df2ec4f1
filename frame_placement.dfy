/** Where the frame creators put each rendered subtitle image on the video
    frame (subtitle-renderer/src/pgsframecreator.cpp:178-237 and
    SubtitleRenderer/pgsframecreator.cpp:113-158). The renderer reports
    the image size and `pos`, the offset inside the image of the point that
    must sit on the margin line: the right edge of the main column for
    vertical text, the base of the last main line for horizontal text.
    The sums are computed in unsigned arithmetic and stored in an
    `unsigned long`. */
module FramePlacement {
  import opened Numbers

  const TWO32: int := 0x1_0000_0000

  /** An unsigned 64-bit result. */
  function Wrap64(v: int): (r: nat)
    ensures r < TWO64
  {
    v % TWO64
  }

  /** An unsigned 32-bit result. */
  function Wrap32(v: int): (r: nat)
    ensures r < TWO32
  {
    v % TWO32
  }

  /** The image position written for one subtitle. */
  datatype Placed = Placed(x: nat, y: nat)

  /** What the renderer reports about the image: its size and the offset
      of the point to align inside it. */
  datatype Rendered = Rendered(width: nat, height: nat, posX: nat, posY: nat)

  /** The style margins, in pixels. */
  datatype Margins = Margins(top: int, side: int, bottom: int)

  /** Adding to a value wrapped at 64 bits wraps the same as adding
      first. */
  lemma WrapAdd64(a: int, b: int)
    ensures (a % TWO64 + b) % TWO64 == (a + b) % TWO64
  {
    var q := a / TWO64;
    assert a == q * TWO64 + a % TWO64;
  }

  /** The same at 32 bits. */
  lemma WrapAdd32(a: int, b: int)
    ensures (a % TWO32 + b) % TWO32 == (a + b) % TWO32
  {
    var q := a / TWO32;
    assert a == q * TWO32 + a % TWO32;
  }

  /** A value already in range is its own wrap. */
  lemma SmallWraps(v: int)
    requires 0 <= v < TWO32
    ensures Wrap32(v) == v && Wrap64(v) == v
  {
  }

  /** The same at 64 bits. */
  lemma SmallWraps64(v: int)
    requires 0 <= v < TWO64
    ensures Wrap64(v) == v
  {
  }

  /** `a - b` in `unsigned` arithmetic, for two `unsigned` values: the
      difference, or 2^32 more when it is negative. */
  lemma Wrap32Diff(a: int, b: int)
    requires 0 <= a < TWO32 && 0 <= b < TWO32
    ensures Wrap32(a - b) == a - b + (if b <= a then 0 else TWO32)
  {
    if b > a {
      assert 0 <= a - b + TWO32 < TWO32;
      assert (a - b + TWO32) % TWO32 == a - b + TWO32;
      WrapAdd32(a - b + TWO32, -TWO32);
    }
  }

  /** The placement of the newer frame creator. The screen size
      (`_width`, `_height`) and the image size are `unsigned`; the margins
      are `unsigned long`. Case by case:
      - vertical, right: `_width - size.width` wraps at 32 bits, then the
        margin is taken off in 64 bits and the signed `size.width - pos.x`
        added, so an image wider than the screen lands 2^32 further on;
      - left (either direction): the side margin; vertical y: the top margin;
      - horizontal, centre: `_width/2 - size.width/2` has no margin and is
        all 32-bit, so it gains 2^32 when the image's half is the larger;
      - horizontal, right: `_width - marginSide` is already 64-bit, so the
        whole sum wraps at 64 bits and no 2^32 term appears;
      - horizontal y: as vertical right, with the heights, the bottom
        margin and `pos.y`;
      - an unknown alignment leaves x at 0. */
  function PlaceNewer(screenW: nat, screenH: nat, img: Rendered, alignment: string, vertical: bool, m: Margins): (p: Placed)
    requires screenW < TWO32 && screenH < TWO32 && img.width < TWO32 && img.height < TWO32
    requires m.top >= 0 && m.side >= 0 && m.bottom >= 0
    ensures vertical && alignment == "right" ==>
      p.x == Wrap64(screenW - m.side - img.posX + (if img.width <= screenW then 0 else TWO32))
    ensures vertical && alignment == "left" ==> p.x == m.side % TWO64
    ensures vertical ==> p.y == m.top % TWO64
    ensures !vertical && alignment == "left" ==> p.x == m.side % TWO64
    ensures !vertical && alignment == "center" ==>
      p.x == screenW / 2 - img.width / 2 + (if img.width / 2 <= screenW / 2 then 0 else TWO32)
    ensures !vertical && alignment == "right" ==> p.x == Wrap64(screenW - m.side - img.width)
    ensures !vertical ==>
      p.y == Wrap64(screenH - m.bottom - img.posY + (if img.height <= screenH then 0 else TWO32))
    ensures alignment != "left" && alignment != "right" && (vertical || alignment != "center") ==> p.x == 0
  {
    if vertical then
      var x :=
        if alignment == "right" then
          Wrap32Diff(screenW, img.width);
          WrapAdd64(Wrap32(screenW - img.width) - m.side, img.width - img.posX);
          Wrap64(Wrap64(Wrap32(screenW - img.width) - m.side) + (img.width - img.posX))
        else if alignment == "left" then Wrap64(m.side)
        else 0;
      Placed(x, Wrap64(m.top))
    else
      var x :=
        if alignment == "left" then Wrap64(m.side)
        else if alignment == "center" then
          Wrap32Diff(screenW / 2, img.width / 2);
          Wrap32(screenW / 2 - img.width / 2)
        else if alignment == "right" then
          WrapAdd64(screenW - m.side, -(img.width as int));
          Wrap64(Wrap64(screenW - m.side) - img.width)
        else 0;
      Wrap32Diff(screenH, img.height);
      WrapAdd64(Wrap32(screenH - img.height) - m.bottom, img.height - img.posY);
      Placed(x, Wrap64(Wrap64(Wrap32(screenH - img.height) - m.bottom) + (img.height - img.posY)))
  }

  /** The placement of the older frame creator. Its width and height are
      `unsigned` and its margins `int`, so the sums wrap at 32 bits before
      they are widened; a margin stored directly is widened with its sign. */
  function PlaceOlder(screenW: nat, screenH: nat, img: Rendered, alignment: string, vertical: bool, m: Margins): (p: Placed)
    ensures vertical && alignment == "right" ==> p.x == Wrap32(screenW - m.side - img.posX)
    ensures vertical && alignment == "left" ==> p.x == Wrap64(m.side)
    ensures vertical ==> p.y == Wrap64(m.top)
    ensures !vertical && alignment == "left" ==> p.x == Wrap64(m.side)
    ensures !vertical && alignment == "center" && screenW < TWO32 && img.width < TWO32 ==>
      p.x == screenW / 2 - img.width / 2 + (if img.width / 2 <= screenW / 2 then 0 else TWO32)
    ensures !vertical && alignment == "right" ==> p.x == Wrap32(screenW - m.side - img.width)
    ensures !vertical ==> p.y == Wrap32(screenH - m.bottom - img.posY)
    ensures alignment != "left" && alignment != "right" && (vertical || alignment != "center") ==> p.x == 0
  {
    if vertical then
      var x :=
        if alignment == "right" then
          WrapAdd32(screenW - img.width - m.side, Wrap32(img.width - img.posX));
          WrapAdd32(img.width - img.posX, screenW - img.width - m.side);
          WrapAdd32(screenW - img.width, -m.side);
          Wrap32(Wrap32(Wrap32(screenW - img.width) - m.side) + Wrap32(img.width - img.posX))
        else if alignment == "left" then Wrap64(m.side)
        else 0;
      Placed(x, Wrap64(m.top))
    else
      var x :=
        if alignment == "left" then Wrap64(m.side)
        else if alignment == "center" then
          if screenW < TWO32 && img.width < TWO32 then
            Wrap32Diff(screenW / 2, img.width / 2);
            Wrap32(screenW / 2 - img.width / 2)
          else Wrap32(screenW / 2 - img.width / 2)
        else if alignment == "right" then
          WrapAdd32(screenW - m.side, -(img.width as int));
          Wrap32(Wrap32(screenW - m.side) - img.width)
        else 0;
      WrapAdd32(screenH - img.height - m.bottom, Wrap32(img.height - img.posY));
      WrapAdd32(img.height - img.posY, screenH - img.height - m.bottom);
      WrapAdd32(screenH - img.height, -m.bottom);
      Placed(x, Wrap32(Wrap32(Wrap32(screenH - img.height) - m.bottom) + Wrap32(img.height - img.posY)))
  }

  /** When the screen has room, the newer placement aligns the image as the
      style asks: horizontally the base of the last line sits on the bottom
      margin line, a left-aligned image starts on the side margin line, a
      right-aligned one ends on it and a centred one is centred;
      vertically the main column's right edge sits on the side margin
      line. */
  lemma NewerPlacementAligns(screenW: nat, screenH: nat, img: Rendered, alignment: string, vertical: bool, m: Margins)
    requires screenW < TWO32 && screenH < TWO32 && img.width < TWO32 && img.height < TWO32
    requires m.top >= 0 && m.side >= 0 && m.bottom >= 0 && m.side < TWO64
    ensures var p := PlaceNewer(screenW, screenH, img, alignment, vertical, m);
      && (!vertical && img.height <= screenH && m.bottom + img.posY <= screenH ==>
            p.y + img.posY + m.bottom == screenH)
      && (!vertical && alignment == "left" ==> p.x == m.side)
      && (!vertical && alignment == "right" && m.side + img.width <= screenW ==>
            p.x + img.width + m.side == screenW)
      && (!vertical && alignment == "center" && img.width <= screenW ==>
            p.x + img.width / 2 == screenW / 2)
      && (vertical && alignment == "right" && img.width <= screenW && m.side + img.posX <= screenW ==>
            p.x + img.posX + m.side == screenW)
  {
    if vertical {
      if alignment == "right" && img.width <= screenW && m.side + img.posX <= screenW {
        SmallWraps64(screenW - m.side - img.posX);
      }
    } else {
      if img.height <= screenH && m.bottom + img.posY <= screenH {
        SmallWraps64(screenH - m.bottom - img.posY);
      }
      if alignment == "right" && m.side + img.width <= screenW {
        SmallWraps64(screenW - m.side - img.width);
      }
    }
  }

  /** An image taller than the screen, or wider than it for vertical text
      aligned right, is placed 2^32 pixels further on by the newer frame
      creator than by the older one: the newer one widens the wrapped
      32-bit difference to 64 bits instead of letting it wrap back. */
  lemma NewerOvershootsLargeImage(screenW: nat, screenH: nat, img: Rendered, alignment: string, vertical: bool, m: Margins)
    requires screenW < TWO32 && screenH < TWO32 && img.width < TWO32 && img.height < TWO32
    requires 0 <= m.side && 0 <= m.bottom && 0 <= m.top < TWO32
    requires !vertical ==> screenH < img.height && m.bottom + img.posY <= screenH
    requires vertical ==> alignment == "right" && screenW < img.width && m.side + img.posX <= screenW
    ensures var n := PlaceNewer(screenW, screenH, img, alignment, vertical, m);
      var o := PlaceOlder(screenW, screenH, img, alignment, vertical, m);
      && (!vertical ==> n.y == o.y + TWO32 && o.y == screenH - m.bottom - img.posY)
      && (vertical ==> n.x == o.x + TWO32 && o.x == screenW - m.side - img.posX)
  {
    if vertical {
      SmallWraps(screenW - m.side - img.posX);
      SmallWraps64(screenW - m.side - img.posX + TWO32);
    } else {
      SmallWraps(screenH - m.bottom - img.posY);
      SmallWraps64(screenH - m.bottom - img.posY + TWO32);
    }
  }

  /** The older placement agrees with the newer one whenever the image fits
      the screen, no sum leaves the 32-bit range and the margins are not
      negative. */
  lemma GenerationsAgree(screenW: nat, screenH: nat, img: Rendered, alignment: string, vertical: bool, m: Margins)
    requires m.top >= 0 && m.side >= 0 && m.bottom >= 0
    requires screenW < TWO32 && screenH < TWO32 && m.top < TWO32
    requires m.side + img.width <= screenW && m.side + img.posX <= screenW
    requires img.height <= screenH && m.bottom + img.posY <= screenH
    ensures PlaceOlder(screenW, screenH, img, alignment, vertical, m)
      == PlaceNewer(screenW, screenH, img, alignment, vertical, m)
  {
    var o := PlaceOlder(screenW, screenH, img, alignment, vertical, m);
    var n := PlaceNewer(screenW, screenH, img, alignment, vertical, m);
    if vertical {
      SmallWraps(m.top);
      if alignment == "right" {
        SmallWraps(screenW - m.side - img.posX);
      }
    } else {
      SmallWraps(screenH - m.bottom - img.posY);
      if alignment == "right" {
        SmallWraps(screenW - m.side - img.width);
      }
    }
  }
}
