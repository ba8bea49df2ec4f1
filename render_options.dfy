/** The small mappings of the PNG renderer that turn style options into
    drawing settings (subtitle-renderer/src/pngrenderer.cpp and
    SubtitleRenderer/pngrenderer.cpp), and the correction of the reported
    image position once the rendered image has been cropped. */
module RenderOptions {

  /** `PNGRenderer::TextJustify`. */
  datatype TextJustify = Left | Center | Right

  /** `PNGRenderer::FuriganaDistance`; `Unlisted` stands for a value of the
      enumeration that none of the tests names. */
  datatype FuriganaDistance = None | Narrow | Far | Unchanged | Unlisted

  /** The two `Qt::AlignmentFlag` values the renderer uses. */
  datatype Alignment = AlignLeft | AlignCenter

  /** What `compileFont` switches on in the `QFont`. */
  datatype FontFlags = FontFlags(italic: bool, bold: bool)

  /** `getQtTextAlignmentFlag`: only left-justified text is aligned left. */
  function TextAlignment(j: TextJustify): (a: Alignment)
    ensures a == AlignLeft <==> j == Left
  {
    if j == Left then AlignLeft
    else if j == Center then AlignCenter
    else AlignCenter
  }

  /** The alignment the painter is given: vertical text is always centred. */
  function PainterAlignment(j: TextJustify, vertical: bool): (a: Alignment)
    ensures vertical ==> a == AlignCenter
    ensures !vertical ==> a == TextAlignment(j)
    ensures a == AlignLeft <==> !vertical && j == Left
  {
    var alignment := TextAlignment(j);
    if vertical then AlignCenter else alignment
  }

  /** `getFuriganaDistanceValue`: the gap between kanji and reading. */
  function FuriganaDistanceValue(d: FuriganaDistance): (v: int)
    ensures v == -1 <==> d == Unchanged
    ensures d != Unchanged ==> 15 <= v <= 25
    ensures v == 15 <==> d == None
    ensures v == 25 <==> d == Far
    ensures d == Narrow || d == Unlisted ==> v == 20
  {
    if d == None then 15
    else if d == Narrow then 20
    else if d == Far then 25
    else if d == Unchanged then -1
    else 20
  }

  /** The flags `compileFont` sets for a style name (newer generation). */
  function FontStyleFlags(style: string): (f: FontFlags)
    ensures f.italic <==> style == "italic" || style == "bold-italic"
    ensures f.bold <==> style == "bold" || style == "bold-italic"
  {
    if style == "italic" then FontFlags(true, false)
    else if style == "bold" then FontFlags(false, true)
    else if style == "bold-italic" then FontFlags(true, true)
    else FontFlags(false, false)
  }

  /** The position `render` reports for the image (`pos_t`, unsigned
      coordinates). */
  class Position {
    var x: nat
    var y: nat
    var vertical: bool

    constructor (x0: nat, y0: nat, vertical0: bool)
      ensures x == x0 && y == y0 && vertical == vertical0
    {
      x, y, vertical := x0, y0, vertical0;
    }

    /** After `cropFromTop` rows and `cropFromLeft` columns are cut off, a
        point moves up and left by as much, but never past the image edge:
        each coordinate becomes the least one that, shifted back, reaches
        the old coordinate. */
    method AdjustForCrop(cropFromTop: nat, cropFromLeft: nat)
      modifies this
      ensures y + cropFromTop >= old(y) && (y == 0 || y + cropFromTop == old(y))
      ensures x + cropFromLeft >= old(x) && (x == 0 || x + cropFromLeft == old(x))
      ensures vertical == old(vertical)
    {
      if y >= cropFromTop {
        y := y - cropFromTop;
      } else {
        y := 0;
      }
      if x >= cropFromLeft {
        x := x - cropFromLeft;
      } else {
        x := 0;
      }
    }
  }
}
