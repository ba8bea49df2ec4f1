/** Detection of the blank border of a rendered subtitle image
    (subtitle-renderer/src/helpers.cpp): how many rows at the top or bottom,
    and how many columns at the left or right, hold nothing but zero
    channel values, so that the image can be cropped to its ink. */
module CropDetection {

  /** A pixel grid as `getConstPixels` reads it: `channel(x, y, k)` is
      channel `k` (red, green, blue, alpha) of the pixel in column `x` and
      row `y`. The function is total, because the bottom and right scans
      also read the row `height` and the column `width`, one past the
      image, whose values come from the image library's virtual pixels. */
  datatype Image = Image(width: nat, height: nat, channel: (int, int, int) -> nat)

  /** Entry `j` of the quanta of row `y` (RGBA, so `width * 4` of them). */
  function RowQuantum(img: Image, y: int, j: nat): nat
  {
    img.channel(j / 4, y, j % 4)
  }

  /** Entry `j` of the quanta of column `x` (`height * 4` of them). */
  function ColQuantum(img: Image, x: int, j: nat): nat
  {
    img.channel(x, j / 4, j % 4)
  }

  /** Every quantum of row `y` is zero, transparent black included and
      any colour on a transparent pixel excluded. */
  predicate RowEmpty(img: Image, y: int)
  {
    forall j: nat :: j < img.width * 4 ==> RowQuantum(img, y, j) == 0
  }

  /** Every quantum of column `x` is zero. */
  predicate ColEmpty(img: Image, x: int)
  {
    forall j: nat :: j < img.height * 4 ==> ColQuantum(img, x, j) == 0
  }

  /** The same pixels with rows and columns exchanged. */
  function Transposed(img: Image): (t: Image)
    ensures t.width == img.height && t.height == img.width
  {
    Image(img.height, img.width, (x, y, k) => img.channel(y, x, k))
  }

  /** A column of an image is a row of its transposition. */
  lemma ColIsTransposedRow(img: Image, x: int)
    ensures ColEmpty(img, x) <==> RowEmpty(Transposed(img), x)
  {
    var t := Transposed(img);
    forall j: nat | j < img.height * 4
      ensures ColQuantum(img, x, j) == RowQuantum(t, x, j)
    {
    }
  }

  /** The inner loop of `cropDetectionRow`: true (`quit`) when a quantum
      of row `y` is not zero. */
  method RowHasInk(img: Image, y: int) returns (quit: bool)
    ensures quit <==> !RowEmpty(img, y)
  {
    quit := false;
    var col: nat := 0;
    while col < img.width * 4
      invariant col <= img.width * 4
      invariant forall j: nat :: j < col ==> RowQuantum(img, y, j) == 0
    {
      if RowQuantum(img, y, col) > 0 {
        quit := true;
        break;
      }
      col := col + 1;
    }
  }

  /** The inner loop of `cropDetectionCol`. */
  method ColHasInk(img: Image, x: int) returns (quit: bool)
    ensures quit <==> !ColEmpty(img, x)
  {
    quit := false;
    var row: nat := 0;
    while row < img.height * 4
      invariant row <= img.height * 4
      invariant forall j: nat :: j < row ==> ColQuantum(img, x, j) == 0
    {
      if ColQuantum(img, x, row) > 0 {
        quit := true;
        break;
      }
      row := row + 1;
    }
  }

  /** From the top, the rows 0, 1, ... counted while empty; from the
      bottom, the rows `height`, `height - 1`, ..., 1 (never row 0). */
  predicate CountsEmptyRows(img: Image, fromTop: bool, n: nat)
  {
    && n <= img.height
    && (fromTop ==>
          && (forall y :: 0 <= y < n ==> RowEmpty(img, y))
          && (n < img.height ==> !RowEmpty(img, n)))
    && (!fromTop ==>
          && (forall y :: img.height - n < y <= img.height ==> RowEmpty(img, y))
          && (n < img.height ==> !RowEmpty(img, img.height - n)))
  }

  /** The same for columns: from the left 0, 1, ...; from the right
      `width`, ..., 1. */
  predicate CountsEmptyCols(img: Image, fromLeft: bool, n: nat)
  {
    && n <= img.width
    && (fromLeft ==>
          && (forall x :: 0 <= x < n ==> ColEmpty(img, x))
          && (n < img.width ==> !ColEmpty(img, n)))
    && (!fromLeft ==>
          && (forall x :: img.width - n < x <= img.width ==> ColEmpty(img, x))
          && (n < img.width ==> !ColEmpty(img, img.width - n)))
  }

  /** `cropDetectionRow`. */
  method CropDetectionRow(img: Image, fromTop: bool) returns (emptyRows: nat)
    ensures CountsEmptyRows(img, fromTop, emptyRows)
  {
    emptyRows := 0;
    if fromTop {
      var row: nat := 0;
      while row < img.height
        invariant emptyRows == row <= img.height
        invariant forall y :: 0 <= y < row ==> RowEmpty(img, y)
      {
        var quit := RowHasInk(img, row);
        if quit {
          break;
        }
        emptyRows := emptyRows + 1;
        row := row + 1;
      }
    } else {
      var row: nat := img.height;
      while row != 0
        invariant emptyRows + row == img.height
        invariant forall y :: row < y <= img.height ==> RowEmpty(img, y)
      {
        var quit := RowHasInk(img, row);
        if quit {
          break;
        }
        emptyRows := emptyRows + 1;
        row := row - 1;
      }
    }
  }

  /** `cropDetectionCol`. */
  method CropDetectionCol(img: Image, fromLeft: bool) returns (emptyCols: nat)
    ensures CountsEmptyCols(img, fromLeft, emptyCols)
  {
    emptyCols := 0;
    if fromLeft {
      var col: nat := 0;
      while col < img.width
        invariant emptyCols == col <= img.width
        invariant forall x :: 0 <= x < col ==> ColEmpty(img, x)
      {
        var quit := ColHasInk(img, col);
        if quit {
          break;
        }
        emptyCols := emptyCols + 1;
        col := col + 1;
      }
    } else {
      var col: nat := img.width;
      while col != 0
        invariant emptyCols + col == img.width
        invariant forall x :: col < x <= img.width ==> ColEmpty(img, x)
      {
        var quit := ColHasInk(img, col);
        if quit {
          break;
        }
        emptyCols := emptyCols + 1;
        col := col - 1;
      }
    }
  }

  /** The count is determined: any two counts that satisfy the description
      agree, so the methods compute a function of the image. */
  lemma EmptyRowsUnique(img: Image, fromTop: bool, n: nat, m: nat)
    requires CountsEmptyRows(img, fromTop, n) && CountsEmptyRows(img, fromTop, m)
    ensures n == m
  {
    if fromTop {
      assert n < m ==> RowEmpty(img, n);
      assert m < n ==> RowEmpty(img, m);
    } else {
      assert n < m ==> RowEmpty(img, img.height - n);
      assert m < n ==> RowEmpty(img, img.height - m);
    }
  }

  /** An image whose rows are all blank is counted blank through its full
      height from the top. */
  lemma BlankImageCountsHeight(img: Image, n: nat)
    requires forall y :: 0 <= y < img.height ==> RowEmpty(img, y)
    requires CountsEmptyRows(img, true, n)
    ensures n == img.height
  {
    assert n < img.height ==> RowEmpty(img, n);
  }

  /** The crop of lines 732-738 of subtitle-renderer/src/pngrenderer.cpp
      asks for `height - (top + bottom)` rows in unsigned arithmetic. When
      some row of the image holds ink, the two counts never overlap, so
      that difference does not wrap around. */
  lemma CropRowsFit(img: Image, top: nat, bottom: nat, ink: int)
    requires 0 <= ink < img.height && !RowEmpty(img, ink)
    requires CountsEmptyRows(img, true, top) && CountsEmptyRows(img, false, bottom)
    ensures top + bottom <= img.height
  {
    // the top count stops at the first ink row, which is at most `ink`
    assert top > ink ==> RowEmpty(img, ink);
    // the bottom count stops at the last ink row, which is at least `ink`
    assert ink > 0 && bottom > img.height - ink ==> RowEmpty(img, ink);
  }

  /** When every row is blank but the virtual row past the bottom is blank
      too, both counts are the full height and their sum overshoots it,
      which is where the unsigned difference would wrap. */
  lemma BlankImageOvershoots(img: Image, top: nat, bottom: nat)
    requires img.height > 0
    requires forall y :: 0 <= y <= img.height ==> RowEmpty(img, y)
    requires CountsEmptyRows(img, true, top) && CountsEmptyRows(img, false, bottom)
    ensures top == img.height && bottom == img.height
    ensures top + bottom > img.height
  {
    BlankImageCountsHeight(img, top);
    assert bottom < img.height ==> RowEmpty(img, img.height - bottom);
  }

  /** The column counts are the row counts of the transposed image. */
  lemma ColsAreTransposedRows(img: Image, fromLeft: bool, n: nat)
    ensures CountsEmptyCols(img, fromLeft, n) <==> CountsEmptyRows(Transposed(img), fromLeft, n)
  {
    var t := Transposed(img);
    forall x
      ensures ColEmpty(img, x) <==> RowEmpty(t, x)
    {
      ColIsTransposedRow(img, x);
    }
  }

  /** So the columns cut from the left and right fit the width when some
      column holds ink. */
  lemma CropColsFit(img: Image, left: nat, right: nat, ink: int)
    requires 0 <= ink < img.width && !ColEmpty(img, ink)
    requires CountsEmptyCols(img, true, left) && CountsEmptyCols(img, false, right)
    ensures left + right <= img.width
  {
    ColsAreTransposedRows(img, true, left);
    ColsAreTransposedRows(img, false, right);
    ColIsTransposedRow(img, ink);
    CropRowsFit(Transposed(img), left, right, ink);
  }
}
