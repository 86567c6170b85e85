/**
 * The quantity reader of backend/Number_Extract.py: the grid of inventory
 * boxes, the top-right corner of each box where the stack size is printed,
 * the assignment of OCR tokens to boxes, and the digit string each box gets.
 */
module Quantity {
  import opened Text
  import opened Geometry
  import Merge
  import Tokens

  // ---------------------------------------------------------------------------
  // Digits

  /** `extract_numbers_only`: the digits of `text`, in order. */
  function ExtractNumbersOnly(text: string): (r: string)
    ensures |r| <= |text|
  {
    Keep(IsDigit, text)
  }

  /** Exactly the digits of the input survive. */
  lemma ExtractNumbersOnlyExact(text: string)
    ensures forall c :: c in ExtractNumbersOnly(text) <==> c in text && IsDigit(c)
  {
    forall c | c in ExtractNumbersOnly(text)
      ensures c in text && IsDigit(c)
    {
      KeepSound(IsDigit, text, c);
    }
    forall c | c in text && IsDigit(c)
      ensures c in ExtractNumbersOnly(text)
    {
      KeepComplete(IsDigit, text, c);
    }
  }

  /** Digits are kept in order: the digits of a concatenation are the
      concatenation of the digits. */
  lemma ExtractNumbersOnlyAppend(a: string, b: string)
    ensures ExtractNumbersOnly(a + b) == ExtractNumbersOnly(a) + ExtractNumbersOnly(b)
  {
    KeepAppend(IsDigit, a, b);
  }

  lemma ExtractNumbersOnlyIdempotent(text: string)
    ensures ExtractNumbersOnly(ExtractNumbersOnly(text)) == ExtractNumbersOnly(text)
  {
    ExtractNumbersOnlyExact(text);
    KeepAll(IsDigit, ExtractNumbersOnly(text));
  }

  /** `"".join(texts)`. */
  function Concat(texts: seq<string>): string
  {
    if texts == [] then [] else Concat(texts[..|texts| - 1]) + texts[|texts| - 1]
  }

  /** The quantity text of a box: the digits of its tokens, or "1" when there are none. */
  function BoxQuantity(texts: seq<string>): (q: string)
    ensures Merge.IsDigitString(q)
  {
    var cleaned := ExtractNumbersOnly(Concat(texts));
    ExtractNumbersOnlyExact(Concat(texts));
    assert forall i :: 0 <= i < |cleaned| ==> cleaned[i] in cleaned;
    if cleaned != [] then cleaned else "1"
  }

  // ---------------------------------------------------------------------------
  // The grid

  /** A box of the grid with its 1-based number. */
  datatype GridBox = GridBox(number: nat, rect: Rect)

  /** `range(len(positions) - 1)` has this many elements. */
  function Cells(n: nat): nat
  {
    if n == 0 then 0 else n - 1
  }

  /** Position in the row-major box list of the box in row `i`, column `j`. */
  function At(width: nat, i: nat, j: nat): nat
  {
    i * width + j
  }

  lemma AtBelow(width: nat, height: nat, i: nat, j: nat)
    requires i < height && j < width
    ensures At(width, i, j) < height * width
    ensures At(width, i, j) + 1 == At(width, i, j + 1)
  {
    assert i * width + j < i * width + width == (i + 1) * width;
    assert (i + 1) * width <= height * width;
  }

  /** `generate_grid` for given row and column line positions: one box per
      pair of consecutive rows and consecutive columns, row by row, numbered
      from 1. */
  method GenerateGrid(rows: seq<int>, cols: seq<int>) returns (boxes: seq<GridBox>)
    ensures |boxes| == Cells(|rows|) * Cells(|cols|)
    ensures forall k :: 0 <= k < |boxes| ==> boxes[k].number == k + 1
    ensures forall i, j :: 0 <= i < Cells(|rows|) && 0 <= j < Cells(|cols|) ==>
              At(Cells(|cols|), i, j) < |boxes|
              && boxes[At(Cells(|cols|), i, j)].rect == Rect(cols[j], rows[i], cols[j + 1], rows[i + 1])
  {
    var width := Cells(|cols|);
    var height := Cells(|rows|);
    boxes := [];
    var i := 0;
    while i < height
      invariant i <= height && |boxes| == i * width
      invariant forall k :: 0 <= k < |boxes| ==> boxes[k].number == k + 1
      invariant forall a, b :: 0 <= a < i && 0 <= b < width ==>
                  At(width, a, b) < |boxes|
                  && boxes[At(width, a, b)].rect == Rect(cols[b], rows[a], cols[b + 1], rows[a + 1])
    {
      ghost var before := boxes;
      boxes := AppendRow(boxes, i, rows, cols);
      assert (i + 1) * width == i * width + width;
      forall a, b | 0 <= a < i + 1 && 0 <= b < width
        ensures At(width, a, b) < |boxes|
        ensures boxes[At(width, a, b)].rect == Rect(cols[b], rows[a], cols[b + 1], rows[a + 1])
      {
        if a < i {
          assert boxes[At(width, a, b)] == before[At(width, a, b)];
        } else {
          assert At(width, a, b) == |before| + b;
        }
      }
      i := i + 1;
    }
    forall a, b | 0 <= a < height && 0 <= b < width
      ensures At(width, a, b) < height * width
    {
      AtBelow(width, height, a, b);
    }
  }

  /** The inner loop of `generate_grid`: the boxes of row `i`, left to right,
      numbered on from the boxes before them. */
  method AppendRow(boxes0: seq<GridBox>, i: nat, rows: seq<int>, cols: seq<int>) returns (boxes: seq<GridBox>)
    requires i < Cells(|rows|)
    requires forall k :: 0 <= k < |boxes0| ==> boxes0[k].number == k + 1
    ensures |boxes| == |boxes0| + Cells(|cols|) && boxes[..|boxes0|] == boxes0
    ensures forall k :: 0 <= k < |boxes| ==> boxes[k].number == k + 1
    ensures forall b :: 0 <= b < Cells(|cols|) ==>
              boxes[|boxes0| + b].rect == Rect(cols[b], rows[i], cols[b + 1], rows[i + 1])
  {
    var width := Cells(|cols|);
    boxes := boxes0;
    var boxNumber := |boxes0| + 1;
    var j := 0;
    while j < width
      invariant j <= width && |boxes| == |boxes0| + j && boxNumber == |boxes| + 1
      invariant boxes[..|boxes0|] == boxes0
      invariant forall k :: 0 <= k < |boxes| ==> boxes[k].number == k + 1
      invariant forall b :: 0 <= b < j ==> boxes[|boxes0| + b].rect == Rect(cols[b], rows[i], cols[b + 1], rows[i + 1])
    {
      var topLeft := Point(cols[j], rows[i]);
      var bottomRight := Point(cols[j + 1], rows[i + 1]);
      boxes := boxes + [GridBox(boxNumber, Rect(topLeft.x, topLeft.y, bottomRight.x, bottomRight.y))];
      boxNumber := boxNumber + 1;
      j := j + 1;
    }
  }

  /** The default layout: row lines at 0, one and two row steps and the image
      height; column lines at 0, the four cumulative column shares and the
      image width. That is three rows of five boxes. */
  method DefaultGrid(rowStep: int, imageHeight: int, c1: int, c2: int, c3: int, c4: int, imageWidth: int)
    returns (boxes: seq<GridBox>)
    ensures |boxes| == 15
    ensures forall k :: 0 <= k < 15 ==> boxes[k].number == k + 1
    ensures boxes[0].rect == Rect(0, 0, c1, rowStep)
    ensures boxes[14].rect == Rect(c4, 2 * rowStep, imageWidth, imageHeight)
  {
    var rows := [0, rowStep, 2 * rowStep, imageHeight];
    var cols := [0, c1, c2, c3, c4, imageWidth];
    assert Cells(|rows|) == 3 && Cells(|cols|) == 5;
    boxes := GenerateGrid(rows, cols);
    assert boxes[At(5, 0, 0)].rect == Rect(cols[0], rows[0], cols[1], rows[1]);
    assert boxes[At(5, 2, 4)].rect == Rect(cols[4], rows[2], cols[5], rows[3]);
  }

  // ---------------------------------------------------------------------------
  // The corner region

  /** Python's `int()` on a float: truncation toward zero. */
  function Trunc(x: real): int
  {
    if x >= 0.0 then x.Floor else -((-x).Floor)
  }

  function MinInt(a: int, b: int): int
  {
    if a <= b then a else b
  }

  /** The side of the corner square before truncation. */
  function SquareSize(box: Rect, pct: real): real
  {
    MinInt(box.right - box.left, box.bottom - box.top) as real * (pct / 100.0)
  }

  /** `get_corner_region`: the square of side `min(width, height) * pct / 100`
      at the top-right corner of the box, each coordinate truncated. */
  function CornerRegion(box: Rect, pct: real): Rect
  {
    var square := SquareSize(box, pct);
    Rect(Trunc(box.right as real - square), Trunc(box.top as real),
         Trunc(box.right as real), Trunc(box.top as real + square))
  }

  /** The region shares the box's right edge and top; for a percentage in
      [0, 100] and non-negative coordinates it lies inside the box, its height
      is the square size rounded down and its width the square size rounded up. */
  lemma CornerInside(box: Rect, pct: real)
    requires 0 <= box.left <= box.right && 0 <= box.top <= box.bottom
    requires 0.0 <= pct <= 100.0
    ensures var c := CornerRegion(box, pct);
      && c.right == box.right && c.top == box.top
      && box.left <= c.left <= c.right && c.top <= c.bottom <= box.bottom
      && c.bottom - c.top == SquareSize(box, pct).Floor
      && c.right - c.left == -((-SquareSize(box, pct)).Floor)
  {
    var square := SquareSize(box, pct);
    var side := MinInt(box.right - box.left, box.bottom - box.top);
    var f := pct / 100.0;
    assert 0.0 <= f <= 1.0;
    assert side >= 0;
    assert 0.0 <= square by {
      assert square == side as real * f;
    }
    assert square <= side as real by {
      assert side as real - square == side as real * (1.0 - f);
      assert side as real * (1.0 - f) >= 0.0;
    }
    var l := box.right as real - square;
    assert box.left as real <= l;
    assert l.Floor == box.right + (-square).Floor by {
      assert (box.right as real + (-square)) == l;
    }
    assert (box.top as real + square).Floor == box.top + square.Floor;
  }

  /** A 10 by 10 box at 25 %: the square side is 2.5, so the region spans
      columns 7 to 10 and rows 0 to 2 and is not square. */
  lemma CornerExample()
    ensures CornerRegion(Rect(0, 0, 10, 10), 25.0) == Rect(7, 0, 10, 2)
  {
    assert SquareSize(Rect(0, 0, 10, 10), 25.0) == 2.5;
    assert (7.5).Floor == 7;
    assert (2.5).Floor == 2;
  }

  // ---------------------------------------------------------------------------
  // Tokens to boxes

  /** The corner regions of the boxes, in box order. */
  function Corners(boxes: seq<GridBox>, pct: real): (rs: seq<Rect>)
    ensures |rs| == |boxes| && forall k :: 0 <= k < |boxes| ==> rs[k] == CornerRegion(boxes[k].rect, pct)
  {
    seq(|boxes|, k requires 0 <= k < |boxes| => CornerRegion(boxes[k].rect, pct))
  }

  /** The number reader keeps a token's stripped text as it is. */
  function Unchanged(s: string): string { s }

  /** The token loop of `multi_preprocess_and_extract`: each token with a
      non-empty stripped text is appended, stripped, to the list of the first
      box whose corner region contains its centre. */
  method AssignTokens(tokens: seq<Token>, boxes: seq<GridBox>, pct: real) returns (boxTexts: seq<seq<string>>)
    ensures |boxTexts| == |boxes|
    ensures boxTexts == Tokens.Placed(tokens, Corners(boxes, pct), Unchanged)
    ensures forall t :: t in tokens ==> (Tokens.Lands(t, Corners(boxes, pct), Unchanged) <==> Tokens.Target(t, Corners(boxes, pct)) != -1)
  {
    boxTexts := Tokens.AssignTokens(tokens, Corners(boxes, pct), Unchanged);
  }

  /** The combining loop: every box gets a quantity text, the digits of its
      joined tokens or "1", and that text is a non-empty digit string. */
  method CombineBoxTexts(boxTexts: seq<seq<string>>) returns (combined: seq<string>)
    ensures |combined| == |boxTexts|
    ensures forall k :: 0 <= k < |boxTexts| ==> combined[k] == BoxQuantity(boxTexts[k])
    ensures forall k :: 0 <= k < |boxTexts| ==> Merge.IsDigitString(combined[k])
  {
    combined := [];
    for k := 0 to |boxTexts|
      invariant |combined| == k
      invariant forall b :: 0 <= b < k ==> combined[b] == BoxQuantity(boxTexts[b])
    {
      var joined := Concat(boxTexts[k]);
      var cleaned := ExtractNumbersOnly(joined);
      combined := combined + [if cleaned != [] then cleaned else "1"];
    }
  }
}
