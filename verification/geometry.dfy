/**
 * Pixel geometry shared by the two readers of backend/Text_Extract.py and
 * backend/Number_Extract.py: axis-aligned boxes with inclusive bounds, the
 * centre of an OCR token, and the search for the first box containing a point.
 */
module Geometry {

  datatype Point = Point(x: int, y: int)

  /** A box from its top-left corner to its bottom-right corner. */
  datatype Rect = Rect(left: int, top: int, right: int, bottom: int)

  /** One OCR token: its text and the pixel rectangle the engine reports. */
  datatype Token = Token(text: string, left: int, top: int, width: int, height: int)

  /** The containment test of both readers: bounds included on all four sides. */
  predicate Inside(p: Point, r: Rect)
  {
    r.left <= p.x <= r.right && r.top <= p.y <= r.bottom
  }

  /** `(x + w // 2, y + h // 2)`; division by 2 rounds down, as Python's `//` does. */
  function Centre(t: Token): (c: Point)
    ensures 2 * (c.x - t.left) <= t.width < 2 * (c.x - t.left) + 2
    ensures 2 * (c.y - t.top) <= t.height < 2 * (c.y - t.top) + 2
  {
    Point(t.left + t.width / 2, t.top + t.height / 2)
  }

  /** Index of the first box that contains `p`, or -1 when none does. */
  function FirstContaining(rects: seq<Rect>, p: Point): (k: int)
    ensures -1 <= k < |rects|
    ensures k == -1 <==> forall i :: 0 <= i < |rects| ==> !Inside(p, rects[i])
    ensures k >= 0 ==> Inside(p, rects[k]) && forall i :: 0 <= i < k ==> !Inside(p, rects[i])
  {
    if rects == [] then -1
    else if Inside(p, rects[0]) then 0
    else
      var k := FirstContaining(rects[1..], p);
      if k == -1 then -1 else k + 1
  }

  /** The inner `for box in boxes: … break` of both readers: scan the boxes in
      order and stop at the first that contains the point. */
  method FindBox(rects: seq<Rect>, p: Point) returns (k: int)
    ensures -1 <= k < |rects|
    ensures k == -1 <==> forall i :: 0 <= i < |rects| ==> !Inside(p, rects[i])
    ensures k >= 0 ==> Inside(p, rects[k]) && forall i :: 0 <= i < k ==> !Inside(p, rects[i])
    ensures k == FirstContaining(rects, p)
  {
    var i := 0;
    while i < |rects|
      invariant i <= |rects|
      invariant forall j :: 0 <= j < i ==> !Inside(p, rects[j])
    {
      if Inside(p, rects[i]) {
        return i;
      }
      i := i + 1;
    }
    return -1;
  }
}
