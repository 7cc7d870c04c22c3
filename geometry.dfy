/** Integer pixel geometry: points, rectangles with OpenCV's half-open
    containment rule, and the shrunk rectangle used for lidar association. */
module Geometry {

  /** A pixel position (cv::Point, int fields). */
  datatype Point = Point(x: int, y: int)

  /** An axis-aligned rectangle (cv::Rect, int fields). */
  datatype Rect = Rect(x: int, y: int, width: int, height: int)

  /** cv::Rect::contains: x <= px < x + width and y <= py < y + height. */
  predicate Contains(r: Rect, p: Point)
  {
    r.x <= p.x < r.x + r.width && r.y <= p.y < r.y + r.height
  }

  /** The difference of two points (cv::Point operator-). */
  function Sub(a: Point, b: Point): (d: Point)
    ensures Sub(a, b) == Point(0, 0) <==> a == b
  {
    Point(a.x - b.x, a.y - b.y)
  }

  /** Conversion of a double to an int field: truncation toward zero. */
  function TruncToInt(v: real): (r: int)
    ensures 0.0 <= v ==> r as real <= v < r as real + 1.0
    ensures v < 0.0 ==> r as real - 1.0 < v <= r as real
  {
    if 0.0 <= v then v.Floor else -((-v).Floor)
  }

  /** Start of one shrunk side: lo + s*len/2, truncated into an int field. */
  function ShrunkStart(lo: int, len: int, s: real): int
  {
    TruncToInt(lo as real + s * len as real / 2.0)
  }

  /** Length of one shrunk side: len*(1 - s), truncated into an int field. */
  function ShrunkLength(len: int, s: real): int
  {
    TruncToInt(len as real * (1.0 - s))
  }

  /** The box shrunk by `s`: each side moves inward by s/2 of the matching
      dimension, and each computed coordinate is truncated into an int field. */
  function ShrinkRect(roi: Rect, s: real): Rect
  {
    Rect(ShrunkStart(roi.x, roi.width, s), ShrunkStart(roi.y, roi.height, s),
         ShrunkLength(roi.width, s), ShrunkLength(roi.height, s))
  }

  /** A shrink factor of zero leaves the box as it is. */
  lemma ShrinkByZero(roi: Rect)
    ensures ShrinkRect(roi, 0.0) == roi
  {
    assert roi.x as real + 0.0 * roi.width as real / 2.0 == roi.x as real;
    assert roi.y as real + 0.0 * roi.height as real / 2.0 == roi.y as real;
  }

  lemma ProductSigns(x: real, y: real)
    requires 0.0 <= y
    ensures x < 0.0 ==> x * y <= 0.0
    ensures 0.0 <= x ==> 0.0 <= x * y
  {
  }

  /** One axis of the shrunk box: the interval [lo', lo' + len') lies inside
      [lo, lo + len) whenever 0 <= s < 1. */
  lemma ShrunkIntervalInside(lo: int, len: int, s: real, p: int)
    requires 0.0 <= s < 1.0
    requires ShrunkStart(lo, len, s) <= p < ShrunkStart(lo, len, s) + ShrunkLength(len, s)
    ensures lo <= p < lo + len
  {
    var half := s * len as real / 2.0;
    var a := lo as real + half;
    var b := len as real * (1.0 - s);
    assert b == len as real - 2.0 * half;
    var lo' := TruncToInt(a);
    var len' := TruncToInt(b);
    if len < 0 {
      ProductSigns(len as real, 1.0 - s);
      assert false;
    }
    ProductSigns(len as real, s);
    assert lo <= lo';
    assert len' as real <= b;
    assert lo' as real < a + 1.0;
    assert (lo' + len') as real < (lo + len) as real + 1.0;
  }

  /** A point inside the shrunk box is inside the original box. */
  lemma ShrunkWithinRoi(roi: Rect, s: real, p: Point)
    requires 0.0 <= s < 1.0
    requires Contains(ShrinkRect(roi, s), p)
    ensures Contains(roi, p)
  {
    ShrunkIntervalInside(roi.x, roi.width, s, p.x);
    ShrunkIntervalInside(roi.y, roi.height, s, p.y);
  }

  /** Because of truncation, containment is not monotone in the shrink factor:
      a larger factor can enclose a pixel that a smaller one leaves out. */
  lemma ShrinkNotMonotone()
    ensures var roi, p := Rect(0, 0, 10, 10), Point(8, 8);
      !Contains(ShrinkRect(roi, 0.15), p) && Contains(ShrinkRect(roi, 0.2), p)
  {
    assert ShrinkRect(Rect(0, 0, 10, 10), 0.15) == Rect(0, 0, 8, 8);
    assert ShrinkRect(Rect(0, 0, 10, 10), 0.2) == Rect(1, 1, 8, 8);
  }
}
