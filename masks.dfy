/**
 * The integer mask logic around the OpenCV calls of `src/image_processor.py`:
 * `cv2.threshold` in its two binary modes, Python's `max(contours,
 * key=cv2.contourArea)`, a filled contour drawn onto an empty mask,
 * `cv2.bitwise_and`, and the fallback placeholder box.
 *
 * `cv2.findContours` is not modelled: callers pass it in as an oracle that
 * maps a mask to a list of contours, each carrying what the code later asks
 * of it (its area, the pixels `drawContours` fills, its `boundingRect`).
 */
module Masks {

  /** An 8-bit channel value. */
  type byte = bv8

  /** A single-channel raster, indexed row first. */
  type Grid = seq<seq<byte>>

  predicate IsGrid(g: Grid, height: nat, width: nat)
  {
    |g| == height && forall i :: 0 <= i < height ==> |g[i]| == width
  }

  /** `(x, y, w, h)`, as `cv2.boundingRect` and the fallback produce it. */
  datatype Box = Box(x: int, y: int, w: int, h: int)

  /** A contour as the code uses it: `contourArea`, the pixels `(row, column)` a filled `drawContours` paints, and `boundingRect`. */
  datatype Contour = Contour(area: real, interior: set<(int, int)>, bounds: Box)

  function ThresholdPixel(v: byte, thresh: byte, maxval: byte, inverted: bool): byte
  {
    if !inverted then (if v > thresh then maxval else 0)
    else (if v > thresh then 0 else maxval)
  }

  /** `cv2.threshold(src, thresh, maxval, THRESH_BINARY)[1]`, or `THRESH_BINARY_INV` when `inverted`. */
  function Threshold(src: Grid, thresh: byte, maxval: byte, inverted: bool): (r: Grid)
    ensures |r| == |src| && forall i :: 0 <= i < |src| ==> |r[i]| == |src[i]|
  {
    seq(|src|, i requires 0 <= i < |src| =>
      seq(|src[i]|, j requires 0 <= j < |src[i]| => ThresholdPixel(src[i][j], thresh, maxval, inverted)))
  }

  /** The edge-detection mask is 255 exactly where the alpha exceeds 10, and 0 everywhere else. */
  lemma CaseMaskExact(alpha: Grid)
    ensures var mask := Threshold(alpha, 10, 255, false);
      forall i, j :: 0 <= i < |alpha| && 0 <= j < |alpha[i]| ==>
        (mask[i][j] == 255 <==> alpha[i][j] > 10) && (mask[i][j] == 0 <==> alpha[i][j] <= 10)
  {
  }

  /** The placeholder mask is 255 exactly where the alpha is at most 100, and 0 everywhere else. */
  lemma PlaceholderMaskExact(alpha: Grid)
    ensures var mask := Threshold(alpha, 100, 255, true);
      forall i, j :: 0 <= i < |alpha| && 0 <= j < |alpha[i]| ==>
        (mask[i][j] == 255 <==> alpha[i][j] <= 100) && (mask[i][j] == 0 <==> alpha[i][j] > 100)
  {
  }

  /** At one level the plain and the inverted masks are complements of each other. */
  lemma ThresholdComplement(src: Grid, thresh: byte)
    ensures forall i, j :: 0 <= i < |src| && 0 <= j < |src[i]| ==>
      Threshold(src, thresh, 255, true)[i][j] == !Threshold(src, thresh, 255, false)[i][j]
  {
  }

  /** Contour `k` has the largest area among the first `n`, and every contour before it is strictly smaller. */
  predicate IsFirstMaxUpTo(cs: seq<Contour>, n: nat, k: nat)
    requires n <= |cs|
  {
    k < n &&
    (forall j :: 0 <= j < n ==> cs[j].area <= cs[k].area) &&
    (forall j :: 0 <= j < k ==> cs[j].area < cs[k].area)
  }

  predicate IsFirstMax(cs: seq<Contour>, k: nat)
  {
    IsFirstMaxUpTo(cs, |cs|, k)
  }

  /** The scan of `max`: the best so far is replaced only by a strictly larger area. */
  function MaxFrom(cs: seq<Contour>, i: nat, best: nat): (k: nat)
    requires 0 < i <= |cs| && IsFirstMaxUpTo(cs, i, best)
    ensures IsFirstMax(cs, k)
    decreases |cs| - i
  {
    if i == |cs| then best
    else MaxFrom(cs, i + 1, if cs[i].area > cs[best].area then i else best)
  }

  /** `max(contours, key=cv2.contourArea)`, as an index: Python's `max` keeps the first of equal maxima. */
  function MaxByArea(cs: seq<Contour>): (k: nat)
    requires |cs| > 0
    ensures IsFirstMax(cs, k)
  {
    MaxFrom(cs, 1, 0)
  }

  /** Only one contour is the first of largest area, so the choice is determined by the list. */
  lemma FirstMaxUnique(cs: seq<Contour>, k1: nat, k2: nat)
    requires IsFirstMax(cs, k1) && IsFirstMax(cs, k2)
    ensures k1 == k2
  {
    assert cs[k1].area == cs[k2].area;
  }

  /** `refined_mask = np.zeros_like(mask)` followed by `cv2.drawContours(refined_mask, [c], 0, 255, -1)`. */
  function FilledMask(c: Contour, height: nat, width: nat): (r: Grid)
    ensures IsGrid(r, height, width)
  {
    seq(height, i requires 0 <= i < height =>
      seq(width, j requires 0 <= j < width => if (i, j) in c.interior then 255 as byte else 0))
  }

  /** `cv2.bitwise_and(a, b)` on two masks of one size. */
  function BitwiseAnd(a: Grid, b: Grid): (r: Grid)
    requires |a| == |b| && forall i :: 0 <= i < |a| ==> |a[i]| == |b[i]|
    ensures |r| == |a| && forall i :: 0 <= i < |a| ==> |r[i]| == |a[i]|
  {
    seq(|a|, i requires 0 <= i < |a| =>
      seq(|a[i]|, j requires 0 <= j < |a[i]| => a[i][j] & b[i][j]))
  }

  lemma AndWithFullAndEmpty(v: byte)
    ensures v & 255 == v && v & 0 == 0
  {
  }

  /**
   * The refined alpha keeps the original alpha inside the filled contour and
   * is 0 outside it; in particular it never exceeds the original.
   */
  lemma RefinedAlphaExact(alpha: Grid, c: Contour, height: nat, width: nat)
    requires IsGrid(alpha, height, width)
    ensures var refined := BitwiseAnd(alpha, FilledMask(c, height, width));
      IsGrid(refined, height, width) &&
      forall i, j :: 0 <= i < height && 0 <= j < width ==>
        refined[i][j] == (if (i, j) in c.interior then alpha[i][j] else 0) &&
        refined[i][j] <= alpha[i][j]
  {
    var refined := BitwiseAnd(alpha, FilledMask(c, height, width));
    forall i, j | 0 <= i < height && 0 <= j < width
      ensures refined[i][j] == (if (i, j) in c.interior then alpha[i][j] else 0)
    {
      AndWithFullAndEmpty(alpha[i][j]);
    }
  }

  /** `(width // 4, height // 4, width // 2, height // 2)` */
  function FallbackBox(width: nat, height: nat): Box
  {
    Box(width / 4, height / 4, width / 2, height / 2)
  }

  predicate WithinBounds(b: Box, width: nat, height: nat)
  {
    0 <= b.x && 0 <= b.y && 0 <= b.w && 0 <= b.h && b.x + b.w <= width && b.y + b.h <= height
  }

  /**
   * The fallback box lies inside the template, leaves at least as much room
   * right of and below it as left of and above it, and is non-empty exactly
   * when the template is at least 2 pixels wide and high.
   */
  lemma FallbackBoxFits(width: nat, height: nat)
    ensures WithinBounds(FallbackBox(width, height), width, height)
    ensures var b := FallbackBox(width, height);
      width - (b.x + b.w) >= b.x && height - (b.y + b.h) >= b.y
    ensures var b := FallbackBox(width, height);
      (b.w > 0 <==> width >= 2) && (b.h > 0 <==> height >= 2)
  {
  }
}
