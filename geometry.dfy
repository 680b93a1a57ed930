/** Box geometry of the YOLO loss (yolo_loss.py): conversion from the
    centre/size form to the corner form, and intersection-over-union,
    both over exact reals. */
module Geometry {

  /** A box in corner form: top-left (x1, y1), bottom-right (x2, y2). */
  datatype Corners = Corners(x1: real, y1: real, x2: real, y2: real)

  /** A box in centre/size form. (cx, cy) is relative to the cell, so the
      image-normalised centre is (cx / S, cy / S); w and h are already
      normalised to the image. */
  datatype CenterBox = CenterBox(cx: real, cy: real, w: real, h: real)

  function Max(a: real, b: real): real { if a >= b then a else b }

  function Min(a: real, b: real): real { if a <= b then a else b }

  /** Negative extents are set to zero (`wh[wh < 0] = 0`). */
  function ClipAtZero(v: real): real { if v < 0.0 then 0.0 else v }

  /** A box with positive width and height. */
  predicate WellFormed(b: Corners) { b.x1 < b.x2 && b.y1 < b.y2 }

  function Area(b: Corners): real { (b.x2 - b.x1) * (b.y2 - b.y1) }

  /** Width of the intersection rectangle: the max of the left edges and the
      min of the right edges, clipped at zero. */
  function InterWidth(a: Corners, b: Corners): real
  {
    ClipAtZero(Min(a.x2, b.x2) - Max(a.x1, b.x1))
  }

  function InterHeight(a: Corners, b: Corners): real
  {
    ClipAtZero(Min(a.y2, b.y2) - Max(a.y1, b.y1))
  }

  /** Area of the intersection rectangle; never negative thanks to the clip. */
  function Intersection(a: Corners, b: Corners): (r: real)
    ensures r >= 0.0
  {
    var w, h := InterWidth(a, b), InterHeight(a, b);
    assert w >= 0.0 && h >= 0.0;
    MulNonneg(w, h);
    w * h
  }

  /** Intersection over union of two boxes. The source divides without a
      guard; a zero union is given IoU 0 here. A box without positive extent
      overlaps nothing, so its IoU with any box is 0. */
  function Iou(a: Corners, b: Corners): (r: real)
    ensures !WellFormed(a) || !WellFormed(b) ==> r == 0.0
  {
    var inter := Intersection(a, b);
    assert !WellFormed(a) || !WellFormed(b) ==> inter == 0.0 by {
      if !WellFormed(a) || !WellFormed(b) {
        assert InterWidth(a, b) == 0.0 || InterHeight(a, b) == 0.0;
      }
    }
    var union := Area(a) + Area(b) - inter;
    if union == 0.0 then 0.0 else inter / union
  }

  /** compute_iou: the N x M matrix of IoUs between every box of `boxes1`
      and every box of `boxes2`; N and M need not agree. */
  function ComputeIou(boxes1: seq<Corners>, boxes2: seq<Corners>): (r: seq<seq<real>>)
    ensures |r| == |boxes1|
    ensures forall i :: 0 <= i < |r| ==> |r[i]| == |boxes2|
    ensures forall i, j :: 0 <= i < |boxes1| && 0 <= j < |boxes2| ==> r[i][j] == Iou(boxes1[i], boxes2[j])
  {
    seq(|boxes1|, i requires 0 <= i < |boxes1| =>
      seq(|boxes2|, j requires 0 <= j < |boxes2| => Iou(boxes1[i], boxes2[j])))
  }

  /** The documented conversion: x1 = x/S - w/2, x2 = x/S + w/2, and the same
      for y, all four computed from the original x, y, w, h. */
  function ToCorners(b: CenterBox, S: nat): (r: Corners)
    requires S > 0
    ensures r.x2 - r.x1 == b.w && r.y2 - r.y1 == b.h
    ensures (r.x1 + r.x2) / 2.0 == b.cx / (S as real)
    ensures (r.y1 + r.y2) / 2.0 == b.cy / (S as real)
    ensures b.w >= 0.0 ==> r.x1 <= r.x2
    ensures b.h >= 0.0 ==> r.y1 <= r.y2
  {
    var x, y := b.cx / (S as real), b.cy / (S as real);
    Corners(x - 0.5 * b.w, y - 0.5 * b.h, x + 0.5 * b.w, y + 0.5 * b.h)
  }

  /** The inverse of ToCorners: centre scaled back into cell units, size as
      the extent of the corners. */
  function ToCenter(c: Corners, S: nat): CenterBox
    requires S > 0
  {
    CenterBox((c.x1 + c.x2) / 2.0 * (S as real), (c.y1 + c.y2) / 2.0 * (S as real),
              c.x2 - c.x1, c.y2 - c.y1)
  }

  /** xywh2xyxy on a whole (N, 4) batch, each row converted as documented
      (computed out of place, so the caller's boxes are left untouched). */
  function XywhToXyxy(boxes: seq<CenterBox>, S: nat): (r: seq<Corners>)
    requires S > 0
    ensures |r| == |boxes|
    ensures forall i :: 0 <= i < |r| ==>
      r[i].x2 - r[i].x1 == boxes[i].w && r[i].y2 - r[i].y1 == boxes[i].h &&
      (r[i].x1 + r[i].x2) / 2.0 == boxes[i].cx / (S as real) &&
      (r[i].y1 + r[i].y2) / 2.0 == boxes[i].cy / (S as real)
  {
    seq(|boxes|, i requires 0 <= i < |boxes| => ToCorners(boxes[i], S))
  }

  /** xywh2xyxy exactly as written: the third and fourth statements read the
      columns the first two have already overwritten, so x2 and y2 are
      computed from x1 and y1 instead of from x and y. */
  function ToCornersAsWritten(b: CenterBox, S: nat): (r: Corners)
    requires S > 0
    ensures r.x1 == ToCorners(b, S).x1 && r.y1 == ToCorners(b, S).y1
    ensures S == 1 ==> r.x2 == b.cx && r.y2 == b.cy
  {
    var x1 := b.cx / (S as real) - 0.5 * b.w;
    var y1 := b.cy / (S as real) - 0.5 * b.h;
    var x2 := x1 / (S as real) + 0.5 * b.w;
    var y2 := y1 / (S as real) + 0.5 * b.h;
    Corners(x1, y1, x2, y2)
  }

  // ---------------------------------------------------------------------
  // Arithmetic helpers
  // ---------------------------------------------------------------------

  lemma MulNonneg(p: real, q: real)
    requires p >= 0.0 && q >= 0.0
    ensures p * q >= 0.0
  {
  }

  lemma MulMono(p: real, q: real, pMax: real, qMax: real)
    requires 0.0 <= p <= pMax && 0.0 <= q <= qMax
    ensures p * q <= pMax * qMax
  {
    assert p * q <= pMax * q;
    assert pMax * q <= pMax * qMax;
  }

  /** Strict version: a product of two factors bounded by (pMax, qMax), with
      one factor strictly below its bound, is strictly below pMax * qMax. */
  lemma MulMonoStrict(p: real, q: real, pMax: real, qMax: real)
    requires 0.0 <= p <= pMax && 0.0 <= q <= qMax && 0.0 < pMax && 0.0 < qMax
    requires p < pMax || q < qMax
    ensures p * q < pMax * qMax
  {
    if q == 0.0 {
      MulPos(pMax, qMax);
    } else if p < pMax {
      assert p * q < pMax * q;
      assert pMax * q <= pMax * qMax;
    } else {
      assert p == pMax && p > 0.0 && q < qMax;
      assert p * q < p * qMax;
    }
  }

  lemma MulPos(p: real, q: real)
    requires p > 0.0 && q > 0.0
    ensures p * q > 0.0
  {
  }

  lemma DivUnit(p: real, q: real)
    requires 0.0 <= p <= q && q > 0.0
    ensures 0.0 <= p / q <= 1.0
    ensures p / q == 1.0 <==> p == q
  {
    var d := p / q;
    assert d * q == p;
    if d < 0.0 {
      MulPos(-d, q);
    }
    if d > 1.0 {
      MulPos(d - 1.0, q);
    }
    if p == q {
      SelfDiv(q);
    }
  }

  lemma SelfDiv(q: real)
    requires q > 0.0
    ensures q / q == 1.0
  {
    var d := q / q;
    assert d * q == q;
    if d < 1.0 {
      MulPos(1.0 - d, q);
      assert false;
    } else if d > 1.0 {
      MulPos(d - 1.0, q);
      assert false;
    }
  }

  // ---------------------------------------------------------------------
  // Properties of IoU
  // ---------------------------------------------------------------------

  /** IoU does not depend on the order of its arguments. */
  lemma IouSymmetric(a: Corners, b: Corners)
    ensures Intersection(a, b) == Intersection(b, a)
    ensures Iou(a, b) == Iou(b, a)
  {
    assert InterWidth(a, b) == InterWidth(b, a);
    assert InterHeight(a, b) == InterHeight(b, a);
  }

  /** Boxes that do not overlap (in x or in y) have no intersection and IoU 0. */
  lemma IouDisjoint(a: Corners, b: Corners)
    requires Min(a.x2, b.x2) <= Max(a.x1, b.x1) || Min(a.y2, b.y2) <= Max(a.y1, b.y1)
    ensures Intersection(a, b) == 0.0
    ensures Iou(a, b) == 0.0
  {
    assert InterWidth(a, b) == 0.0 || InterHeight(a, b) == 0.0;
  }

  /** A well-formed box has positive area. */
  lemma AreaPositive(a: Corners)
    requires WellFormed(a)
    ensures Area(a) > 0.0
  {
    MulPos(a.x2 - a.x1, a.y2 - a.y1);
  }

  /** The intersection is no larger than the first box. */
  lemma IntersectionWithin(a: Corners, b: Corners)
    requires WellFormed(a)
    ensures Intersection(a, b) <= Area(a)
  {
    var w, h := InterWidth(a, b), InterHeight(a, b);
    assert w <= a.x2 - a.x1;
    assert h <= a.y2 - a.y1;
    MulMono(w, h, a.x2 - a.x1, a.y2 - a.y1);
  }

  /** The intersection is no larger than either box. */
  lemma IntersectionBounded(a: Corners, b: Corners)
    requires WellFormed(a) && WellFormed(b)
    ensures Intersection(a, b) <= Area(a)
    ensures Intersection(a, b) <= Area(b)
    ensures Area(a) > 0.0 && Area(b) > 0.0
  {
    IntersectionWithin(a, b);
    IntersectionWithin(b, a);
    IouSymmetric(a, b);
    AreaPositive(a);
    AreaPositive(b);
  }

  /** For boxes with positive area the union is positive and 0 <= IoU <= 1. */
  lemma IouBounds(a: Corners, b: Corners)
    requires WellFormed(a) && WellFormed(b)
    ensures Area(a) + Area(b) - Intersection(a, b) > 0.0
    ensures 0.0 <= Iou(a, b) <= 1.0
  {
    IntersectionBounded(a, b);
    var inter := Intersection(a, b);
    var union := Area(a) + Area(b) - inter;
    assert inter <= union;
    DivUnit(inter, union);
  }

  /** IoU lies in [0, 1] for every pair of boxes: a box without positive
      extent overlaps nothing. */
  lemma IouUnit(a: Corners, b: Corners)
    ensures 0.0 <= Iou(a, b) <= 1.0
  {
    if WellFormed(a) && WellFormed(b) {
      IouBounds(a, b);
    }
  }

  /** A box with positive area overlaps itself completely. */
  lemma IouSelf(a: Corners)
    requires WellFormed(a)
    ensures Iou(a, a) == 1.0
  {
    assert InterWidth(a, a) == a.x2 - a.x1;
    assert InterHeight(a, a) == a.y2 - a.y1;
    IntersectionBounded(a, a);
    assert Intersection(a, a) == Area(a);
    DivUnit(Area(a), Area(a));
  }

  /** For boxes with positive area, IoU is 1 exactly when the boxes coincide. */
  lemma IouOneIffSame(a: Corners, b: Corners)
    requires WellFormed(a) && WellFormed(b)
    ensures Iou(a, b) == 1.0 <==> a == b
  {
    if a == b {
      IouSelf(a);
    } else if Iou(a, b) == 1.0 {
      IouOneImpliesSame(a, b);
    }
  }

  /** An IoU of 1 forces the intersection to fill both boxes, hence equal
      edges on every side. */
  lemma IouOneImpliesSame(a: Corners, b: Corners)
    requires WellFormed(a) && WellFormed(b)
    requires Iou(a, b) == 1.0
    ensures a == b
  {
    IntersectionBounded(a, b);
    var inter := Intersection(a, b);
    var union := Area(a) + Area(b) - inter;
    DivUnit(inter, union);
    assert inter == Area(a) && inter == Area(b);
    var w, h := InterWidth(a, b), InterHeight(a, b);
    assert inter == w * h;
    assert w <= a.x2 - a.x1 && w <= b.x2 - b.x1;
    assert h <= a.y2 - a.y1 && h <= b.y2 - b.y1;
    if w < a.x2 - a.x1 || h < a.y2 - a.y1 {
      MulMonoStrict(w, h, a.x2 - a.x1, a.y2 - a.y1);
    }
    if w < b.x2 - b.x1 || h < b.y2 - b.y1 {
      MulMonoStrict(w, h, b.x2 - b.x1, b.y2 - b.y1);
    }
  }

  // ---------------------------------------------------------------------
  // Properties of the conversion
  // ---------------------------------------------------------------------

  /** Converting to corners and back recovers the centre/size box. */
  lemma CenterRoundTrip(b: CenterBox, S: nat)
    requires S > 0
    ensures ToCenter(ToCorners(b, S), S) == b
  {
    var s := S as real;
    var c := ToCorners(b, S);
    assert (c.x1 + c.x2) / 2.0 * s == (b.cx / s) * s;
    assert (c.y1 + c.y2) / 2.0 * s == (b.cy / s) * s;
  }

  /** Converting to centre/size and back recovers the corner box. */
  lemma CornersRoundTrip(c: Corners, S: nat)
    requires S > 0
    ensures ToCorners(ToCenter(c, S), S) == c
  {
    var s := S as real;
    var b := ToCenter(c, S);
    assert b.cx / s == (c.x1 + c.x2) / 2.0;
    assert b.cy / s == (c.y1 + c.y2) / 2.0;
  }

  /** A box of positive size converts to a well-formed corner box. */
  lemma ToCornersWellFormed(b: CenterBox, S: nat)
    requires S > 0
    ensures WellFormed(ToCorners(b, S)) <==> b.w > 0.0 && b.h > 0.0
  {
  }

  /** With S = 1 the code as written returns x2 = x and y2 = y, so the box it
      produces is half as wide and half as tall as documented, and differs
      from the documented conversion whenever w or h is non-zero. */
  lemma AsWrittenHalvesBox(b: CenterBox)
    ensures ToCornersAsWritten(b, 1).x2 - ToCornersAsWritten(b, 1).x1 == b.w / 2.0
    ensures ToCornersAsWritten(b, 1).y2 - ToCornersAsWritten(b, 1).y1 == b.h / 2.0
    ensures b.w != 0.0 || b.h != 0.0 ==> ToCornersAsWritten(b, 1) != ToCorners(b, 1)
  {
  }

  /** The concrete input (x, y, w, h) = (0.5, 0.5, 0.2, 0.2) with S = 1: the
      code as written yields corners (0.4, 0.4, 0.5, 0.5), the documented
      conversion (0.4, 0.4, 0.6, 0.6). */
  lemma AsWrittenCounterexample()
    ensures ToCornersAsWritten(CenterBox(0.5, 0.5, 0.2, 0.2), 1) == Corners(0.4, 0.4, 0.5, 0.5)
    ensures ToCorners(CenterBox(0.5, 0.5, 0.2, 0.2), 1) == Corners(0.4, 0.4, 0.6, 0.6)
  {
  }
}
