/** find_best_iou_boxes of yolo_loss.py: for every object cell, the better of
    its two predicted boxes by IoU against that cell's own ground truth.

    The source loop does not do what its doc comment promises: it returns
    during its first iteration, compares only iou1[i][i] with iou2[i][i],
    and takes the best IoU as a column maximum over all cells of a cross-cell
    IoU matrix. This module models the documented per-cell choice. */
module Matcher {
  import opened Geometry

  /** One predicted box of a cell: centre/size and confidence. */
  datatype PredBox = PredBox(cx: real, cy: real, w: real, h: real, conf: real)

  /** The box chosen for a cell together with its IoU against the target. */
  datatype Selection = Selection(iou: real, box: PredBox)

  /** The first four columns of a predicted box. */
  function Shape(p: PredBox): CenterBox { CenterBox(p.cx, p.cy, p.w, p.h) }

  /** A box with non-negative width and height. */
  predicate Sized(b: CenterBox) { b.w >= 0.0 && b.h >= 0.0 }

  /** IoU of a predicted box against a target, both converted to corners. */
  function CandidateIou(p: PredBox, t: CenterBox, S: nat): real
    requires S > 0
  {
    Iou(ToCorners(Shape(p), S), ToCorners(t, S))
  }

  /** The per-cell choice: candidate 1 replaces candidate 0 only when its
      IoU is strictly larger, so ties keep candidate 0. */
  function SelectBest(p0: PredBox, p1: PredBox, t: CenterBox, S: nat): (r: Selection)
    requires S > 0
    ensures r.box == p0 || r.box == p1
    ensures r.iou == CandidateIou(r.box, t, S)
    ensures r.iou >= CandidateIou(p0, t, S) && r.iou >= CandidateIou(p1, t, S)
    ensures CandidateIou(p0, t, S) >= CandidateIou(p1, t, S) ==> r.box == p0
  {
    var iou0, iou1 := CandidateIou(p0, t, S), CandidateIou(p1, t, S);
    if iou0 < iou1 then Selection(iou1, p1) else Selection(iou0, p0)
  }

  /** The documented result of find_best_iou_boxes over all object cells:
      cell i is decided by its own two candidates and its own target only. */
  function BestSelections(preds0: seq<PredBox>, preds1: seq<PredBox>, targets: seq<CenterBox>, S: nat)
    : (r: seq<Selection>)
    requires S > 0
    requires |preds0| == |targets| && |preds1| == |targets|
    ensures |r| == |targets|
    ensures forall i :: 0 <= i < |r| ==>
      (r[i].box == preds0[i] || r[i].box == preds1[i]) &&
      r[i].iou == CandidateIou(r[i].box, targets[i], S) &&
      r[i].iou >= CandidateIou(preds0[i], targets[i], S) &&
      r[i].iou >= CandidateIou(preds1[i], targets[i], S) &&
      (CandidateIou(preds0[i], targets[i], S) >= CandidateIou(preds1[i], targets[i], S) ==> r[i].box == preds0[i])
  {
    seq(|targets|, i requires 0 <= i < |targets| => SelectBest(preds0[i], preds1[i], targets[i], S))
  }

  /** find_best_iou_boxes as the loop its doc comment describes: the best
      boxes start as a copy of the first candidates, and cell by cell the
      second candidate is swapped in where its IoU is strictly larger. */
  method FindBestIouBoxes(preds0: seq<PredBox>, preds1: seq<PredBox>, targets: seq<CenterBox>, S: nat)
    returns (bestIous: seq<real>, bestBoxes: seq<PredBox>)
    requires S > 0
    requires |preds0| == |targets| && |preds1| == |targets|
    ensures |bestIous| == |targets| && |bestBoxes| == |targets|
    ensures forall i :: 0 <= i < |targets| ==>
      Selection(bestIous[i], bestBoxes[i]) == BestSelections(preds0, preds1, targets, S)[i]
  {
    bestBoxes := preds0;
    bestIous := [];
    var i := 0;
    while i < |targets|
      invariant 0 <= i <= |targets|
      invariant |bestIous| == i && |bestBoxes| == |targets|
      invariant forall k :: 0 <= k < i ==>
        Selection(bestIous[k], bestBoxes[k]) == SelectBest(preds0[k], preds1[k], targets[k], S)
      invariant bestBoxes[i..] == preds0[i..]
    {
      var iou0 := CandidateIou(preds0[i], targets[i], S);
      var iou1 := CandidateIou(preds1[i], targets[i], S);
      if iou0 < iou1 {
        bestBoxes := bestBoxes[i := preds1[i]];
        bestIous := bestIous + [iou1];
      } else {
        bestIous := bestIous + [iou0];
      }
      i := i + 1;
    }
  }

  /** Each chosen IoU lies in [0, 1], whatever the sizes of the boxes. */
  lemma SelectionIouInUnitInterval(p0: PredBox, p1: PredBox, t: CenterBox, S: nat)
    requires S > 0
    ensures 0.0 <= SelectBest(p0, p1, t, S).iou <= 1.0
  {
    var tc := ToCorners(t, S);
    IouUnit(ToCorners(Shape(p0), S), tc);
    IouUnit(ToCorners(Shape(p1), S), tc);
  }

  /** A first candidate that matches a positive-size target exactly is chosen
      with IoU 1, whatever the second candidate is. */
  lemma ExactFirstCandidateChosen(p0: PredBox, p1: PredBox, t: CenterBox, S: nat)
    requires S > 0
    requires Shape(p0) == t && t.w > 0.0 && t.h > 0.0
    ensures SelectBest(p0, p1, t, S) == Selection(1.0, p0)
  {
    var tc := ToCorners(t, S);
    IouSelf(tc);
    IouUnit(ToCorners(Shape(p1), S), tc);
  }

  /** A second candidate that matches a positive-size target exactly is chosen
      with IoU 1 unless the first candidate has the same shape. */
  lemma ExactSecondCandidateChosen(p0: PredBox, p1: PredBox, t: CenterBox, S: nat)
    requires S > 0
    requires Shape(p1) == t && t.w > 0.0 && t.h > 0.0
    requires Shape(p0) != t
    ensures SelectBest(p0, p1, t, S) == Selection(1.0, p1)
  {
    var tc := ToCorners(t, S);
    var c0 := ToCorners(Shape(p0), S);
    IouSelf(tc);
    IouUnit(c0, tc);
    if WellFormed(c0) {
      CenterRoundTrip(Shape(p0), S);
      CenterRoundTrip(t, S);
      IouOneIffSame(c0, tc);
    }
  }
}
