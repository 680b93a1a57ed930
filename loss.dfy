/** The four sum-of-squares losses of yolo_loss.py and their weighted total
    (YoloLoss.forward), over the flattened (batch x S x S) grid of cells. */
module Loss {
  import opened Geometry
  import opened Matcher
  import opened Masking

  /** Number of classes (`self.C = 20`). */
  const NumClasses: nat := 20

  /** Channels of one prediction row: two boxes of (x, y, w, h, conf), then
      the class scores (B x 5 + C with B = 2). */
  const RowWidth: nat := 10 + NumClasses

  /** The construction-time configuration: grid size S and the weights of the
      regression and no-object terms. */
  datatype Config = Config(S: nat, lCoord: real, lNoobj: real)

  /** The loss dictionary returned by forward. */
  datatype LossDict = LossDict(total: real, reg: real, containingObj: real, noObj: real, cls: real)

  // ---------------------------------------------------------------------
  // Sums of squared differences (F.mse_loss with reduction='sum')
  // ---------------------------------------------------------------------

  /** The square of a real. */
  function Sq(x: real): (r: real)
    ensures r >= 0.0
  {
    x * x
  }

  /** Sum over all positions of the squared difference of two vectors. */
  function SumSqDiff(p: seq<real>, t: seq<real>): (r: real)
    requires |p| == |t|
    ensures r >= 0.0
  {
    if p == [] then 0.0 else Sq(p[0] - t[0]) + SumSqDiff(p[1..], t[1..])
  }

  /** The same sum over a matrix, row by row. */
  function SumSqDiffRows(p: seq<seq<real>>, t: seq<seq<real>>): (r: real)
    requires |p| == |t|
    requires forall i :: 0 <= i < |p| ==> |p[i]| == |t[i]|
    ensures r >= 0.0
  {
    if p == [] then 0.0 else SumSqDiff(p[0], t[0]) + SumSqDiffRows(p[1..], t[1..])
  }

  /** A square vanishes only at zero. */
  lemma SqZero(x: real)
    ensures Sq(x) == 0.0 <==> x == 0.0
  {
    if x > 0.0 {
      calc { Sq(x); == x * x; > 0.0; }
    } else if x < 0.0 {
      calc { Sq(x); == x * x; > 0.0; }
    }
  }

  /** A sum of squared differences vanishes exactly when the vectors agree. */
  lemma {:induction false} SumSqDiffZeroIff(p: seq<real>, t: seq<real>)
    requires |p| == |t|
    ensures SumSqDiff(p, t) == 0.0 <==> p == t
  {
    if p != [] {
      SqZero(p[0] - t[0]);
      SumSqDiffZeroIff(p[1..], t[1..]);
      assert p == [p[0]] + p[1..] && t == [t[0]] + t[1..];
    }
  }

  lemma {:induction false} SumSqDiffRowsZeroIff(p: seq<seq<real>>, t: seq<seq<real>>)
    requires |p| == |t|
    requires forall i :: 0 <= i < |p| ==> |p[i]| == |t[i]|
    ensures SumSqDiffRows(p, t) == 0.0 <==> p == t
  {
    if p != [] {
      SumSqDiffZeroIff(p[0], t[0]);
      SumSqDiffRowsZeroIff(p[1..], t[1..]);
      assert p == [p[0]] + p[1..] && t == [t[0]] + t[1..];
    }
  }

  lemma {:induction false} SumSqDiffAppend(a: seq<real>, b: seq<real>, c: seq<real>, d: seq<real>)
    requires |a| == |c| && |b| == |d|
    ensures SumSqDiff(a + b, c + d) == SumSqDiff(a, c) + SumSqDiff(b, d)
  {
    if a != [] {
      assert (a + b)[1..] == a[1..] + b && (c + d)[1..] == c[1..] + d;
      SumSqDiffAppend(a[1..], b, c[1..], d);
    } else {
      assert a + b == b && c + d == d;
    }
  }

  // ---------------------------------------------------------------------
  // Square root
  // ---------------------------------------------------------------------

  ghost predicate IsRoot(r: real, x: real) { r >= 0.0 && r * r == x }

  /** The non-negative square root (torch.sqrt). Over the reals every x >= 0
      has one; where Dafny is shown one, Sqrt returns it. */
  ghost function Sqrt(x: real): (r: real)
    requires x >= 0.0
    ensures r >= 0.0
    ensures (exists y :: IsRoot(y, x)) ==> IsRoot(r, x)
  {
    if exists y :: IsRoot(y, x) then var y :| IsRoot(y, x); y else 0.0
  }

  /** The square root of y * y is y itself for y >= 0 (roots are unique). */
  lemma SqrtOfSquare(y: real)
    requires y >= 0.0
    ensures Sqrt(y * y) == y
  {
    MulNonneg(y, y);
    assert IsRoot(y, y * y);
    var r := Sqrt(y * y);
    if r < y {
      MulMonoStrict(r, r, y, y);
    } else if r > y {
      MulMonoStrict(y, y, r, r);
    }
  }

  /** Two values that have roots have the same root exactly when they are
      equal. */
  lemma SqrtInjective(a: real, b: real)
    requires a >= 0.0 && b >= 0.0
    requires (exists y :: IsRoot(y, a)) && (exists y :: IsRoot(y, b))
    ensures Sqrt(a) == Sqrt(b) <==> a == b
  {
  }

  // ---------------------------------------------------------------------
  // The four losses
  // ---------------------------------------------------------------------

  /** get_class_prediction_loss: summed squared error between the class rows
      of the object cells; zero exactly when the predictions equal the
      targets. */
  function ClassLoss(predCls: seq<seq<real>>, targetCls: seq<seq<real>>): (r: real)
    requires |predCls| == |targetCls|
    requires forall i :: 0 <= i < |predCls| ==> |predCls[i]| == |targetCls[i]|
    ensures r >= 0.0
    ensures r == 0.0 <==> predCls == targetCls
  {
    SumSqDiffRowsZeroIff(predCls, targetCls);
    SumSqDiffRows(predCls, targetCls)
  }

  /** get_contain_conf_loss: summed squared error between the confidences of
      the chosen boxes and the best IoUs, taken as plain target values. */
  function ContainConfLoss(predConf: seq<real>, targetConf: seq<real>): (r: real)
    requires |predConf| == |targetConf|
    ensures r >= 0.0
    ensures r == 0.0 <==> predConf == targetConf
  {
    SumSqDiffZeroIff(predConf, targetConf);
    SumSqDiff(predConf, targetConf)
  }

  function Confs(ps: seq<PredBox>): (r: seq<real>)
    ensures |r| == |ps|
  {
    seq(|ps|, i requires 0 <= i < |ps| => ps[i].conf)
  }

  function Zeros(n: nat): (r: seq<real>)
    ensures |r| == n
  {
    seq(n, i => 0.0)
  }

  /** get_no_object_loss: the confidences of the first candidates of the cells
      without an object, followed by those of the second candidates, compared
      with zero. */
  function NoObjectLoss(preds0: seq<PredBox>, preds1: seq<PredBox>, hasObject: seq<bool>): (r: real)
    requires |preds0| == |hasObject| && |preds1| == |hasObject|
    ensures r >= 0.0
  {
    var noObject := Complement(hasObject);
    var confs := Confs(Mask(preds0, noObject)) + Confs(Mask(preds1, noObject));
    SumSqDiff(confs, Zeros(|confs|))
  }

  /** Reference definition of the no-object loss: cell by cell, the squared
      confidences of both candidates of every cell without an object. */
  function NoObjectLossPerCell(preds0: seq<PredBox>, preds1: seq<PredBox>, hasObject: seq<bool>): real
    requires |preds0| == |hasObject| && |preds1| == |hasObject|
  {
    if hasObject == [] then 0.0
    else (if hasObject[0] then 0.0 else Sq(preds0[0].conf) + Sq(preds1[0].conf))
         + NoObjectLossPerCell(preds0[1..], preds1[1..], hasObject[1..])
  }

  /** Squared confidences of one candidate over the cells without an object. */
  function EmptyCellConfSq(ps: seq<PredBox>, hasObject: seq<bool>): real
    requires |ps| == |hasObject|
  {
    if ps == [] then 0.0
    else (if hasObject[0] then 0.0 else Sq(ps[0].conf)) + EmptyCellConfSq(ps[1..], hasObject[1..])
  }

  lemma {:induction false} MaskedConfSq(ps: seq<PredBox>, hasObject: seq<bool>)
    requires |ps| == |hasObject|
    ensures var c := Confs(Mask(ps, Complement(hasObject)));
            SumSqDiff(c, Zeros(|c|)) == EmptyCellConfSq(ps, hasObject)
  {
    if ps != [] {
      var noObject := Complement(hasObject);
      assert noObject[1..] == Complement(hasObject[1..]);
      var head := if noObject[0] then [ps[0]] else [];
      var tail := Mask(ps[1..], noObject[1..]);
      assert Mask(ps, noObject) == head + tail;
      assert Confs(head + tail) == Confs(head) + Confs(tail);
      assert Zeros(|head| + |tail|) == Zeros(|head|) + Zeros(|tail|);
      SumSqDiffAppend(Confs(head), Confs(tail), Zeros(|head|), Zeros(|tail|));
      MaskedConfSq(ps[1..], hasObject[1..]);
    }
  }

  lemma {:induction false} PerCellSplit(preds0: seq<PredBox>, preds1: seq<PredBox>, hasObject: seq<bool>)
    requires |preds0| == |hasObject| && |preds1| == |hasObject|
    ensures NoObjectLossPerCell(preds0, preds1, hasObject)
         == EmptyCellConfSq(preds0, hasObject) + EmptyCellConfSq(preds1, hasObject)
  {
    if hasObject != [] {
      PerCellSplit(preds0[1..], preds1[1..], hasObject[1..]);
    }
  }

  /** The squared distance of a concatenation from zero splits into the
      squared distances of its two parts. */
  lemma SquaredNormAppend(c0: seq<real>, c1: seq<real>)
    ensures SumSqDiff(c0 + c1, Zeros(|c0 + c1|)) == SumSqDiff(c0, Zeros(|c0|)) + SumSqDiff(c1, Zeros(|c1|))
  {
    assert Zeros(|c0 + c1|) == Zeros(|c0|) + Zeros(|c1|);
    SumSqDiffAppend(c0, c1, Zeros(|c0|), Zeros(|c1|));
  }

  /** The masked no-object loss equals its cell-by-cell reference: every cell
      without an object contributes the squared confidences of both of its
      candidates, and no other cell contributes. */
  lemma NoObjectLossByCell(preds0: seq<PredBox>, preds1: seq<PredBox>, hasObject: seq<bool>)
    requires |preds0| == |hasObject| && |preds1| == |hasObject|
    ensures NoObjectLoss(preds0, preds1, hasObject) == NoObjectLossPerCell(preds0, preds1, hasObject)
  {
    var noObject := Complement(hasObject);
    SquaredNormAppend(Confs(Mask(preds0, noObject)), Confs(Mask(preds1, noObject)));
    MaskedConfSq(preds0, hasObject);
    MaskedConfSq(preds1, hasObject);
    PerCellSplit(preds0, preds1, hasObject);
  }

  lemma {:induction false} PerCellCongruent(p0: seq<PredBox>, p1: seq<PredBox>, q0: seq<PredBox>, q1: seq<PredBox>,
                                            hasObject: seq<bool>)
    requires |p0| == |hasObject| && |p1| == |hasObject| && |q0| == |hasObject| && |q1| == |hasObject|
    requires forall i :: 0 <= i < |hasObject| && !hasObject[i] ==> p0[i].conf == q0[i].conf && p1[i].conf == q1[i].conf
    ensures NoObjectLossPerCell(p0, p1, hasObject) == NoObjectLossPerCell(q0, q1, hasObject)
  {
    if hasObject != [] {
      PerCellCongruent(p0[1..], p1[1..], q0[1..], q1[1..], hasObject[1..]);
    }
  }

  /** The no-object loss does not depend on the predictions of the cells that
      hold an object, nor on anything but the confidences. */
  lemma NoObjectLossIgnoresObjectCells(p0: seq<PredBox>, p1: seq<PredBox>, q0: seq<PredBox>, q1: seq<PredBox>,
                                       hasObject: seq<bool>)
    requires |p0| == |hasObject| && |p1| == |hasObject| && |q0| == |hasObject| && |q1| == |hasObject|
    requires forall i :: 0 <= i < |hasObject| && !hasObject[i] ==> p0[i].conf == q0[i].conf && p1[i].conf == q1[i].conf
    ensures NoObjectLoss(p0, p1, hasObject) == NoObjectLoss(q0, q1, hasObject)
  {
    NoObjectLossByCell(p0, p1, hasObject);
    NoObjectLossByCell(q0, q1, hasObject);
    PerCellCongruent(p0, p1, q0, q1, hasObject);
  }

  function Xs(bs: seq<CenterBox>): (r: seq<real>) ensures |r| == |bs|
  { seq(|bs|, i requires 0 <= i < |bs| => bs[i].cx) }

  function Ys(bs: seq<CenterBox>): (r: seq<real>) ensures |r| == |bs|
  { seq(|bs|, i requires 0 <= i < |bs| => bs[i].cy) }

  ghost function RootWs(bs: seq<CenterBox>): (r: seq<real>)
    requires forall i :: 0 <= i < |bs| ==> Sized(bs[i])
    ensures |r| == |bs|
  { seq(|bs|, i requires 0 <= i < |bs| && Sized(bs[i]) => Sqrt(bs[i].w)) }

  ghost function RootHs(bs: seq<CenterBox>): (r: seq<real>)
    requires forall i :: 0 <= i < |bs| ==> Sized(bs[i])
    ensures |r| == |bs|
  { seq(|bs|, i requires 0 <= i < |bs| && Sized(bs[i]) => Sqrt(bs[i].h)) }

  /** get_regression_loss: squared error on the centres plus squared error on
      the square roots of the sizes, summed over the object cells. Width and
      height must be non-negative for the root to exist. */
  ghost function RegressionLoss(preds: seq<CenterBox>, targets: seq<CenterBox>): (r: real)
    requires |preds| == |targets|
    requires forall i :: 0 <= i < |preds| ==> Sized(preds[i]) && Sized(targets[i])
    ensures r >= 0.0
  {
    var lossXy := SumSqDiff(Xs(preds), Xs(targets)) + SumSqDiff(Ys(preds), Ys(targets));
    var lossWh := SumSqDiff(RootWs(preds), RootWs(targets)) + SumSqDiff(RootHs(preds), RootHs(targets));
    lossXy + lossWh
  }

  /** The regression loss vanishes exactly when every chosen box has the
      target's centre and the same rooted width and height. */
  lemma RegressionLossZeroIff(preds: seq<CenterBox>, targets: seq<CenterBox>)
    requires |preds| == |targets|
    requires forall i :: 0 <= i < |preds| ==> Sized(preds[i]) && Sized(targets[i])
    ensures RegressionLoss(preds, targets) == 0.0 <==>
      forall i :: 0 <= i < |preds| ==>
        preds[i].cx == targets[i].cx && preds[i].cy == targets[i].cy &&
        Sqrt(preds[i].w) == Sqrt(targets[i].w) && Sqrt(preds[i].h) == Sqrt(targets[i].h)
  {
    SumSqDiffZeroIff(Xs(preds), Xs(targets));
    SumSqDiffZeroIff(Ys(preds), Ys(targets));
    SumSqDiffZeroIff(RootWs(preds), RootWs(targets));
    SumSqDiffZeroIff(RootHs(preds), RootHs(targets));
    if RegressionLoss(preds, targets) == 0.0 {
      forall i | 0 <= i < |preds|
        ensures preds[i].cx == targets[i].cx && preds[i].cy == targets[i].cy
        ensures Sqrt(preds[i].w) == Sqrt(targets[i].w) && Sqrt(preds[i].h) == Sqrt(targets[i].h)
      {
        assert Xs(preds)[i] == Xs(targets)[i] && Ys(preds)[i] == Ys(targets)[i];
        assert RootWs(preds)[i] == RootWs(targets)[i] && RootHs(preds)[i] == RootHs(targets)[i];
      }
    }
    if forall i :: 0 <= i < |preds| ==>
        preds[i].cx == targets[i].cx && preds[i].cy == targets[i].cy &&
        Sqrt(preds[i].w) == Sqrt(targets[i].w) && Sqrt(preds[i].h) == Sqrt(targets[i].h)
    {
      assert Xs(preds) == Xs(targets) && Ys(preds) == Ys(targets);
      assert RootWs(preds) == RootWs(targets) && RootHs(preds) == RootHs(targets);
    }
  }

  // ---------------------------------------------------------------------
  // forward
  // ---------------------------------------------------------------------

  /** pred_tensor[..., :5]: the first predicted box of a row. */
  function Box0(row: seq<real>): PredBox
    requires |row| == RowWidth
  {
    PredBox(row[0], row[1], row[2], row[3], row[4])
  }

  /** pred_tensor[..., 5:10]: the second predicted box of a row. */
  function Box1(row: seq<real>): PredBox
    requires |row| == RowWidth
  {
    PredBox(row[5], row[6], row[7], row[8], row[9])
  }

  /** A prediction row is exactly its first box, its second box and its
      class scores, in that order: the three slices lose and repeat
      nothing. */
  lemma RowSplit(row: seq<real>)
    requires |row| == RowWidth
    ensures var p0, p1 := Box0(row), Box1(row);
      row == [p0.cx, p0.cy, p0.w, p0.h, p0.conf] + [p1.cx, p1.cy, p1.w, p1.h, p1.conf] + row[10..]
  {
  }

  function Boxes0(pred: seq<seq<real>>): (r: seq<PredBox>)
    requires forall i :: 0 <= i < |pred| ==> |pred[i]| == RowWidth
    ensures |r| == |pred|
  {
    seq(|pred|, i requires 0 <= i < |pred| => Box0(pred[i]))
  }

  function Boxes1(pred: seq<seq<real>>): (r: seq<PredBox>)
    requires forall i :: 0 <= i < |pred| ==> |pred[i]| == RowWidth
    ensures |r| == |pred|
  {
    seq(|pred|, i requires 0 <= i < |pred| => Box1(pred[i]))
  }

  /** pred_tensor[..., 10:]: the class scores of every row. */
  function ClassRows(pred: seq<seq<real>>): (r: seq<seq<real>>)
    requires forall i :: 0 <= i < |pred| ==> |pred[i]| == RowWidth
    ensures |r| == |pred|
    ensures forall i :: 0 <= i < |r| ==> |r[i]| == NumClasses
  {
    seq(|pred|, i requires 0 <= i < |pred| => pred[i][10..])
  }

  function Shapes(sel: seq<Selection>): (r: seq<CenterBox>) ensures |r| == |sel|
  { seq(|sel|, i requires 0 <= i < |sel| => Shape(sel[i].box)) }

  function ChosenConfs(sel: seq<Selection>): (r: seq<real>) ensures |r| == |sel|
  { seq(|sel|, i requires 0 <= i < |sel| => sel[i].box.conf) }

  function Ious(sel: seq<Selection>): (r: seq<real>) ensures |r| == |sel|
  { seq(|sel|, i requires 0 <= i < |sel| => sel[i].iou) }

  /** The inputs of forward, flattened over (batch x S x S) cells: the
      prediction rows, the target boxes, the class targets and the
      has-object flags. */
  datatype Batch = Batch(pred: seq<seq<real>>, targetBoxes: seq<CenterBox>,
                         targetCls: seq<seq<real>>, hasObject: seq<bool>)

  /** One entry per cell everywhere; rows of B x 5 + C channels and C class
      targets. */
  predicate WellShaped(b: Batch)
  {
    |b.targetBoxes| == |b.pred| && |b.targetCls| == |b.pred| && |b.hasObject| == |b.pred| &&
    forall i :: 0 <= i < |b.pred| ==> |b.pred[i]| == RowWidth && |b.targetCls[i]| == NumClasses
  }

  /** Non-negative sizes wherever the square root is taken: both candidates
      and the target of every object cell. */
  predicate ObjectCellsSized(b: Batch)
    requires WellShaped(b)
  {
    forall i :: 0 <= i < |b.pred| && b.hasObject[i] ==>
      Sized(Shape(Box0(b.pred[i]))) && Sized(Shape(Box1(b.pred[i]))) && Sized(b.targetBoxes[i])
  }

  /** What forward expects: N images of S x S cells, well shaped, with
      non-negative sizes in the object cells. */
  predicate ValidInput(cfg: Config, N: nat, b: Batch)
  {
    cfg.S > 0 && N > 0 && WellShaped(b) && ObjectCellsSized(b)
  }

  /** The masked class rows keep their shape. */
  lemma ObjectClassRowsShaped(b: Batch)
    requires WellShaped(b)
    ensures forall k :: 0 <= k < Count(b.hasObject) ==>
      |Mask(ClassRows(b.pred), b.hasObject)[k]| == |Mask(b.targetCls, b.hasObject)[k]|
  {
    forall k | 0 <= k < Count(b.hasObject)
      ensures |Mask(ClassRows(b.pred), b.hasObject)[k]| == |Mask(b.targetCls, b.hasObject)[k]|
    {
      MaskAt(ClassRows(b.pred), b.hasObject, k);
      MaskAt(b.targetCls, b.hasObject, k);
    }
  }

  /** The masked boxes keep the sizes of the object cells they come from. */
  lemma ObjectBoxesSized(b: Batch)
    requires WellShaped(b) && ObjectCellsSized(b)
    ensures forall k :: 0 <= k < Count(b.hasObject) ==>
      Sized(Shape(Mask(Boxes0(b.pred), b.hasObject)[k])) &&
      Sized(Shape(Mask(Boxes1(b.pred), b.hasObject)[k])) &&
      Sized(Mask(b.targetBoxes, b.hasObject)[k])
  {
    forall k | 0 <= k < Count(b.hasObject)
      ensures Sized(Shape(Mask(Boxes0(b.pred), b.hasObject)[k]))
      ensures Sized(Shape(Mask(Boxes1(b.pred), b.hasObject)[k]))
      ensures Sized(Mask(b.targetBoxes, b.hasObject)[k])
    {
      MaskAt(Boxes0(b.pred), b.hasObject, k);
      MaskAt(Boxes1(b.pred), b.hasObject, k);
      MaskAt(b.targetBoxes, b.hasObject, k);
    }
  }

  /** cls_loss: the class loss over the object cells. */
  function ObjectClassLoss(b: Batch): (r: real)
    requires WellShaped(b)
    ensures r >= 0.0
  {
    ObjectClassRowsShaped(b);
    ClassLoss(Mask(ClassRows(b.pred), b.hasObject), Mask(b.targetCls, b.hasObject))
  }

  /** no_obj_loss: the no-object loss over the two candidate columns. */
  function EmptyCellLoss(b: Batch): (r: real)
    requires WellShaped(b)
    ensures r >= 0.0
  {
    NoObjectLoss(Boxes0(b.pred), Boxes1(b.pred), b.hasObject)
  }

  /** The best boxes of the object cells: find_best_iou_boxes on the masked
      candidates and targets. */
  function ObjectSelections(S: nat, b: Batch): (r: seq<Selection>)
    requires S > 0 && WellShaped(b)
    ensures |r| == Count(b.hasObject)
  {
    BestSelections(Mask(Boxes0(b.pred), b.hasObject), Mask(Boxes1(b.pred), b.hasObject),
                   Mask(b.targetBoxes, b.hasObject), S)
  }

  /** reg_loss: the regression loss of the chosen boxes against the (still
      centre/size) targets of the object cells. */
  ghost function ObjectRegressionLoss(S: nat, b: Batch): (r: real)
    requires S > 0 && WellShaped(b) && ObjectCellsSized(b)
    ensures r >= 0.0
  {
    ObjectBoxesSized(b);
    RegressionLoss(Shapes(ObjectSelections(S, b)), Mask(b.targetBoxes, b.hasObject))
  }

  /** containing_obj_loss: chosen confidences against the best IoUs. */
  function ObjectContainLoss(S: nat, b: Batch): (r: real)
    requires S > 0 && WellShaped(b)
    ensures r >= 0.0
  {
    var best := ObjectSelections(S, b);
    ContainConfLoss(ChosenConfs(best), Ious(best))
  }

  /** The loss dictionary with total (l_coord * reg + contain + l_noobj * noobj
      + cls) / N. */
  function Combine(cfg: Config, N: nat, reg: real, contain: real, noObj: real, cls: real): (r: LossDict)
    requires N > 0
    ensures r.total * (N as real) == cfg.lCoord * reg + contain + cfg.lNoobj * noObj + cls
    ensures r.reg == reg && r.containingObj == contain && r.noObj == noObj && r.cls == cls
  {
    LossDict((cfg.lCoord * reg + contain + cfg.lNoobj * noObj + cls) / (N as real), reg, contain, noObj, cls)
  }

  /** forward: the four losses over their cells and their weighted total. */
  ghost function Forward(cfg: Config, N: nat, b: Batch): (r: LossDict)
    requires ValidInput(cfg, N, b)
    ensures r.reg >= 0.0 && r.containingObj >= 0.0 && r.noObj >= 0.0 && r.cls >= 0.0
  {
    Combine(cfg, N, ObjectRegressionLoss(cfg.S, b), ObjectContainLoss(cfg.S, b),
            EmptyCellLoss(b), ObjectClassLoss(b))
  }

  // ---------------------------------------------------------------------
  // Properties of forward
  // ---------------------------------------------------------------------

  lemma DivNonneg(p: real, q: real)
    requires p >= 0.0 && q > 0.0
    ensures p / q >= 0.0
  {
    var d := p / q;
    assert d * q == p;
    if d < 0.0 {
      MulPos(-d, q);
    }
  }

  lemma DivStrictMono(p1: real, p2: real, q: real)
    requires p1 < p2 && q > 0.0
    ensures p1 / q < p2 / q
  {
    var d1, d2 := p1 / q, p2 / q;
    assert d1 * q == p1 && d2 * q == p2;
    if d2 < d1 {
      MulPos(d1 - d2, q);
      assert false;
    }
  }

  /** A weighted total of non-negative losses with non-negative weights is
      non-negative. */
  lemma CombineNonneg(cfg: Config, N: nat, reg: real, contain: real, noObj: real, cls: real)
    requires N > 0 && cfg.lCoord >= 0.0 && cfg.lNoobj >= 0.0
    requires reg >= 0.0 && contain >= 0.0 && noObj >= 0.0 && cls >= 0.0
    ensures Combine(cfg, N, reg, contain, noObj, cls).total >= 0.0
  {
    MulNonneg(cfg.lCoord, reg);
    MulNonneg(cfg.lNoobj, noObj);
    DivNonneg(cfg.lCoord * reg + contain + cfg.lNoobj * noObj + cls, N as real);
  }

  /** With non-negative weights the total loss is non-negative. */
  lemma ForwardTotalNonneg(cfg: Config, N: nat, b: Batch)
    requires ValidInput(cfg, N, b)
    requires cfg.lCoord >= 0.0 && cfg.lNoobj >= 0.0
    ensures Forward(cfg, N, b).total >= 0.0
  {
    CombineNonneg(cfg, N, ObjectRegressionLoss(cfg.S, b), ObjectContainLoss(cfg.S, b),
                  EmptyCellLoss(b), ObjectClassLoss(b));
  }

  /** With no object cell, the masked class, box and target sequences are
      all empty, so the class, regression and contain losses are 0. */
  lemma NoObjectComponentsZero(S: nat, b: Batch)
    requires S > 0 && WellShaped(b) && ObjectCellsSized(b)
    requires forall i :: 0 <= i < |b.hasObject| ==> !b.hasObject[i]
    ensures ObjectSelections(S, b) == []
    ensures ObjectClassLoss(b) == 0.0 && ObjectRegressionLoss(S, b) == 0.0 && ObjectContainLoss(S, b) == 0.0
  {
    MaskNone(ClassRows(b.pred), b.hasObject);
    MaskNone(b.targetCls, b.hasObject);
    MaskNone(b.targetBoxes, b.hasObject);
    var best := ObjectSelections(S, b);
    assert best == [];
    assert Shapes(best) == [] && ChosenConfs(best) == [] && Ious(best) == [];
  }

  /** A loss dictionary combined from zero class, regression and contain
      losses has total l_noobj * no-object loss / N. */
  lemma CombineWithoutObjects(cfg: Config, N: nat, r: LossDict, reg: real, contain: real, noObj: real, cls: real)
    requires N > 0 && r == Combine(cfg, N, reg, contain, noObj, cls)
    requires reg == 0.0 && contain == 0.0 && cls == 0.0
    ensures r.cls == 0.0 && r.reg == 0.0 && r.containingObj == 0.0 &&
            r.total == cfg.lNoobj * r.noObj / (N as real)
  {
    assert cfg.lCoord * reg == 0.0;
  }

  /** With no object anywhere, the classification, regression and contain
      losses are exactly 0 and the total is l_noobj * no-object loss / N. */
  lemma ForwardNoObjects(cfg: Config, N: nat, b: Batch)
    requires ValidInput(cfg, N, b)
    requires forall i :: 0 <= i < |b.hasObject| ==> !b.hasObject[i]
    ensures var r := Forward(cfg, N, b);
      r.cls == 0.0 && r.reg == 0.0 && r.containingObj == 0.0 &&
      r.total == cfg.lNoobj * r.noObj / (N as real)
  {
    var r := Forward(cfg, N, b);
    NoObjectComponentsZero(cfg.S, b);
    CombineWithoutObjects(cfg, N, r, ObjectRegressionLoss(cfg.S, b), ObjectContainLoss(cfg.S, b),
                          EmptyCellLoss(b), ObjectClassLoss(b));
  }

  /** Raising l_coord strictly raises the total loss whenever the regression
      loss is positive, all else fixed. */
  lemma ForwardMonotoneInLCoord(cfg: Config, lCoord2: real, N: nat, b: Batch)
    requires ValidInput(cfg, N, b)
    requires lCoord2 > cfg.lCoord
    requires Forward(cfg, N, b).reg > 0.0
    ensures Forward(cfg.(lCoord := lCoord2), N, b).total > Forward(cfg, N, b).total
  {
    CombineMonotoneInLCoord(cfg, lCoord2, N, ObjectRegressionLoss(cfg.S, b), ObjectContainLoss(cfg.S, b),
                            EmptyCellLoss(b), ObjectClassLoss(b));
  }

  lemma CombineMonotoneInLCoord(cfg: Config, lCoord2: real, N: nat, reg: real, contain: real, noObj: real, cls: real)
    requires N > 0 && lCoord2 > cfg.lCoord && reg > 0.0
    ensures Combine(cfg.(lCoord := lCoord2), N, reg, contain, noObj, cls).total
          > Combine(cfg, N, reg, contain, noObj, cls).total
  {
    var rest := contain + cfg.lNoobj * noObj + cls;
    MulPos(lCoord2 - cfg.lCoord, reg);
    assert (lCoord2 - cfg.lCoord) * reg == lCoord2 * reg - cfg.lCoord * reg;
    DivStrictMono(cfg.lCoord * reg + rest, lCoord2 * reg + rest, N as real);
  }

  /** The classification, regression and contain losses do not depend on the
      rows of the cells without an object. */
  lemma ForwardIgnoresEmptyCells(cfg: Config, N: nat, b: Batch, pred2: seq<seq<real>>)
    requires ValidInput(cfg, N, b) && ValidInput(cfg, N, b.(pred := pred2))
    requires forall i :: 0 <= i < |b.pred| && b.hasObject[i] ==> pred2[i] == b.pred[i]
    ensures var r1, r2 := Forward(cfg, N, b), Forward(cfg, N, b.(pred := pred2));
      r2.cls == r1.cls && r2.reg == r1.reg && r2.containingObj == r1.containingObj
  {
    var b2 := b.(pred := pred2);
    MaskCongruent(ClassRows(b.pred), ClassRows(pred2), b.hasObject);
    MaskCongruent(Boxes0(b.pred), Boxes0(pred2), b.hasObject);
    MaskCongruent(Boxes1(b.pred), Boxes1(pred2), b.hasObject);
    assert ObjectSelections(cfg.S, b2) == ObjectSelections(cfg.S, b);
    assert ObjectClassLoss(b2) == ObjectClassLoss(b);
  }

  /** The no-object loss depends only on the two confidence channels of the
      cells without an object. */
  lemma ForwardNoObjIgnoresObjectCells(cfg: Config, N: nat, b: Batch, pred2: seq<seq<real>>)
    requires ValidInput(cfg, N, b) && ValidInput(cfg, N, b.(pred := pred2))
    requires forall i :: 0 <= i < |b.pred| && !b.hasObject[i] ==>
      pred2[i][4] == b.pred[i][4] && pred2[i][9] == b.pred[i][9]
    ensures Forward(cfg, N, b.(pred := pred2)).noObj == Forward(cfg, N, b).noObj
  {
    NoObjectLossIgnoresObjectCells(Boxes0(b.pred), Boxes1(b.pred), Boxes0(pred2), Boxes1(pred2), b.hasObject);
    assert EmptyCellLoss(b.(pred := pred2)) == EmptyCellLoss(b);
  }

  /** Every object cell is predicted exactly by its first candidate: same
      centre and size as the target, which has positive size, and
      confidence 1. */
  predicate ExactBoxes(b: Batch)
    requires WellShaped(b)
  {
    forall i :: 0 <= i < |b.pred| && b.hasObject[i] ==>
      Shape(Box0(b.pred[i])) == b.targetBoxes[i] && b.targetBoxes[i].w > 0.0 && b.targetBoxes[i].h > 0.0 &&
      Box0(b.pred[i]).conf == 1.0
  }

  /** Every object cell predicts its class targets exactly. */
  predicate ExactClasses(b: Batch)
    requires WellShaped(b)
  {
    forall i :: 0 <= i < |b.pred| && b.hasObject[i] ==> b.pred[i][10..] == b.targetCls[i]
  }

  /** With exact first candidates, the first candidate is chosen with IoU 1
      in every object cell, whatever the second candidate is. */
  lemma ExactMatchSelections(S: nat, b: Batch)
    requires S > 0 && WellShaped(b) && ExactBoxes(b)
    ensures forall k :: 0 <= k < Count(b.hasObject) ==>
      ObjectSelections(S, b)[k] == Selection(1.0, Mask(Boxes0(b.pred), b.hasObject)[k])
  {
    var obj0, obj1 := Mask(Boxes0(b.pred), b.hasObject), Mask(Boxes1(b.pred), b.hasObject);
    var objTargets := Mask(b.targetBoxes, b.hasObject);
    forall k | 0 <= k < Count(b.hasObject)
      ensures ObjectSelections(S, b)[k] == Selection(1.0, obj0[k])
    {
      MaskAt(Boxes0(b.pred), b.hasObject, k);
      MaskAt(Boxes1(b.pred), b.hasObject, k);
      MaskAt(b.targetBoxes, b.hasObject, k);
      ExactFirstCandidateChosen(obj0[k], obj1[k], objTargets[k], S);
    }
  }

  /** With exact first candidates of confidence 1, the regression and
      contain losses are 0. */
  lemma ExactMatchBoxLosses(S: nat, b: Batch)
    requires S > 0 && WellShaped(b) && ObjectCellsSized(b) && ExactBoxes(b)
    ensures ObjectRegressionLoss(S, b) == 0.0 && ObjectContainLoss(S, b) == 0.0
  {
    var objTargets := Mask(b.targetBoxes, b.hasObject);
    var best := ObjectSelections(S, b);
    ExactMatchSelections(S, b);
    forall k | 0 <= k < |best|
      ensures Shape(best[k].box) == objTargets[k] && best[k].box.conf == best[k].iou
    {
      MaskAt(Boxes0(b.pred), b.hasObject, k);
      MaskAt(b.targetBoxes, b.hasObject, k);
    }
    assert Shapes(best) == objTargets;
    assert ChosenConfs(best) == Ious(best);
    ObjectBoxesSized(b);
    RegressionLossZeroIff(Shapes(best), objTargets);
  }

  /** With class scores equal to the class targets in every object cell,
      the classification loss is 0. */
  lemma ExactMatchClassLoss(b: Batch)
    requires WellShaped(b) && ExactClasses(b)
    ensures ObjectClassLoss(b) == 0.0
  {
    MaskCongruent(ClassRows(b.pred), b.targetCls, b.hasObject);
  }

  /** If in every object cell the first candidate matches the target exactly
      with confidence 1 and positive size, and the class scores equal the
      class targets, then the first candidate is chosen with IoU 1 in every
      object cell and the classification, regression and contain losses are
      all 0. */
  lemma ForwardExactMatch(cfg: Config, N: nat, b: Batch)
    requires ValidInput(cfg, N, b) && ExactBoxes(b) && ExactClasses(b)
    ensures forall k :: 0 <= k < Count(b.hasObject) ==>
      ObjectSelections(cfg.S, b)[k] == Selection(1.0, Mask(Boxes0(b.pred), b.hasObject)[k])
    ensures var r := Forward(cfg, N, b);
      r.cls == 0.0 && r.reg == 0.0 && r.containingObj == 0.0
  {
    ExactMatchSelections(cfg.S, b);
    ExactMatchBoxLosses(cfg.S, b);
    ExactMatchClassLoss(b);
  }

  /** A single-cell grid (S = 1, one image) whose one cell holds the object
      (0.5, 0.5, 0.2, 0.2): the first candidate is that box with confidence 1,
      the second is offset. The first candidate is chosen with IoU 1 and every
      loss, hence the total, is 0. */
  lemma SingleCellScenario(lCoord: real, lNoobj: real)
    ensures var b := Batch([[0.5, 0.5, 0.2, 0.2, 1.0, 0.6, 0.4, 0.2, 0.2, 0.3] + Zeros(NumClasses)],
                           [CenterBox(0.5, 0.5, 0.2, 0.2)], [Zeros(NumClasses)], [true]);
      ObjectSelections(1, b) == [Selection(1.0, PredBox(0.5, 0.5, 0.2, 0.2, 1.0))] &&
      Forward(Config(1, lCoord, lNoobj), 1, b) == LossDict(0.0, 0.0, 0.0, 0.0, 0.0)
  {
    var cfg := Config(1, lCoord, lNoobj);
    var b := Batch([[0.5, 0.5, 0.2, 0.2, 1.0, 0.6, 0.4, 0.2, 0.2, 0.3] + Zeros(NumClasses)],
                   [CenterBox(0.5, 0.5, 0.2, 0.2)], [Zeros(NumClasses)], [true]);
    assert b.pred[0][10..] == Zeros(NumClasses);
    assert Box0(b.pred[0]) == PredBox(0.5, 0.5, 0.2, 0.2, 1.0);
    assert Mask(Boxes0(b.pred), [true]) == [PredBox(0.5, 0.5, 0.2, 0.2, 1.0)];
    ForwardExactMatch(cfg, 1, b);
    assert Mask(Boxes0(b.pred), Complement([true])) == [];
    assert Mask(Boxes1(b.pred), Complement([true])) == [];
    assert EmptyCellLoss(b) == 0.0;
  }
}
