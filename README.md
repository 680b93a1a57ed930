# YOLO loss over exact reals

A Dafny model of the YOLO v1 training loss in `yolo_loss.py`. It covers:

- the pairwise intersection-over-union of corner-form boxes (`compute_iou`);
- the conversion from centre/size to corner form (`xywh2xyxy`);
- the choice of the better of a cell's two predicted boxes (`find_best_iou_boxes`);
- the four sum-of-squares losses, and their weighted total computed by `YoloLoss.forward`.

Everything is stated over Dafny `real`. The `(N, S, S, ...)` tensors are flattened into one sequence of grid cells. Boolean-mask indexing (`t[has_object_map]`, `t[~has_object_map]`) becomes sequence filtering, and `F.mse_loss(..., reduction='sum')` becomes a recursive sum of squared differences.

Modules:

- `Geometry` (`geometry.dfy`): boxes, IoU, and the conversion with its inverse.
- `Matcher` (`matcher.dfy`): the per-cell choice of the best box, as a function and as the loop that computes it.
- `Masking` (`masking.dfy`): the boolean mask as an order-preserving filter, and the partition it makes with its complement.
- `Loss` (`loss.dfy`): the losses, the forward pass and their properties.

Two places in the code do not do what their own doc comments say. The model follows the doc comments in both places:

- `xywh2xyxy` computes x2/y2 from the already-overwritten x1/y1 (see Findings).
- `find_best_iou_boxes` returns inside its first loop iteration, compares only `iou1[i][i]` with `iou2[i][i]`, and takes a column maximum across cells. The model implements the documented choice: for each cell, the better of its own two candidates against its own target.

## Model

| member | source | states |
|---|---|---|
| Geometry.Intersection | yolo_loss.py:27-29 | the clipped intersection area is never negative |
| Geometry.Iou | yolo_loss.py:27-36 | the IoU of a pair is 0 whenever either box lacks positive width or height (its clipped intersection is empty); its other properties are in IouSymmetric, IouUnit, IouBounds, IouSelf and IouOneIffSame |
| Geometry.ComputeIou | yolo_loss.py:6-37 | the result is an N x M matrix whose entry (i, j) is the IoU of box i of the first list with box j of the second list; N and M are independent |
| Geometry.IouSymmetric | yolo_loss.py:17-36 | intersection and IoU do not depend on the order of the two boxes |
| Geometry.IouDisjoint | yolo_loss.py:27-29 | boxes that do not overlap in x or in y have intersection 0 and IoU 0 |
| Geometry.IntersectionBounded | yolo_loss.py:27-32 | for boxes of positive area, the intersection is at most each box's area, and both areas are positive |
| Geometry.IouBounds | yolo_loss.py:31-36 | for boxes of positive area the union is positive and 0 <= IoU <= 1 |
| Geometry.IouUnit | yolo_loss.py:27-36 | for every pair of boxes, whatever their sizes, 0 <= IoU <= 1 |
| Geometry.IouSelf | yolo_loss.py:31-36 | a box of positive area has IoU 1 with itself |
| Geometry.IouOneIffSame | yolo_loss.py:27-36 | for boxes of positive area, IoU is 1 exactly when the boxes are identical |
| Geometry.ToCorners | yolo_loss.py:59-60 | the documented conversion gives x2 - x1 = w and y2 - y1 = h, with the midpoint at (x/S, y/S); x1 <= x2 when w >= 0 and y1 <= y2 when h >= 0 |
| Geometry.XywhToXyxy | yolo_loss.py:51-70 | converts each row of a batch so that it has the documented extent and midpoint |
| Geometry.CenterRoundTrip | yolo_loss.py:59-60 | converting to corners and back recovers (x, y, w, h) |
| Geometry.CornersRoundTrip | yolo_loss.py:59-60 | converting to centre/size and back recovers the corners |
| Geometry.ToCornersWellFormed | yolo_loss.py:59-60 | the converted box has positive extent exactly when w > 0 and h > 0 |
| Geometry.ToCornersAsWritten | yolo_loss.py:65-68 | the conversion as written agrees with the documented one on x1 and y1, but with S = 1 puts x2 and y2 on the centre (x, y); AsWrittenHalvesBox and AsWrittenCounterexample show the discrepancy |
| Geometry.AsWrittenHalvesBox | yolo_loss.py:65-68 | with S = 1, the code as written produces a box half as wide and half as tall as documented, and differs from the documented box whenever w or h is non-zero |
| Geometry.AsWrittenCounterexample | yolo_loss.py:65-68 | on (0.5, 0.5, 0.2, 0.2) with S = 1, the code as written gives corners (0.4, 0.4, 0.5, 0.5) and the documented formula gives (0.4, 0.4, 0.6, 0.6) |
| Matcher.SelectBest | yolo_loss.py:78-80 | the chosen box is one of the cell's two candidates; the returned IoU is that box's IoU and is at least both candidates' IoUs; a tie keeps candidate 0 (strict `<` on line 102) |
| Matcher.BestSelections | yolo_loss.py:78-80 | for every object cell, the chosen box is one of the cell's own two candidates, its IoU is that box's IoU against the cell's own target and at least both candidates' IoUs, and a tie keeps candidate 0 |
| Matcher.FindBestIouBoxes | yolo_loss.py:92-104 | the loop that starts from the first candidates and swaps in the second candidate where its IoU is strictly larger returns, cell by cell, exactly the documented selection |
| Matcher.SelectionIouInUnitInterval | yolo_loss.py:78-80 | the best IoU lies in [0, 1], whatever the sizes of the boxes |
| Matcher.ExactFirstCandidateChosen | yolo_loss.py:102-103 | a first candidate equal to a positive-size target is chosen with IoU 1, whatever the second candidate is |
| Matcher.ExactSecondCandidateChosen | yolo_loss.py:102-103 | a second candidate equal to a positive-size target is chosen with IoU 1, unless the first candidate has the same shape, whatever the first candidate's size |
| Masking.Mask | yolo_loss.py:211-216 | masking keeps as many rows as there are set flags |
| Masking.Complement | yolo_loss.py:129 | `~has_object_map` negates every flag and keeps the length |
| Masking.MaskIndex | yolo_loss.py:211-231 | the k-th selected row comes from a set flag that has exactly k set flags before it |
| Masking.MaskAt | yolo_loss.py:211-231 | row k of a masked sequence is the row at the k-th set flag, so sequences masked by the same flags stay paired row by row |
| Masking.MaskIndexIncreasing | yolo_loss.py:211-231 | masking keeps the original order of the rows |
| Masking.MaskIndexCovers | yolo_loss.py:211-231 | every cell whose flag is set yields a selected row |
| Masking.MaskPartition | yolo_loss.py:129-132 | a mask and its complement split the cells into two parts whose sizes add up to the total, and which together hold every row exactly once (as a multiset) |
| Masking.MaskCongruent | yolo_loss.py:211-231 | the masked rows depend only on the rows whose flag is set |
| Masking.MaskNone | yolo_loss.py:211-231 | with no flag set, masking selects nothing |
| Loss.SumSqDiff | yolo_loss.py:109 | a summed squared error is never negative |
| Loss.SumSqDiffZeroIff | yolo_loss.py:109 | a summed squared error is 0 exactly when the two vectors are equal |
| Loss.SumSqDiffAppend | yolo_loss.py:134-138 | the summed squared error of concatenated vectors is the sum of the parts' errors |
| Loss.ClassLoss | yolo_loss.py:106-110 | the class loss is non-negative, and 0 exactly when the predicted class rows equal the targets |
| Loss.ContainConfLoss | yolo_loss.py:143-161 | the contain loss is non-negative, and 0 exactly when the chosen confidences equal the best IoUs |
| Loss.NoObjectLoss | yolo_loss.py:112-140 | the no-object loss is non-negative |
| Loss.NoObjectLossByCell | yolo_loss.py:129-138 | the masked no-object loss equals a cell-by-cell sum of both candidates' squared confidences over exactly the cells without an object |
| Loss.NoObjectLossIgnoresObjectCells | yolo_loss.py:129-138 | the no-object loss is unchanged by any change to object cells, or to any channel other than the confidences |
| Loss.Sqrt | yolo_loss.py:177-179 | the root is non-negative, and it squares back to its argument whenever a root exists |
| Loss.SqrtOfSquare | yolo_loss.py:177-179 | the root of y * y is y for y >= 0 |
| Loss.SqrtInjective | yolo_loss.py:177-179 | two values that have roots have equal roots exactly when the values are equal |
| Loss.RegressionLoss | yolo_loss.py:163-183 | the regression loss is non-negative |
| Loss.RegressionLossZeroIff | yolo_loss.py:176-183 | the regression loss is 0 exactly when every chosen box has the target's centre and the same rooted width and height |
| Loss.Box0 | yolo_loss.py:207 | `pred_tensor[..., :5]`: the first box of a row; RowSplit states what the slices cover |
| Loss.Box1 | yolo_loss.py:208 | `pred_tensor[..., 5:10]`: the second box of a row; RowSplit states what the slices cover |
| Loss.ClassRows | yolo_loss.py:210 | `pred_tensor[..., 10:]`: one row of C = 20 class scores per cell |
| Loss.RowSplit | yolo_loss.py:207-210 | a prediction row is exactly its first box, then its second box, then its class scores, so the three slices lose and repeat nothing |
| Loss.ObjectClassLoss | yolo_loss.py:210-217 | the class loss over the object cells is non-negative |
| Loss.EmptyCellLoss | yolo_loss.py:207-221 | the no-object loss over both candidate columns is non-negative |
| Loss.ObjectSelections | yolo_loss.py:227-235 | there is one selection per object cell |
| Loss.ObjectRegressionLoss | yolo_loss.py:239-242 | the regression loss of the chosen boxes against the object cells' targets is non-negative |
| Loss.ObjectContainLoss | yolo_loss.py:245-248 | the contain loss of the chosen confidences against the best IoUs is non-negative |
| Loss.Combine | yolo_loss.py:251-259 | the dictionary holds the four losses unchanged, and N times its total is l_coord * reg + contain + l_noobj * noobj + cls |
| Loss.Forward | yolo_loss.py:185-260 | the four loss components of the returned dictionary are non-negative |
| Loss.CombineNonneg | yolo_loss.py:251 | a total built from non-negative weights and losses is non-negative |
| Loss.ForwardTotalNonneg | yolo_loss.py:251 | with l_coord, l_noobj >= 0 the total loss is non-negative |
| Loss.NoObjectComponentsZero | yolo_loss.py:211-248 | with no object cell nothing is selected, and the class, regression and contain losses are 0 |
| Loss.CombineWithoutObjects | yolo_loss.py:251 | a dictionary combined from zero class, regression and contain losses has total l_noobj * noobj / N |
| Loss.ForwardNoObjects | yolo_loss.py:211-251 | with no object anywhere, the class, regression and contain losses are 0 and the total is l_noobj * no-object loss / N |
| Loss.CombineMonotoneInLCoord | yolo_loss.py:251 | with the other losses fixed, a larger l_coord gives a strictly larger total whenever the regression loss is positive |
| Loss.ForwardMonotoneInLCoord | yolo_loss.py:251 | raising l_coord strictly raises the total loss whenever the regression loss is positive |
| Loss.ForwardIgnoresEmptyCells | yolo_loss.py:210-248 | the class, regression and contain losses do not depend on the rows of cells without an object |
| Loss.ForwardNoObjIgnoresObjectCells | yolo_loss.py:221 | the no-object loss depends only on the two confidence channels of the cells without an object |
| Loss.ExactMatchSelections | yolo_loss.py:235 | when each object cell's first candidate matches its positive-size target exactly, that candidate is chosen with IoU 1 in every object cell, whatever the second candidates are |
| Loss.ExactMatchBoxLosses | yolo_loss.py:239-248 | with exact first candidates of confidence 1, the regression and contain losses are 0, whatever the second candidates and the class scores are |
| Loss.ExactMatchClassLoss | yolo_loss.py:210-217 | with class scores equal to the class targets in every object cell, the class loss is 0, whatever the boxes are |
| Loss.ForwardExactMatch | yolo_loss.py:185-260 | a perfect first candidate (confidence 1) and perfect class scores in every object cell give IoU 1 selections and class, regression and contain losses of 0, whatever the second candidates are |
| Loss.SingleCellScenario | yolo_loss.py:185-260 | on a one-cell grid holding (0.5, 0.5, 0.2, 0.2), predicted exactly with confidence 1, the first candidate is chosen with IoU 1 and every loss, including the total, is 0 |

## Left out

- Autograd and `.detach()` (yolo_loss.py:247): there are no gradients; the best IoU is a plain value.
- `nn.Module` plumbing and the constructor's bookkeeping (yolo_loss.py:42-49): `Config` holds S, l_coord and l_noobj, and C is the constant `NumClasses` = 20.
- B is fixed at 2. The two candidates are the first ten channels of a row, as `forward` slices them.
- Floating point: rounding, NaN/inf propagation and the order of reductions. The model computes over exact reals.
- Broadcasting (`unsqueeze`, `expand`, `view(-1, ...)`): it becomes index maps over sequences. Tensor shapes (N, S, S, ...) are flattened into one sequence of cells.
- ValidInput: does not require the number of cells to be N * S * S. The total divides by the N given, as the code does.
- Geometry.Iou: the code divides by the union without a guard. The model defines IoU = 0 when the union is 0. For boxes of positive area the union is positive (Geometry.IouBounds), so the two agree there.
- Loss.Sqrt: `torch.sqrt` has no counterpart on Dafny reals. Sqrt returns the non-negative root whenever one exists. Dafny cannot show that every non-negative real has a root, so the regression properties are stated through Sqrt and not through w and h directly.
- ValidInput: requires non-negative width and height for the target and for both candidates of every object cell. The code takes roots only of the chosen box and the target (yolo_loss.py:177, 179), and `torch.sqrt` of a negative size gives NaN. So a negative-size candidate that is not chosen would still give a finite loss in the code, but the model excludes it.
- find_best_iou_boxes as written (yolo_loss.py:92-104) is not modelled:
  - the early `return`;
  - the step of 2 in `range`;
  - the diagonal comparison `iou1[i][i]` against `iou2[i][i]`;
  - the column maximum over a cross-cell IoU matrix;
  - the aliasing of `best_boxes` to `pred_box_list[0]`;
  - the case with no object cell: `range(0, 0, 2)` is empty, so the function returns `None` and the unpacking at yolo_loss.py:235 raises. The all-empty scenario of Loss.ForwardNoObjects therefore crashes in the code as written, while the model returns the loss dictionary.
- In-place updates (`wh[wh < 0] = 0`, the column writes of `xywh2xyxy`, `best_boxes[i] = ...`): they are modelled on values. The aliasing those writes create with the caller's tensors is not captured.

## Findings

| source | as written | input that shows it | evidently intended | confidence | as-written member | corrected member |
|---|---|---|---|---|---|---|
| yolo_loss.py:67-68 | x2 = x1/S + 0.5w and y2 = y1/S + 0.5h, where x1 and y1 are the already-converted corners from lines 65-66 | S = 1, (x, y, w, h) = (0.5, 0.5, 0.2, 0.2): gives corners (0.4, 0.4, 0.5, 0.5) | x2 = x/S + 0.5w and y2 = y/S + 0.5h (the formula in the doc comment at lines 59-60), giving (0.4, 0.4, 0.6, 0.6) | not executed | Geometry.AsWrittenCounterexample | Geometry.CenterRoundTrip |
