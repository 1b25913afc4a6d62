/** Per-image detection post-processing of the demo driver
    (rfcn/demo_batch.py, lines 134-145).

    For every foreground class `j` (column 0 of the scores, the background,
    is skipped) the driver takes that class's score column and a 4-column
    box slice, builds rows [x1, y1, x2, y2, score], keeps the rows an
    external non-maximum suppression selects, in its order, and then only
    those whose score is strictly above 0.7. */
module Postprocess {

  /** The confidence cutoff the driver applies after suppression. */
  const ScoreThreshold: real := 0.7

  /** One row [x1, y1, x2, y2, score] of a class's detections. */
  datatype Detection = Detection(x1: real, y1: real, x2: real, y2: real, score: real)

  /** What the detector returns for one image: a score per (box, class) and
      the box coordinates, `numClasses` being the scores' column count. */
  datatype RawDetections = RawDetections(numClasses: nat, scores: seq<seq<real>>, boxes: seq<seq<real>>)

  /** The suppression routine: given a class's rows, the indices of the rows
      it keeps, in the order it keeps them. */
  type Nms = seq<Detection> -> seq<nat>

  /** The suppression routine only returns indices of rows it was given. */
  ghost predicate NmsInRange(nms: Nms)
  {
    forall rows: seq<Detection>, k :: 0 <= k < |nms(rows)| ==> nms(rows)[k] < |rows|
  }

  /** First box column of class `j`: columns 4..7 for every class in
      class-agnostic mode, columns 4j..4j+3 otherwise. */
  function BoxStart(j: nat, classAgnostic: bool): nat
  {
    if classAgnostic then 4 else 4 * j
  }

  /** How many box columns the slices of all foreground classes need. */
  function BoxColumnsNeeded(numClasses: nat, classAgnostic: bool): nat
  {
    if numClasses <= 1 then 0 else BoxStart(numClasses - 1, classAgnostic) + 4
  }

  /** One score row per box row, `numClasses` scores per row, and enough box
      columns for every foreground class's slice. */
  predicate WellShaped(raw: RawDetections, classAgnostic: bool)
  {
    && |raw.scores| == |raw.boxes|
    && (forall i :: 0 <= i < |raw.scores| ==> |raw.scores[i]| == raw.numClasses)
    && (forall i :: 0 <= i < |raw.boxes| ==> |raw.boxes[i]| >= BoxColumnsNeeded(raw.numClasses, classAgnostic))
  }

  /** Row `i` of class `j`: its box slice followed by its class score. */
  function RowDetection(raw: RawDetections, i: nat, j: nat, classAgnostic: bool): Detection
    requires WellShaped(raw, classAgnostic) && 1 <= j < raw.numClasses && i < |raw.scores|
  {
    var box := raw.boxes[i];
    var c := BoxStart(j, classAgnostic);
    Detection(box[c], box[c + 1], box[c + 2], box[c + 3], raw.scores[i][j])
  }

  /** The rows of class `j`, one per box (`np.hstack` of the slice and the
      score column). */
  function ClassRows(raw: RawDetections, j: nat, classAgnostic: bool): (rows: seq<Detection>)
    requires WellShaped(raw, classAgnostic) && 1 <= j < raw.numClasses
    ensures |rows| == |raw.scores|
  {
    seq(|raw.scores|, i requires 0 <= i < |raw.scores| => RowDetection(raw, i, j, classAgnostic))
  }

  /** The rows at the indices `keep`, in the order of `keep`. */
  function KeepRows(rows: seq<Detection>, keep: seq<nat>): seq<Detection>
    requires forall k :: 0 <= k < |keep| ==> keep[k] < |rows|
  {
    seq(|keep|, k requires 0 <= k < |keep| => rows[keep[k]])
  }

  /** The rows whose score is strictly above the cutoff, in their order. */
  function AboveThreshold(rows: seq<Detection>): (r: seq<Detection>)
    ensures |r| <= |rows|
    ensures forall k :: 0 <= k < |r| ==> r[k].score > ScoreThreshold
  {
    if rows == [] then []
    else if rows[0].score > ScoreThreshold then [rows[0]] + AboveThreshold(rows[1..])
    else AboveThreshold(rows[1..])
  }

  /** A row is kept by the cutoff exactly when it is among the input rows
      and its score is above 0.7. */
  lemma {:induction false} AboveThresholdMembers(rows: seq<Detection>, d: Detection)
    ensures d in AboveThreshold(rows) <==> d in rows && d.score > ScoreThreshold
  {
    if rows != [] {
      AboveThresholdMembers(rows[1..], d);
      assert rows == [rows[0]] + rows[1..];
    }
  }

  /** The cutoff keeps the rows' order: filtering a concatenation is the
      concatenation of the filtered parts. */
  lemma {:induction false} AboveThresholdAppend(a: seq<Detection>, b: seq<Detection>)
    ensures AboveThreshold(a + b) == AboveThreshold(a) + AboveThreshold(b)
  {
    if a == [] {
      assert a + b == b;
    } else {
      assert (a + b)[0] == a[0];
      assert (a + b)[1..] == a[1..] + b;
      AboveThresholdAppend(a[1..], b);
    }
  }

  /** Applying the cutoff a second time changes nothing. */
  lemma {:induction false} AboveThresholdIdempotent(rows: seq<Detection>)
    ensures AboveThreshold(AboveThreshold(rows)) == AboveThreshold(rows)
  {
    if rows != [] {
      AboveThresholdIdempotent(rows[1..]);
    }
  }

  /** The cutoff is strict: a score of exactly 0.7 is dropped, any higher
      score is kept. */
  lemma ThresholdBoundary(d: Detection)
    ensures d.score == ScoreThreshold ==> AboveThreshold([d]) == []
    ensures d.score > ScoreThreshold ==> AboveThreshold([d]) == [d]
  {
  }

  /** The indices of `keep` whose rows score above the cutoff, in the order
      of `keep`: the boolean mask `score > 0.7` taken on indices. */
  function KeepAbove(rows: seq<Detection>, keep: seq<nat>): (r: seq<nat>)
    requires forall k :: 0 <= k < |keep| ==> keep[k] < |rows|
    ensures forall k :: 0 <= k < |r| ==> r[k] < |rows| && rows[r[k]].score > ScoreThreshold
  {
    if keep == [] then []
    else if rows[keep[0]].score > ScoreThreshold then [keep[0]] + KeepAbove(rows, keep[1..])
    else KeepAbove(rows, keep[1..])
  }

  /** An index survives the mask exactly when it is in `keep` and its row
      scores above 0.7: no passing index of `keep` is lost. */
  lemma {:induction false} KeepAboveMembers(rows: seq<Detection>, keep: seq<nat>, i: nat)
    requires forall k :: 0 <= k < |keep| ==> keep[k] < |rows|
    ensures i in KeepAbove(rows, keep) <==> i in keep && i < |rows| && rows[i].score > ScoreThreshold
  {
    if keep != [] {
      KeepAboveMembers(rows, keep[1..], i);
      assert keep == [keep[0]] + keep[1..];
    }
  }

  /** The mask on indices keeps the order of `keep`: masking a
      concatenation concatenates the masked parts. */
  lemma {:induction false} KeepAboveAppend(rows: seq<Detection>, a: seq<nat>, b: seq<nat>)
    requires forall k :: 0 <= k < |a| ==> a[k] < |rows|
    requires forall k :: 0 <= k < |b| ==> b[k] < |rows|
    ensures KeepAbove(rows, a + b) == KeepAbove(rows, a) + KeepAbove(rows, b)
  {
    if a == [] {
      assert a + b == b;
    } else {
      assert (a + b)[0] == a[0];
      assert (a + b)[1..] == a[1..] + b;
      KeepAboveAppend(rows, a[1..], b);
    }
  }

  /** Thresholding the kept rows is keeping only the kept indices whose row
      scores above 0.7: the result is the subsequence of the suppression's
      rows, in its order, that pass the cutoff. */
  lemma {:induction false} ThresholdAfterKeep(rows: seq<Detection>, keep: seq<nat>)
    requires forall k :: 0 <= k < |keep| ==> keep[k] < |rows|
    ensures AboveThreshold(KeepRows(rows, keep)) == KeepRows(rows, KeepAbove(rows, keep))
  {
    if keep != [] {
      ThresholdAfterKeep(rows, keep[1..]);
      assert KeepRows(rows, keep) == [rows[keep[0]]] + KeepRows(rows, keep[1..]);
      var above := KeepAbove(rows, keep[1..]);
      if rows[keep[0]].score > ScoreThreshold {
        assert KeepRows(rows, [keep[0]] + above) == [rows[keep[0]]] + KeepRows(rows, above);
      }
    }
  }

  /** The detections reported for foreground class `j`: at most one per
      row the suppression keeps, each scoring above 0.7. */
  function ClassDetections(raw: RawDetections, j: nat, classAgnostic: bool, nms: Nms): (r: seq<Detection>)
    requires WellShaped(raw, classAgnostic) && 1 <= j < raw.numClasses && NmsInRange(nms)
    ensures |r| <= |nms(ClassRows(raw, j, classAgnostic))|
    ensures forall k :: 0 <= k < |r| ==> r[k].score > ScoreThreshold
  {
    var rows := ClassRows(raw, j, classAgnostic);
    var keep := nms(rows);
    AboveThreshold(KeepRows(rows, keep))
  }

  /** Every reported detection of class `j` is the row of a box the
      suppression kept, with that box's slice for class `j` and its class-`j`
      score, and that score is above 0.7; conversely every kept row above
      0.7 is reported. */
  lemma ClassDetectionsSpec(raw: RawDetections, j: nat, classAgnostic: bool, nms: Nms)
    requires WellShaped(raw, classAgnostic) && 1 <= j < raw.numClasses && NmsInRange(nms)
    ensures var rows := ClassRows(raw, j, classAgnostic);
      var keep := nms(rows);
      var r := ClassDetections(raw, j, classAgnostic, nms);
      var c := BoxStart(j, classAgnostic);
      && (forall d :: d in r ==>
            d.score > ScoreThreshold &&
            exists k :: 0 <= k < |keep| && keep[k] < |raw.scores| &&
              d == rows[keep[k]] &&
              d.score == raw.scores[keep[k]][j] &&
              d.x1 == raw.boxes[keep[k]][c] && d.y1 == raw.boxes[keep[k]][c + 1] &&
              d.x2 == raw.boxes[keep[k]][c + 2] && d.y2 == raw.boxes[keep[k]][c + 3])
      && (forall k :: 0 <= k < |keep| && rows[keep[k]].score > ScoreThreshold ==> rows[keep[k]] in r)
  {
    var rows := ClassRows(raw, j, classAgnostic);
    var keep := nms(rows);
    var kept := KeepRows(rows, keep);
    forall d | d in ClassDetections(raw, j, classAgnostic, nms)
      ensures exists k :: 0 <= k < |keep| && d == kept[k]
    {
      AboveThresholdMembers(kept, d);
    }
    forall k | 0 <= k < |keep| && rows[keep[k]].score > ScoreThreshold
      ensures rows[keep[k]] in ClassDetections(raw, j, classAgnostic, nms)
    {
      assert kept[k] == rows[keep[k]];
      AboveThresholdMembers(kept, rows[keep[k]]);
    }
  }

  /** `dets_nms` of one image: the detections of classes 1 .. numClasses-1,
      in ascending class order. */
  function ImageDetections(raw: RawDetections, classAgnostic: bool, nms: Nms): seq<seq<Detection>>
    requires WellShaped(raw, classAgnostic) && NmsInRange(nms)
  {
    if raw.numClasses == 0 then []
    else seq(raw.numClasses - 1, k requires 0 <= k < raw.numClasses - 1 =>
               ClassDetections(raw, k + 1, classAgnostic, nms))
  }

  /** The per-class loop over one image, appending each class's detections to
      `dets_nms`. */
  method PostprocessImage(raw: RawDetections, classAgnostic: bool, nms: Nms)
    returns (detsNms: seq<seq<Detection>>)
    requires WellShaped(raw, classAgnostic) && NmsInRange(nms)
    ensures |detsNms| == if raw.numClasses == 0 then 0 else raw.numClasses - 1
    ensures forall k :: 0 <= k < |detsNms| ==> detsNms[k] == ClassDetections(raw, k + 1, classAgnostic, nms)
    ensures detsNms == ImageDetections(raw, classAgnostic, nms)
  {
    detsNms := [];
    var j := 1;
    while j < raw.numClasses
      invariant 1 <= j && (raw.numClasses >= 1 ==> j <= raw.numClasses)
      invariant |detsNms| == j - 1 && (raw.numClasses == 0 ==> j == 1)
      invariant forall k :: 0 <= k < |detsNms| ==> detsNms[k] == ClassDetections(raw, k + 1, classAgnostic, nms)
    {
      var clsDets := ClassRows(raw, j, classAgnostic);
      var keep := nms(clsDets);
      clsDets := KeepRows(clsDets, keep);
      clsDets := AboveThreshold(clsDets);
      detsNms := detsNms + [clsDets];
      j := j + 1;
    }
  }

  /** Class 0 (the background) never matters: two detector outputs that
      differ only in their background scores give the same `dets_nms`. */
  lemma BackgroundIgnored(raw: RawDetections, raw': RawDetections, classAgnostic: bool, nms: Nms)
    requires WellShaped(raw, classAgnostic) && WellShaped(raw', classAgnostic) && NmsInRange(nms)
    requires raw'.numClasses == raw.numClasses && raw'.boxes == raw.boxes
    requires forall i, j :: 0 <= i < |raw.scores| && 1 <= j < raw.numClasses ==> raw'.scores[i][j] == raw.scores[i][j]
    ensures ImageDetections(raw', classAgnostic, nms) == ImageDetections(raw, classAgnostic, nms)
  {
    forall j | 1 <= j < raw.numClasses
      ensures ClassDetections(raw', j, classAgnostic, nms) == ClassDetections(raw, j, classAgnostic, nms)
    {
      assert ClassRows(raw', j, classAgnostic) == ClassRows(raw, j, classAgnostic);
    }
  }

  /** Switching to class-agnostic boxes changes only the box coordinates:
      when the per-class slice of class `j` equals columns 4..7 in every row,
      both modes report the same detections for `j`. */
  lemma AgnosticAgreesWhenSlicesMatch(raw: RawDetections, j: nat, nms: Nms)
    requires WellShaped(raw, true) && WellShaped(raw, false) && 1 <= j < raw.numClasses && NmsInRange(nms)
    requires forall i :: 0 <= i < |raw.boxes| ==> raw.boxes[i][4 * j..4 * j + 4] == raw.boxes[i][4..8]
    ensures ClassDetections(raw, j, true, nms) == ClassDetections(raw, j, false, nms)
  {
    forall i | 0 <= i < |raw.scores|
      ensures RowDetection(raw, i, j, true) == RowDetection(raw, i, j, false)
    {
      var box := raw.boxes[i];
      assert box[4 * j..4 * j + 4][0] == box[4..8][0];
      assert box[4 * j..4 * j + 4][1] == box[4..8][1];
      assert box[4 * j..4 * j + 4][2] == box[4..8][2];
      assert box[4 * j..4 * j + 4][3] == box[4..8][3];
    }
    assert ClassRows(raw, j, true) == ClassRows(raw, j, false);
  }

  /** In class-agnostic mode every foreground class sees the same boxes:
      rows of two classes differ at most in their score. */
  lemma AgnosticSharesBoxes(raw: RawDetections, j: nat, j': nat, i: nat)
    requires WellShaped(raw, true) && 1 <= j < raw.numClasses && 1 <= j' < raw.numClasses && i < |raw.scores|
    ensures var d, d' := ClassRows(raw, j, true)[i], ClassRows(raw, j', true)[i];
      d.x1 == d'.x1 && d.y1 == d'.y1 && d.x2 == d'.x2 && d.y2 == d'.y2
  {
  }
}
