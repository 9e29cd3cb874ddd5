/** Decoding the detector's output tensor. */
module Decoding {
  import opened Drawing

  /** One candidate: centre-form box, objectness, a score per class. */
  datatype Row = Row(cx: real, cy: real, bw: real, bh: real, objectness: real, scores: seq<real>)

  datatype Found = Found(id: nat, confidence: real, box: Box)

  /** The index of the greatest score, the first one if several are greatest. */
  function BestIndex(scores: seq<real>): (k: nat)
    requires scores != []
    ensures k < |scores|
    ensures forall j :: 0 <= j < |scores| ==> scores[j] <= scores[k]
    ensures forall j :: 0 <= j < k ==> scores[j] < scores[k]
  {
    var n := |scores| - 1;
    if n == 0 then 0
    else
      var k := BestIndex(scores[..n]);
      if scores[n] > scores[k] then n else k
  }

  function Confidence(r: Row): real
    requires r.scores != []
  {
    r.scores[BestIndex(r.scores)] * r.objectness
  }

  /** A cast to integer drops the fraction towards zero. */
  function Truncated(x: real): (n: int)
    ensures if x >= 0.0 then 0.0 <= x - n as real < 1.0 && n >= 0 else -1.0 < x - n as real <= 0.0 && n <= 0
  {
    if x >= 0.0 then x.Floor else -((-x).Floor)
  }

  /** The row's box in image pixels. */
  function BoxOf(r: Row, sx: real, sy: real): Box {
    var cx, cy, bw, bh := r.cx * sx, r.cy * sy, r.bw * sx, r.bh * sy;
    Box(Truncated(cx - bw / 2.0), Truncated(cy - bh / 2.0), Truncated(bw), Truncated(bh))
  }

  /** What the loop looks at before it spends time on the class scores. */
  predicate Skipped(r: Row, threshold: real) {
    r.objectness < threshold
  }

  predicate Confident(r: Row, threshold: real)
    requires r.scores != []
  {
    Confidence(r) >= threshold
  }

  ghost predicate WellFormed(rows: seq<Row>) {
    forall i :: 0 <= i < |rows| ==> rows[i].scores != []
  }

  function FoundAt(r: Row, sx: real, sy: real): Found
    requires r.scores != []
  {
    Found(BestIndex(r.scores), Confidence(r), BoxOf(r, sx, sy))
  }

  /** Every confident row, in row order, with no early skip. */
  ghost function AllConfident(rows: seq<Row>, sx: real, sy: real, threshold: real): (found: seq<Found>)
    requires WellFormed(rows)
  {
    if rows == [] then []
    else
      var n := |rows| - 1;
      var before := AllConfident(rows[..n], sx, sy, threshold);
      if Confident(rows[n], threshold) then before + [FoundAt(rows[n], sx, sy)]
      else before
  }

  /** No row is skipped early that the full test would keep. */
  ghost predicate SkipLosesNothing(rows: seq<Row>, threshold: real)
    requires WellFormed(rows)
  {
    forall i :: 0 <= i < |rows| ==> !(Skipped(rows[i], threshold) && Confident(rows[i], threshold))
  }

  /** The indices of the rows that are neither skipped nor short of the threshold. */
  ghost function KeptRows(rows: seq<Row>, threshold: real): (from: seq<nat>)
    requires WellFormed(rows)
    ensures forall i :: 0 <= i < |from| ==> from[i] < |rows|
    ensures forall i, j :: 0 <= i < j < |from| ==> from[i] < from[j]
    ensures forall k :: 0 <= k < |rows| ==>
              (k in from <==> rows[k].objectness >= threshold && Confidence(rows[k]) >= threshold)
  {
    if rows == [] then []
    else
      var n := |rows| - 1;
      var before := KeptRows(rows[..n], threshold);
      if rows[n].objectness >= threshold && Confidence(rows[n]) >= threshold then before + [n] else before
  }

  /** What is left when rows are also skipped early. */
  ghost function Kept(rows: seq<Row>, sx: real, sy: real, threshold: real): (found: seq<Found>)
    requires WellFormed(rows)
  {
    if rows == [] then []
    else
      var n := |rows| - 1;
      var before := Kept(rows[..n], sx, sy, threshold);
      if !Skipped(rows[n], threshold) && Confident(rows[n], threshold) then before + [FoundAt(rows[n], sx, sy)]
      else before
  }

  /** The early skip gives the full list exactly when it loses no row. */
  lemma {:induction false} KeptIsAllIff(rows: seq<Row>, sx: real, sy: real, threshold: real)
    requires WellFormed(rows)
    ensures |Kept(rows, sx, sy, threshold)| <= |AllConfident(rows, sx, sy, threshold)|
    ensures SkipLosesNothing(rows, threshold) ==> Kept(rows, sx, sy, threshold) == AllConfident(rows, sx, sy, threshold)
    ensures !SkipLosesNothing(rows, threshold)
        ==> |Kept(rows, sx, sy, threshold)| < |AllConfident(rows, sx, sy, threshold)|
  {
    hide FoundAt; hide Confident; hide Skipped;
    if rows == [] {
    } else {
      var n := |rows| - 1;
      KeptIsAllIff(rows[..n], sx, sy, threshold);
      assert SkipLosesNothing(rows, threshold) <==>
             SkipLosesNothing(rows[..n], threshold) && !(Skipped(rows[n], threshold) && Confident(rows[n], threshold));
    }
  }

  /** The kept rows, one by one. */
  lemma {:induction false} KeptIsFoundAt(rows: seq<Row>, sx: real, sy: real, threshold: real)
    requires WellFormed(rows)
    ensures var from, kept := KeptRows(rows, threshold), Kept(rows, sx, sy, threshold);
            |kept| == |from| && forall i :: 0 <= i < |from| ==> kept[i] == FoundAt(rows[from[i]], sx, sy)
  {
    hide FoundAt; hide Confidence;
    if rows == [] {
    } else {
      KeptIsFoundAt(rows[..|rows| - 1], sx, sy, threshold);
    }
  }

  /** `x` in pixels of an image of `n` where the network saw `d`. */
  function Scaled(x: real, n: int, d: int): real
    requires d != 0
  {
    x * n as real / d as real
  }

  lemma ScaledExactly(x: real, n: int, d: int)
    requires d != 0
    ensures Scaled(x, n, d) * d as real == x * n as real
  {
  }

  lemma ScaledIsTimes(x: real, n: int, d: int)
    requires d != 0
    ensures x * (n as real / d as real) == Scaled(x, n, d)
  {
  }

  lemma TimesHalf(c: real, b: real, s: real)
    ensures c * s - b * s / 2.0 == (c - b / 2.0) * s
  {
  }

  /** Scaling the corner is scaling centre and half size. */
  lemma ScaledCorner(c: real, b: real, n: int, d: int)
    requires d != 0
    ensures Scaled(c - b / 2.0, n, d) == Scaled(c, n, d) - Scaled(b, n, d) / 2.0
  {
    hide Scaled;
    var s := n as real / d as real;
    TimesHalf(c, b, s);
    ScaledIsTimes(c, n, d);
    ScaledIsTimes(b, n, d);
    ScaledIsTimes(c - b / 2.0, n, d);
  }

  /** Where a row's box lies: each number is the exact one without its fraction. */
  lemma BoxIs(r: Row, imgW: int, imgH: int, inputSize: int)
    requires inputSize != 0
    ensures var box := BoxOf(r, imgW as real / inputSize as real, imgH as real / inputSize as real);
            && box.x == Truncated(Scaled(r.cx - r.bw / 2.0, imgW, inputSize))
            && box.y == Truncated(Scaled(r.cy - r.bh / 2.0, imgH, inputSize))
            && box.w == Truncated(Scaled(r.bw, imgW, inputSize))
            && box.h == Truncated(Scaled(r.bh, imgH, inputSize))
  {
    hide Truncated; hide Scaled;
    ScaledCorner(r.cx, r.bw, imgW, inputSize);
    ScaledCorner(r.cy, r.bh, imgH, inputSize);
    ScaledIsTimes(r.cx, imgW, inputSize);
    ScaledIsTimes(r.cy, imgH, inputSize);
    ScaledIsTimes(r.bw, imgW, inputSize);
    ScaledIsTimes(r.bh, imgH, inputSize);
  }

  /** Hence the box is centred on the scaled centre, give or take the rounding. */
  lemma BoxIsCentred(r: Row, imgW: int, imgH: int, inputSize: int)
    requires inputSize != 0
    ensures var box := BoxOf(r, imgW as real / inputSize as real, imgH as real / inputSize as real);
            && -1.5 < box.x as real + box.w as real / 2.0 - Scaled(r.cx, imgW, inputSize) < 1.5
            && -1.5 < box.y as real + box.h as real / 2.0 - Scaled(r.cy, imgH, inputSize) < 1.5
  {
    hide BoxOf; hide Truncated; hide Scaled;
    BoxIs(r, imgW, imgH, inputSize);
    ScaledCorner(r.cx, r.bw, imgW, inputSize);
    ScaledCorner(r.cy, r.bh, imgH, inputSize);
  }

  lemma ConfidenceIs(r: Row)
    requires r.scores != []
    ensures Confidence(r) == r.scores[BestIndex(r.scores)] * r.objectness
  {
  }

  /** The three lists the decode loop fills, read together. */
  ghost predicate Lists(ids: seq<nat>, scores: seq<real>, boxes: seq<Box>, found: seq<Found>) {
    && |ids| == |scores| == |boxes| == |found|
    && forall i :: 0 <= i < |found| ==> Found(ids[i], scores[i], boxes[i]) == found[i]
  }

  /** One more entry in each of the three lists. */
  lemma ListsGrow(ids: seq<nat>, scores: seq<real>, boxes: seq<Box>, found: seq<Found>, f: Found)
    requires Lists(ids, scores, boxes, found)
    ensures Lists(ids + [f.id], scores + [f.confidence], boxes + [f.box], found + [f])
  {
  }

  /** Before the first row there is nothing. */
  lemma NothingKept(rows: seq<Row>, sx: real, sy: real, threshold: real)
    ensures Lists([], [], [], Kept(rows[..0], sx, sy, threshold))
  {
  }

  /** The rows kept, one row further. */
  lemma KeptGrows(rows: seq<Row>, i: nat, sx: real, sy: real, threshold: real)
    requires WellFormed(rows) && i < |rows|
    ensures Kept(rows[..i + 1], sx, sy, threshold) ==
            if !Skipped(rows[i], threshold) && Confident(rows[i], threshold)
            then Kept(rows[..i], sx, sy, threshold) + [FoundAt(rows[i], sx, sy)]
            else Kept(rows[..i], sx, sy, threshold)
  {
    hide Skipped; hide Confident; hide FoundAt;
    assert rows[..i + 1][..i] == rows[..i];
  }

  /** The lists are those of every confident row exactly when no row is lost. */
  lemma ListsAreAllIff(rows: seq<Row>, sx: real, sy: real, threshold: real,
      ids: seq<nat>, scores: seq<real>, boxes: seq<Box>)
    requires WellFormed(rows)
    requires Lists(ids, scores, boxes, Kept(rows, sx, sy, threshold))
    ensures Lists(ids, scores, boxes, AllConfident(rows, sx, sy, threshold)) <==> SkipLosesNothing(rows, threshold)
  {
    hide Kept; hide AllConfident; hide SkipLosesNothing;
    KeptIsAllIff(rows, sx, sy, threshold);
  }

  /** What one entry of the three lists says of the row it came from. */
  lemma EntryDescribes(r: Row, imgW: int, imgH: int, inputSize: int, id: nat, score: real, box: Box)
    requires r.scores != [] && inputSize != 0
    requires Found(id, score, box) == FoundAt(r, imgW as real / inputSize as real, imgH as real / inputSize as real)
    ensures && id < |r.scores|
            && (forall j :: 0 <= j < |r.scores| ==> r.scores[j] <= r.scores[id])
            && (forall j :: 0 <= j < id ==> r.scores[j] < r.scores[id])
            && score == r.scores[id] * r.objectness
            && box.x == Truncated(Scaled(r.cx - r.bw / 2.0, imgW, inputSize))
            && box.y == Truncated(Scaled(r.cy - r.bh / 2.0, imgH, inputSize))
            && box.w == Truncated(Scaled(r.bw, imgW, inputSize))
            && box.h == Truncated(Scaled(r.bh, imgH, inputSize))
  {
    hide BoxOf; hide Confidence; hide Truncated; hide Scaled;
    ConfidenceIs(r);
    BoxIs(r, imgW, imgH, inputSize);
  }

  /** What the three lists say of the rows they came from. */
  lemma ListsDescribe(rows: seq<Row>, imgW: int, imgH: int, inputSize: int, threshold: real,
      ids: seq<nat>, scores: seq<real>, boxes: seq<Box>)
    requires WellFormed(rows) && inputSize != 0
    requires Lists(ids, scores, boxes,
        Kept(rows, imgW as real / inputSize as real, imgH as real / inputSize as real, threshold))
    ensures |ids| == |scores| == |boxes| == |KeptRows(rows, threshold)|
    ensures forall i :: 0 <= i < |ids| ==>
              var r := rows[KeptRows(rows, threshold)[i]];
              && ids[i] < |r.scores|
              && (forall j :: 0 <= j < |r.scores| ==> r.scores[j] <= r.scores[ids[i]])
              && (forall j :: 0 <= j < ids[i] ==> r.scores[j] < r.scores[ids[i]])
              && scores[i] == r.scores[ids[i]] * r.objectness
              && boxes[i].x == Truncated(Scaled(r.cx - r.bw / 2.0, imgW, inputSize))
              && boxes[i].y == Truncated(Scaled(r.cy - r.bh / 2.0, imgH, inputSize))
              && boxes[i].w == Truncated(Scaled(r.bw, imgW, inputSize))
              && boxes[i].h == Truncated(Scaled(r.bh, imgH, inputSize))
  {
    hide BoxOf; hide Confidence; hide KeptRows; hide Truncated; hide Scaled; hide Kept; hide FoundAt; hide BestIndex;
    var sx, sy := imgW as real / inputSize as real, imgH as real / inputSize as real;
    KeptIsFoundAt(rows, sx, sy, threshold);
    forall i | 0 <= i < |ids|
      ensures var r := rows[KeptRows(rows, threshold)[i]];
              && ids[i] < |r.scores|
              && (forall j :: 0 <= j < |r.scores| ==> r.scores[j] <= r.scores[ids[i]])
              && (forall j :: 0 <= j < ids[i] ==> r.scores[j] < r.scores[ids[i]])
              && scores[i] == r.scores[ids[i]] * r.objectness
              && boxes[i].x == Truncated(Scaled(r.cx - r.bw / 2.0, imgW, inputSize))
              && boxes[i].y == Truncated(Scaled(r.cy - r.bh / 2.0, imgH, inputSize))
              && boxes[i].w == Truncated(Scaled(r.bw, imgW, inputSize))
              && boxes[i].h == Truncated(Scaled(r.bh, imgH, inputSize))
    {
      var r := rows[KeptRows(rows, threshold)[i]];
      assert Found(ids[i], scores[i], boxes[i]) == Kept(rows, sx, sy, threshold)[i] == FoundAt(r, sx, sy);
      EntryDescribes(r, imgW, imgH, inputSize, ids[i], scores[i], boxes[i]);
    }
  }

  /** The decode loop; its lists are the confident rows in order, unless the early skip loses one. */
  method DecodeV5(rows: seq<Row>, imgW: int, imgH: int, inputSize: int, threshold: real)
    returns (ids: seq<nat>, scores: seq<real>, boxes: seq<Box>)
    requires WellFormed(rows) && inputSize != 0
    ensures |ids| == |scores| == |boxes|
    ensures Lists(ids, scores, boxes,
        AllConfident(rows, imgW as real / inputSize as real, imgH as real / inputSize as real, threshold))
            <==> SkipLosesNothing(rows, threshold)
    ensures Lists(ids, scores, boxes,
        Kept(rows, imgW as real / inputSize as real, imgH as real / inputSize as real, threshold))
    ensures |ids| == |KeptRows(rows, threshold)|
    ensures forall i :: 0 <= i < |ids| ==>
              var r := rows[KeptRows(rows, threshold)[i]];
              && ids[i] < |r.scores|
              && (forall j :: 0 <= j < |r.scores| ==> r.scores[j] <= r.scores[ids[i]])
              && (forall j :: 0 <= j < ids[i] ==> r.scores[j] < r.scores[ids[i]])
              && scores[i] == r.scores[ids[i]] * r.objectness
              && boxes[i].x == Truncated(Scaled(r.cx - r.bw / 2.0, imgW, inputSize))
              && boxes[i].y == Truncated(Scaled(r.cy - r.bh / 2.0, imgH, inputSize))
              && boxes[i].w == Truncated(Scaled(r.bw, imgW, inputSize))
              && boxes[i].h == Truncated(Scaled(r.bh, imgH, inputSize))
  {
    hide BoxOf; hide KeptRows; hide Truncated; hide Scaled; hide BestIndex; hide AllConfident; hide SkipLosesNothing;
    hide Confidence; hide Kept; hide Lists;
    var sx := imgW as real / inputSize as real;
    var sy := imgH as real / inputSize as real;
    ids, scores, boxes := [], [], [];
    assert Lists(ids, scores, boxes, Kept(rows[..0], sx, sy, threshold)) by { NothingKept(rows, sx, sy, threshold); }
    var i := 0;
    while i < |rows|
      invariant 0 <= i <= |rows|
      invariant Lists(ids, scores, boxes, Kept(rows[..i], sx, sy, threshold))
    {
      var r := rows[i];
      KeptGrows(rows, i, sx, sy, threshold);
      ghost var before := Kept(rows[..i], sx, sy, threshold);
      i := i + 1;
      if Skipped(r, threshold) {
        continue;
      }
      var best := BestIndex(r.scores);
      var confidence := Confidence(r);
      if confidence < threshold {
        continue;
      }
      ListsGrow(ids, scores, boxes, before, FoundAt(r, sx, sy));
      ids := ids + [best];
      scores := scores + [confidence];
      boxes := boxes + [BoxOf(r, sx, sy)];
    }
    assert rows[..|rows|] == rows;
    ListsAreAllIff(rows, sx, sy, threshold, ids, scores, boxes);
    ListsDescribe(rows, imgW, imgH, inputSize, threshold, ids, scores, boxes);
  }

  ghost predicate ScoresInUnit(r: Row) {
    forall j :: 0 <= j < |r.scores| ==> 0.0 <= r.scores[j] <= 1.0
  }

  lemma NonNegativeProduct(a: real, b: real)
    requires a >= 0.0 && b >= 0.0
    ensures a * b >= 0.0
  {
  }

  lemma PositiveProduct(a: real, b: real)
    requires a > 0.0 && b > 0.0
    ensures a * b > 0.0
  {
  }

  lemma SkipArithmetic(best: real, o: real, t: real)
    requires 0.0 <= best <= 1.0 && t >= 0.0
    ensures o < t && best * o >= t <==> t == 0.0 && o < 0.0 && best == 0.0
  {
    if o >= 0.0 {
      assert best * o + (1.0 - best) * o == o;
      NonNegativeProduct(1.0 - best, o);
    } else if best > 0.0 {
      PositiveProduct(best, -o);
      assert best * o == -(best * (-o));
    } else {
      assert best * o == 0.0;
    }
  }

  /**
   For class scores in 0..1 and a threshold that is not negative, the early skip
   drops a confident row exactly when the threshold is zero, the objectness is
   negative and every class score is zero.
   */
  lemma SkipLosesRowIff(r: Row, threshold: real)
    requires r.scores != [] && ScoresInUnit(r) && threshold >= 0.0
    ensures Skipped(r, threshold) && Confident(r, threshold) <==>
            threshold == 0.0 && r.objectness < 0.0 && forall j :: 0 <= j < |r.scores| ==> r.scores[j] == 0.0
  {
    var best := r.scores[BestIndex(r.scores)];
    assert best == 0.0 <==> forall j :: 0 <= j < |r.scores| ==> r.scores[j] == 0.0;
    SkipArithmetic(best, r.objectness, threshold);
  }

  /** A row with negative objectness and no class scored above zero. */
  ghost predicate Hopeless(r: Row) {
    r.objectness < 0.0 && forall j :: 0 <= j < |r.scores| ==> r.scores[j] == 0.0
  }

  /**
   For class scores in 0..1 and a threshold that is not negative the early skip
   is lossless exactly when the threshold is positive or no row is hopeless.
   */
  lemma SkipIsLosslessIff(rows: seq<Row>, threshold: real)
    requires WellFormed(rows) && threshold >= 0.0
    requires forall i :: 0 <= i < |rows| ==> ScoresInUnit(rows[i])
    ensures SkipLosesNothing(rows, threshold) <==>
            threshold > 0.0 || forall i :: 0 <= i < |rows| ==> !Hopeless(rows[i])
  {
    hide Skipped; hide Confident;
    forall i | 0 <= i < |rows|
      ensures Skipped(rows[i], threshold) && Confident(rows[i], threshold) <==> threshold == 0.0 && Hopeless(rows[i])
    {
      SkipLosesRowIff(rows[i], threshold);
    }
  }

  /** With a positive threshold the early skip is always lossless. */
  lemma PositiveThresholdSkipsSafely(rows: seq<Row>, threshold: real)
    requires WellFormed(rows) && threshold > 0.0
    requires forall i :: 0 <= i < |rows| ==> ScoresInUnit(rows[i])
    ensures SkipLosesNothing(rows, threshold)
  {
    hide SkipLosesNothing;
    SkipIsLosslessIff(rows, threshold);
  }

  /** With threshold zero it is not: one row of negative objectness and zero scores is enough. */
  lemma ZeroThresholdLosesRow(sx: real, sy: real)
    ensures var rows := [Row(0.0, 0.0, 0.0, 0.0, -1.0, [0.0])];
            |AllConfident(rows, sx, sy, 0.0)| == 1 && Kept(rows, sx, sy, 0.0) == []
  {
    var row := Row(0.0, 0.0, 0.0, 0.0, -1.0, [0.0]);
    assert [row][..0] == [];
    SkipLosesRowIff(row, 0.0);
  }
}
