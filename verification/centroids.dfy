/** Centroids of the hand labels 2, 7, 11 and 14 of the body segmentation, and the
    per-index cache that records them the first time an index is loaded. */
module Centroids {
  import opened Wrappers
  import opened Palettes
  import opened LabelMaps
  import opened Numeric

  /** (row, column); (-1, -1) stands for an absent label. */
  type Point = (int, int)

  /** One cache slot: `None` until the index is first loaded. */
  type Entry = Option<seq<Point>>

  /** The cache: `None` when the dataset keeps no centroids at all. */
  type Cache = Option<seq<Entry>>

  /** The body labels whose centroids are recorded, in recording order. */
  const HandLabels: seq<nat> := [2, 7, 11, 14]

  /** Every row of `img` has `Width(img)` pixels. */
  predicate Rectangular(img: Image) {
    HasShape(img, |img|, Width(img))
  }

  function Width(img: Image): nat {
    if |img| == 0 then 0 else |img[0]|
  }

  /** Number of pixels of colour `c` in `row`. */
  function RowCount(row: seq<Rgb>, c: Rgb): nat
    decreases |row|
  {
    if |row| == 0 then 0
    else RowCount(row[..|row| - 1], c) + (if row[|row| - 1] == c then 1 else 0)
  }

  /** Sum of the column indices of the pixels of colour `c` in `row`. */
  function RowColumnSum(row: seq<Rgb>, c: Rgb): nat
    decreases |row|
  {
    if |row| == 0 then 0
    else RowColumnSum(row[..|row| - 1], c) + (if row[|row| - 1] == c then |row| - 1 else 0)
  }

  /** Number of pixels of colour `c` in `img`. */
  function Count(img: Image, c: Rgb): nat
    decreases |img|
  {
    if |img| == 0 then 0
    else Count(img[..|img| - 1], c) + RowCount(img[|img| - 1], c)
  }

  /** Sum of the row indices of the pixels of colour `c` in `img`. */
  function RowIndexSum(img: Image, c: Rgb): nat
    decreases |img|
  {
    if |img| == 0 then 0
    else RowIndexSum(img[..|img| - 1], c) + (|img| - 1) * RowCount(img[|img| - 1], c)
  }

  /** Sum of the column indices of the pixels of colour `c` in `img`. */
  function ColumnSum(img: Image, c: Rgb): nat
    decreases |img|
  {
    if |img| == 0 then 0
    else ColumnSum(img[..|img| - 1], c) + RowColumnSum(img[|img| - 1], c)
  }

  lemma MulMonotone(a: int, b: int, k: nat)
    requires a <= b
    ensures a * k <= b * k
  {
  }

  lemma MulDistributes(a: int, k: int, b: int)
    ensures a * (k + b) == a * k + a * b
  {
  }

  lemma QuotientBelow(a: nat, n: nat, b: int)
    requires n > 0 && a <= b * n
    ensures a / n <= b
  {
  }

  /** Every matching column index is below the row length. */
  lemma {:induction false} RowColumnBound(row: seq<Rgb>, c: Rgb)
    ensures RowColumnSum(row, c) <= (|row| - 1) * RowCount(row, c)
    decreases |row|
  {
    if |row| > 0 {
      var m, pre := |row|, row[..|row| - 1];
      var s0, k0 := RowColumnSum(pre, c), RowCount(pre, c);
      var b := if row[m - 1] == c then 1 else 0;
      RowColumnBound(pre, c);
      assert RowColumnSum(row, c) == s0 + (m - 1) * b;
      assert RowCount(row, c) == k0 + b;
      MulMonotone(m - 2, m - 1, k0);
      MulDistributes(m - 1, k0, b);
    }
  }

  /** Every matching row index is below the number of rows. */
  lemma {:induction false} RowIndexBound(img: Image, c: Rgb)
    ensures RowIndexSum(img, c) <= (|img| - 1) * Count(img, c)
    decreases |img|
  {
    if |img| > 0 {
      var n, pre := |img|, img[..|img| - 1];
      var s0, k0, b := RowIndexSum(pre, c), Count(pre, c), RowCount(img[n - 1], c);
      RowIndexBound(pre, c);
      assert RowIndexSum(img, c) == s0 + (n - 1) * b;
      assert Count(img, c) == k0 + b;
      MulMonotone(n - 2, n - 1, k0);
      MulDistributes(n - 1, k0, b);
    }
  }

  /** In a rectangular image every matching column index is below the width. */
  lemma {:induction false} ColumnBound(img: Image, c: Rgb, w: nat)
    requires forall y :: 0 <= y < |img| ==> |img[y]| == w
    ensures ColumnSum(img, c) <= (w - 1) * Count(img, c)
    decreases |img|
  {
    if |img| > 0 {
      var n, pre := |img|, img[..|img| - 1];
      var s0, k0, b := ColumnSum(pre, c), Count(pre, c), RowCount(img[n - 1], c);
      ColumnBound(pre, c, w);
      RowColumnBound(img[n - 1], c);
      assert ColumnSum(img, c) == s0 + RowColumnSum(img[n - 1], c);
      assert Count(img, c) == k0 + b;
      MulDistributes(w - 1, k0, b);
    }
  }

  /** The centroid of colour `c`: the floor of the mean row and of the mean
      column of its pixels, or (-1, -1) when no pixel has that colour. */
  function Centroid(img: Image, c: Rgb): (p: Point)
    ensures Count(img, c) == 0 ==> p == (-1, -1)
    ensures Count(img, c) > 0 ==>
      var n := Count(img, c);
      0 <= p.0 < |img| && 0 <= p.1 &&
      p.0 * n <= RowIndexSum(img, c) < p.0 * n + n &&
      p.1 * n <= ColumnSum(img, c) < p.1 * n + n
    ensures Count(img, c) > 0 && Rectangular(img) ==> p.1 < Width(img)
  {
    var n := Count(img, c);
    if n == 0 then (-1, -1)
    else
      var sy, sx := RowIndexSum(img, c), ColumnSum(img, c);
      EuclidBounds(sy, n);
      EuclidBounds(sx, n);
      RowIndexBound(img, c);
      QuotientBelow(sy, n, |img| - 1);
      assert Rectangular(img) ==> sx / n < Width(img) by {
        if Rectangular(img) {
          ColumnBound(img, c, Width(img));
          QuotientBelow(sx, n, Width(img) - 1);
        }
      }
      (sy / n, sx / n)
  }

  /** The points an entry holds so far. */
  function Recorded(e: Entry): seq<Point> {
    match e
    case None => []
    case Some(points) => points
  }

  /** The body-palette loop from position `i` on, as it touches one cache
      entry: while `collecting` (phase "train" with the centroid loss on), at
      every hand label it appends that label's centroid unless the entry
      already holds one point per hand label. */
  function EntryScan(e: Entry, img: Image, collecting: bool, i: nat): Entry
    decreases |BodyPalette| - i
  {
    if i >= |BodyPalette| then e
    else if collecting && (e.None? || |e.value| != |HandLabels|) && i in HandLabels then
      EntryScan(Some(Recorded(e) + [Centroid(img, BodyPalette[i])]), img, collecting, i + 1)
    else EntryScan(e, img, collecting, i + 1)
  }

  /** The scan only appends to a slot: a filled slot stays filled, and the
      points already recorded stay in front. */
  lemma {:induction false} ScanAppends(e: Entry, img: Image, collecting: bool, i: nat)
    ensures var r := EntryScan(e, img, collecting, i);
      && (e.Some? ==> r.Some?)
      && |Recorded(e)| <= |Recorded(r)| && Recorded(r)[..|Recorded(e)|] == Recorded(e)
    decreases |BodyPalette| - i
  {
    if i < |BodyPalette| {
      if collecting && (e.None? || |e.value| != |HandLabels|) && i in HandLabels {
        var e' := Some(Recorded(e) + [Centroid(img, BodyPalette[i])]);
        ScanAppends(e', img, collecting, i + 1);
        var r := EntryScan(e', img, collecting, i + 1);
        assert Recorded(r)[..|Recorded(e)|] == Recorded(r)[..|Recorded(e')|][..|Recorded(e)|];
      } else {
        ScanAppends(e, img, collecting, i + 1);
      }
    }
  }

  /** The record a first visit stores: the hand-label centroids in order. */
  function HandCentroids(img: Image): (r: seq<Point>)
    ensures |r| == |HandLabels|
  {
    seq(|HandLabels|, j requires 0 <= j < |HandLabels| => Centroid(img, BodyPalette[HandLabels[j]]))
  }

  /** How many hand labels lie below palette position `i`. */
  ghost function HandsBelow(i: nat): nat {
    if i <= 2 then 0 else if i <= 7 then 1 else if i <= 11 then 2 else if i <= 14 then 3 else 4
  }

  /** Stepping past palette position `i` counts one more hand label exactly
      when `i` is one, and that label is the next in order. */
  lemma HandStep(i: nat)
    requires i < |BodyPalette|
    ensures i in HandLabels ==> HandsBelow(i) < |HandLabels| && HandLabels[HandsBelow(i)] == i
    ensures HandsBelow(i + 1) == HandsBelow(i) + (if i in HandLabels then 1 else 0)
  {
    PaletteShapes();
  }

  /** Scanning from position `i` with the points of the hand labels below `i`
      already recorded ends with all hand-label centroids in order. */
  lemma {:induction false} ScanCollects(e: Entry, img: Image, i: nat)
    requires i <= |BodyPalette|
    requires (e.None? && HandsBelow(i) == 0) || e == Some(HandCentroids(img)[..HandsBelow(i)])
    ensures EntryScan(e, img, true, i) == Some(HandCentroids(img))
    decreases |BodyPalette| - i
  {
    var hc := HandCentroids(img);
    if i == |BodyPalette| {
      PaletteShapes();
      assert HandsBelow(i) == |hc|;
      assert hc[..|hc|] == hc;
    } else {
      var h := HandsBelow(i);
      HandStep(i);
      if i in HandLabels {
        assert Recorded(e) == hc[..h];
        assert e.None? || |e.value| != |HandLabels|;
        assert hc[h] == Centroid(img, BodyPalette[i]);
        assert hc[..h] + [hc[h]] == hc[..h + 1];
        assert EntryScan(e, img, true, i) == EntryScan(Some(hc[..h + 1]), img, true, i + 1);
        ScanCollects(Some(hc[..h + 1]), img, i + 1);
      } else {
        assert EntryScan(e, img, true, i) == EntryScan(e, img, true, i + 1);
        ScanCollects(e, img, i + 1);
      }
    }
  }

  /** An entry holding one point per hand label is never extended. */
  lemma {:induction false} FullEntryStays(e: Entry, img: Image, collecting: bool, i: nat)
    requires e.Some? && |e.value| == |HandLabels|
    ensures EntryScan(e, img, collecting, i) == e
    decreases |BodyPalette| - i
  {
    if i < |BodyPalette| {
      FullEntryStays(e, img, collecting, i + 1);
    }
  }

  /** Without collecting, the scan leaves the entry alone. */
  lemma {:induction false} IdleScan(e: Entry, img: Image, i: nat)
    ensures EntryScan(e, img, false, i) == e
    decreases |BodyPalette| - i
  {
    if i < |BodyPalette| {
      IdleScan(e, img, i + 1);
    }
  }

  /** The cache created with the dataset: one empty slot per row when the
      phase is "train" or "train_whole" and the centroid loss is on, and no
      cache otherwise. */
  function Allocate(phase: string, addPdLoss: bool, rows: nat): (cache: Cache)
    ensures cache.Some? <==> (phase == "train" || phase == "train_whole") && addPdLoss
    ensures cache.Some? ==> |cache.value| == rows && forall k :: 0 <= k < rows ==> cache.value[k].None?
  {
    if phase in {"train", "train_whole"} && addPdLoss then Some(seq(rows, k => None)) else None
  }

  /** Every slot is empty or holds one point per hand label. */
  ghost predicate Settled(cache: Cache) {
    cache.Some? ==> forall k :: 0 <= k < |cache.value| ==>
      cache.value[k].None? || |cache.value[k].value| == |HandLabels|
  }

  /** Loading the body labels of row `k`: the slot of `k` goes through the
      palette scan. A first visit while collecting stores the hand-label
      centroids; a slot already holding them, and every other slot, is left
      unchanged; without collecting nothing changes. */
  function Visit(cache: Cache, k: nat, img: Image, collecting: bool): (after: Cache)
    requires cache.Some? ==> k < |cache.value|
    ensures after.Some? <==> cache.Some?
    ensures after.Some? ==> |after.value| == |cache.value|
    ensures after.Some? ==> forall j :: 0 <= j < |cache.value| && j != k ==> after.value[j] == cache.value[j]
    ensures after.Some? && collecting && cache.value[k].None? ==> after.value[k] == Some(HandCentroids(img))
    ensures after.Some? && cache.value[k].Some? && |cache.value[k].value| == |HandLabels| ==>
      after.value[k] == cache.value[k]
    ensures !collecting ==> after == cache
    ensures Settled(cache) ==> Settled(after)
  {
    match cache
    case None => None
    case Some(slots) =>
      var e := slots[k];
      var e' := EntryScan(e, img, collecting, 0);
      assert e.None? && collecting ==> e' == Some(HandCentroids(img)) by {
        if e.None? && collecting { ScanCollects(e, img, 0); }
      }
      assert e.Some? && |e.value| == |HandLabels| ==> e' == e by {
        if e.Some? && |e.value| == |HandLabels| { FullEntryStays(e, img, collecting, 0); }
      }
      assert !collecting ==> slots[k := e'] == slots by {
        if !collecting { IdleScan(e, img, 0); }
      }
      Some(slots[k := e'])
  }

  /** A second visit of the same row, whatever image it sees, changes
      nothing: each slot is written at most once. */
  lemma VisitOnce(cache: Cache, k: nat, img: Image, img': Image, collecting: bool)
    requires Settled(cache)
    requires cache.Some? ==> k < |cache.value|
    ensures Visit(Visit(cache, k, img, collecting), k, img', collecting) == Visit(cache, k, img, collecting)
  {
    var once := Visit(cache, k, img, collecting);
    var twice := Visit(once, k, img', collecting);
    if once.Some? {
      if once.value[k].Some? {
        FullEntryStays(once.value[k], img', collecting, 0);
      } else {
        assert !collecting;
      }
      assert twice.value == once.value;
    }
  }
}
