/** Buoyancy-frequency post-processing from `bv_frequencies.py`: the inf→NaN mask
    of `compute_bv_freq`, the depth binning of `bv_freq_avg_every_k_meters` with its
    -999 sentinel, and the NaN-sum of `bv_sum_top_k_meters`.

    A matrix is a sequence of rows. The frequency matrix `n` has one row per CTD
    cast (time) and one column per depth level. */
module Stratification {
  import opened Wrappers
  import opened NanStats
  import PySeq

  type Row = seq<Option<real>>

  /** An IEEE value as `gsw.Nsquared` may produce it. */
  datatype Float = Num(x: real) | PosInf | NegInf | NaN

  function Abs(x: real): real {
    if x < 0.0 then -x else x
  }

  /** `np.sqrt(np.abs(v))` followed by `n[np.isinf(n)] = np.nan`: only finite
      values survive. */
  function BvEntry(v: Float, sqrt: real -> real): (r: Option<real>)
    ensures r.Some? <==> v.Num?
  {
    match v
    case Num(x) => Some(sqrt(Abs(x)))
    case _ => None
  }

  /** `compute_bv_freq`: `n2` comes back from `gsw.Nsquared` as depth × time and is
      transposed to time × depth before the square root and the mask. */
  function ComputeBvFreq(n2: seq<seq<Float>>, times: nat, sqrt: real -> real): (n: seq<Row>)
    requires forall d :: 0 <= d < |n2| ==> |n2[d]| == times
    ensures |n| == times
    ensures forall t :: 0 <= t < times ==> |n[t]| == |n2|
    ensures forall t, d :: 0 <= t < times && 0 <= d < |n2| ==> (n[t][d].None? <==> !n2[d][t].Num?)
  {
    seq(times, t requires 0 <= t < times => seq(|n2|, d requires 0 <= d < |n2| => BvEntry(n2[d][t], sqrt)))
  }

  ghost predicate NonNegative(n: seq<Row>) {
    forall t, d :: 0 <= t < |n| && 0 <= d < |n[t]| && n[t][d].Some? ==> 0.0 <= n[t][d].value
  }

  /** With a square root that returns non-negative values, every frequency kept by
      the mask is non-negative. */
  lemma ComputeBvFreqNonNegative(n2: seq<seq<Float>>, times: nat, sqrt: real -> real)
    requires forall d :: 0 <= d < |n2| ==> |n2[d]| == times
    requires forall y :: 0.0 <= sqrt(y)
    ensures NonNegative(ComputeBvFreq(n2, times, sqrt))
  {
  }

  // ---------------------------------------------------------------------------
  // The -999 sentinel of `bv_freq_avg_every_k_meters`.

  const Sentinel: real := -999.0

  predicate AllNaN(row: Row) {
    forall i :: 0 <= i < |row| ==> row[i].None?
  }

  /** Line 69: a row of the slice that is NaN throughout is overwritten with -999. */
  function Mark(row: Row): (r: Row)
    ensures |r| == |row|
    ensures AllNaN(row) ==> forall i :: 0 <= i < |r| ==> r[i] == Some(Sentinel)
    ensures !AllNaN(row) ==> r == row
  {
    if AllNaN(row) then seq(|row|, _ => Some(Sentinel)) else row
  }

  /** Line 71: every -999 in the slice is turned back into NaN. */
  function Restore(row: Row): (r: Row)
    ensures |r| == |row|
    ensures forall i :: 0 <= i < |r| ==> r[i] == (if row[i] == Some(Sentinel) then None else row[i])
  {
    seq(|row|, i requires 0 <= i < |row| => if row[i] == Some(Sentinel) then None else row[i])
  }

  /** The slice is written through a view of `n`, so `n` itself is modified and then
      repaired: the repair is exact for a row holding no genuine -999. */
  lemma MarkRestoreRoundTrip(row: Row)
    requires forall i :: 0 <= i < |row| ==> row[i] != Some(Sentinel)
    ensures Restore(Mark(row)) == row
  {
  }

  /** Lines 69-70 and 75: the row mean of the marked slice, with a mean of exactly
      -999 turned into NaN afterwards. */
  function BinCell(row: Row): (r: Option<real>)
    ensures r != Some(Sentinel)
  {
    var m := NanMean(Mark(row));
    if m == Some(Sentinel) then None else m
  }

  /** For non-negative frequencies the sentinel detour is invisible: a bin cell is
      NaN exactly when all its entries are NaN, and otherwise it is the mean of the
      non-NaN entries. */
  lemma BinCellIsNanMean(row: Row)
    requires forall i :: 0 <= i < |row| && row[i].Some? ==> 0.0 <= row[i].value
    ensures BinCell(row) == NanMean(row)
    ensures BinCell(row).None? <==> AllNaN(row)
  {
    var marked := Mark(row);
    if AllNaN(row) {
      NoneOnlyNoPresent(row);
      if |row| > 0 {
        NanMeanBounds(marked, Sentinel, Sentinel);
      }
    } else {
      var i :| 0 <= i < |row| && row[i].Some?;
      var x := row[i].value;
      assert Some(x) in row;
      PresentMembers(row);
      assert x in Present(row);
      NanMeanAtLeast(row, 0.0);
    }
  }

  // ---------------------------------------------------------------------------
  // Depth binning.

  /** `depth_avg` starts as a list of empty lists; a slot the loop reaches holds a
      mean depth. */
  datatype DepthSlot = EmptyList | MeanDepth(value: Option<real>)

  /** One iteration's row of `bv_mean`: for every cast, the bin cell over the depth
      columns `[i, i + k)` (clamped to the matrix). */
  function BinRow(n: seq<Row>, i: int, k: int): (r: Row)
    ensures |r| == |n|
    ensures forall t :: 0 <= t < |n| ==> r[t] == BinCell(PySeq.Slice(n[t], i, i + k))
  {
    seq(|n|, t requires 0 <= t < |n| => BinCell(PySeq.Slice(n[t], i, i + k)))
  }

  /** `m * k`, written as repeated addition so that the loop's bookkeeping stays
      linear; `OffsetIsProduct` connects the two. */
  function Offset(m: nat, k: int): (r: int)
    ensures 0 <= k ==> 0 <= r
  {
    if m == 0 then 0 else Offset(m - 1, k) + k
  }

  lemma {:induction false} OffsetIsProduct(m: nat, k: int)
    ensures Offset(m, k) == m * k
  {
    if m > 0 {
      OffsetIsProduct(m - 1, k);
    }
  }

  /** The values `range(i, 210, k)` takes: the m-th is `i + m * k`, and the first
      such value not below 210 ends the range. */
  function Iterations(k: int, i: int): (r: seq<int>)
    requires k > 0
    ensures forall m :: 0 <= m < |r| ==> r[m] == i + Offset(m, k) && r[m] < 210
    ensures 210 <= i + Offset(|r|, k)
    decreases 210 - i
  {
    if i >= 210 then []
    else
      var rest := Iterations(k, i + k);
      var r := [i] + rest;
      assert forall m :: 0 <= m < |r| ==> r[m] == i + Offset(m, k) && r[m] < 210 by {
        forall m | 1 <= m < |r|
          ensures r[m] == i + Offset(m, k) && r[m] < 210
        {
          assert r[m] == rest[m - 1];
        }
      }
      r
  }

  /** Line 72: the NaN-mean of the depths `depth[i:i + k]`. */
  function DepthBin(depth: Row, i: int, k: int): DepthSlot {
    MeanDepth(NanMean(PySeq.Slice(depth, i, i + k)))
  }

  lemma DivNonNeg(a: int, k: int)
    requires a >= 0 && k > 0
    ensures 0 <= a / k
  {
  }

  /** Python's `i // k` for a non-negative `i`. */
  function SlotOf(i: int, k: int): (q: nat)
    requires i >= 0 && k > 0
    ensures q == i / k
  {
    DivNonNeg(i, k);
    i / k
  }

  /** The successive writes `depth_avg[i // k] = ...`, in loop order: a slot no
      iteration maps to keeps its initial value, and every slot some iteration maps to
      ends up holding a mean. */
  function WriteSlots(slots: seq<DepthSlot>, iters: seq<int>, depth: Row, k: int): (r: seq<DepthSlot>)
    requires k > 0
    requires forall m :: 0 <= m < |iters| ==> 1 <= iters[m] && SlotOf(iters[m], k) < |slots|
    ensures |r| == |slots|
    ensures forall s :: 0 <= s < |slots| && (forall m :: 0 <= m < |iters| ==> SlotOf(iters[m], k) != s) ==> r[s] == slots[s]
    ensures forall m :: 0 <= m < |iters| ==> r[SlotOf(iters[m], k)].MeanDepth?
    decreases |iters|
  {
    if |iters| == 0 then slots
    else
      var q := SlotOf(iters[0], k);
      var slots' := slots[q := DepthBin(depth, iters[0], k)];
      var r := WriteSlots(slots', iters[1..], depth, k);
      assert forall m :: 0 <= m < |iters| ==> r[SlotOf(iters[m], k)].MeanDepth? by {
        forall m | 1 <= m < |iters|
          ensures r[SlotOf(iters[m], k)].MeanDepth?
        {
          assert iters[m] == iters[1..][m - 1];
        }
      }
      r
  }

  /** `bv_freq_avg_every_k_meters(n, depth, date, k)`, returning `bv_mean` (bins ×
      casts) and `depth_avg`. The iterations are independent of each other, so the
      loop raises IndexError exactly when some iteration's slot `i // k` is past the
      end of `depth_avg`; the rows appended before that are lost with the exception.
      After the loop, `np.meshgrid(date, depth_avg)` turns `depth_avg` into an array:
      a slot the loop never wrote is still an empty list among numbers, a ragged
      list, and numpy (1.24 and later) raises ValueError on it. */
  function BvFreqAvg(n: seq<Row>, depth: Row, k: int): (r: Result<(seq<Row>, seq<DepthSlot>), ExcClass>)
    ensures k == 0 ==> r == Err(ZeroDivisionError)
    ensures k < 0 ==> r == Ok(([], []))
    ensures r.Err? ==> r.error == ZeroDivisionError || r.error == IndexError || r.error == ValueError
    ensures k > 0 && r.Ok? ==> |r.value.1| == 210 / k && |r.value.0| == |Iterations(k, 1)|
    ensures r.Ok? ==> AllWritten(r.value.1)
  {
    if k == 0 then Err(ZeroDivisionError)
    else if k < 0 then Ok(([], []))
    else
      var iters, cap := Iterations(k, 1), 210 / k;
      if !SlotsFit(iters, k, cap) then Err(IndexError)
      else
        Meshgrid(MeanRows(n, iters, k), WriteSlots(EmptySlots(cap), iters, depth, k))
  }

  /** `[[] for _ in range(cap)]`. */
  function EmptySlots(cap: nat): (r: seq<DepthSlot>)
    ensures |r| == cap && forall s :: 0 <= s < cap ==> r[s] == EmptyList
  {
    seq(cap, _ => EmptyList)
  }

  /** `np.meshgrid(date, depth_avg)`: it raises ValueError on a ragged `depth_avg`,
      and the results are returned otherwise. */
  function Meshgrid(rows: seq<Row>, slots: seq<DepthSlot>): (r: Result<(seq<Row>, seq<DepthSlot>), ExcClass>)
    ensures r.Ok? <==> AllWritten(slots)
    ensures r.Ok? ==> r.value == (rows, slots)
    ensures r.Err? ==> r.error == ValueError
  {
    if AllWritten(slots) then Ok((rows, slots)) else Err(ValueError)
  }

  /** Every slot of `depth_avg` holds a mean depth, so it forms a flat array. */
  predicate AllWritten(slots: seq<DepthSlot>) {
    forall s :: 0 <= s < |slots| ==> slots[s].MeanDepth?
  }

  /** Every iteration's slot `i // k` exists in a list of `cap` slots. */
  predicate SlotsFit(iters: seq<int>, k: int, cap: int)
    requires k > 0
    requires forall m :: 0 <= m < |iters| ==> 1 <= iters[m]
  {
    forall m :: 0 <= m < |iters| ==> SlotOf(iters[m], k) < cap
  }

  /** The rows of `bv_mean`, one per iteration. */
  function MeanRows(n: seq<Row>, iters: seq<int>, k: int): (r: seq<Row>)
    ensures |r| == |iters|
    ensures forall m :: 0 <= m < |iters| ==> r[m] == BinRow(n, iters[m], k)
  {
    seq(|iters|, m requires 0 <= m < |iters| => BinRow(n, iters[m], k))
  }

  /** Row m of `bv_mean` averages the depth columns `[1 + m * k, 1 + m * k + k)`,
      and every such window starts below 210. */
  lemma BinRows(n: seq<Row>, depth: Row, k: int, m: nat)
    requires k > 0 && BvFreqAvg(n, depth, k).Ok?
    requires m < |BvFreqAvg(n, depth, k).value.0|
    ensures 1 + m * k < 210
    ensures BvFreqAvg(n, depth, k).value.0[m] == BinRow(n, 1 + m * k, k)
  {
    var iters := Iterations(k, 1);
    var rows := BvFreqAvg(n, depth, k).value.0;
    assert rows[m] == BinRow(n, iters[m], k);
    OffsetIsProduct(m, k);
    assert iters[m] == 1 + m * k;
  }

  /** The bins never read depth column 0: two matrices that differ only there give
      the same `bv_mean` rows. */
  lemma BinRowSkipsColumnZero(n: seq<Row>, n': seq<Row>, i: int, k: int)
    requires |n| == |n'|
    requires forall t :: 0 <= t < |n| ==> |n[t]| == |n'[t]| > 0 && n[t][1..] == n'[t][1..]
    requires i >= 1 && k > 0
    ensures BinRow(n, i, k) == BinRow(n', i, k)
  {
    forall t | 0 <= t < |n|
      ensures PySeq.Slice(n[t], i, i + k) == PySeq.Slice(n'[t], i, i + k)
    {
      var a, b := PySeq.Slice(n[t], i, i + k), PySeq.Slice(n'[t], i, i + k);
      assert |a| == |b|;
      forall m | 0 <= m < |a|
        ensures a[m] == b[m]
      {
        var c := PySeq.SliceBound(i, |n[t]|) + m;
        assert n[t][c] == n[t][1..][c - 1];
      }
    }
  }

  /** `range(1, 210, k)` has `208 // k + 1` elements. */
  lemma IterationCount(k: int)
    requires k > 0
    ensures |Iterations(k, 1)| == 208 / k + 1
  {
    var c := |Iterations(k, 1)|;
    OffsetIsProduct(c, k);
    assert c != 0;
    OffsetIsProduct(c - 1, k);
    assert (c - 1) * k + k == c * k;
    DivUnique(208, k, c - 1);
  }

  /** When `bv_mean` is produced it has one row per iteration: `208 // k + 1`. */
  lemma BinCount(n: seq<Row>, depth: Row, k: int)
    requires k > 0 && BvFreqAvg(n, depth, k).Ok?
    ensures |BvFreqAvg(n, depth, k).value.0| == 208 / k + 1
  {
    IterationCount(k);
  }

  /** For k >= 2: `bv_freq_avg_every_k_meters` raises exactly when `208 // k` is not
      below `210 // k`, because the m-th iteration writes slot m and the last one is
      slot `208 // k`; otherwise the iterations write every slot, so the meshgrid
      succeeds. */
  lemma BvFreqAvgFailsIff(n: seq<Row>, depth: Row, k: int)
    requires k >= 2
    ensures BvFreqAvg(n, depth, k).Err? <==> 208 / k >= 210 / k
    ensures BvFreqAvg(n, depth, k).Err? ==> BvFreqAvg(n, depth, k) == Err(IndexError)
  {
    var iters := Iterations(k, 1);
    IterationCount(k);
    IterationSlots(k);
    var last := |iters| - 1;
    assert iters[last] / k == 208 / k;
    if 208 / k < 210 / k {
      var cap := 210 / k;
      SlotsCovered(k);
      assert SlotsFit(iters, k, cap);
      WriteSlotsAll(EmptySlots(cap), iters, depth, k);
    }
  }

  /** When iteration m writes slot m and there are as many iterations as slots,
      every slot is written. */
  lemma WriteSlotsAll(slots: seq<DepthSlot>, iters: seq<int>, depth: Row, k: int)
    requires k > 0 && |iters| == |slots|
    requires forall m :: 0 <= m < |iters| ==> 1 <= iters[m] && SlotOf(iters[m], k) == m
    ensures AllWritten(WriteSlots(slots, iters, depth, k))
  {
    var written := WriteSlots(slots, iters, depth, k);
    forall s | 0 <= s < |slots|
      ensures written[s].MeanDepth?
    {
      assert SlotOf(iters[s], k) == s;
    }
  }

  /** For k >= 2 there are at most `208 // k + 1` slots: two more rows add at most
      one slot. */
  lemma SlotsCovered(k: int)
    requires k >= 2
    ensures 210 / k <= 208 / k + 1
  {
    var q := 208 / k;
    assert 0 <= 208 - q * k < k;
    if 210 - q * k < k {
      DivUnique(210, k, q);
    } else {
      DivUnique(210, k, q + 1);
    }
  }

  /** k = 1: all 209 iterations fit, but slot 0 of `depth_avg` is never written and
      stays an empty list, so the meshgrid raises ValueError. */
  lemma BinKOne(n: seq<Row>, depth: Row, k: int)
    requires k == 1
    ensures BvFreqAvg(n, depth, k) == Err(ValueError)
  {
    SlotsKOne(k);
    UnwrittenSlotRaises(n, depth, k, 0);
  }

  /** When every iteration fits but one slot is named by none of them, that slot
      keeps its empty list and the call raises ValueError. */
  lemma UnwrittenSlotRaises(n: seq<Row>, depth: Row, k: int, s: nat)
    requires k > 0 && s < 210 / k
    requires forall m :: 0 <= m < |Iterations(k, 1)| ==>
      1 <= Iterations(k, 1)[m] && s < SlotOf(Iterations(k, 1)[m], k) < 210 / k
    ensures BvFreqAvg(n, depth, k) == Err(ValueError)
  {
    var iters, cap := Iterations(k, 1), 210 / k;
    assert SlotsFit(iters, k, cap);
    WriteSlotsMisses(EmptySlots(cap), iters, depth, k, s);
  }

  /** A slot below every iteration's slot keeps its initial value, so an initially
      empty slot leaves the written list ragged. */
  lemma WriteSlotsMisses(slots: seq<DepthSlot>, iters: seq<int>, depth: Row, k: int, s: nat)
    requires k > 0 && s < |slots| && slots[s] == EmptyList
    requires forall m :: 0 <= m < |iters| ==> 1 <= iters[m] && s < SlotOf(iters[m], k) < |slots|
    ensures !AllWritten(WriteSlots(slots, iters, depth, k))
  {
    var written := WriteSlots(slots, iters, depth, k);
    assert written[s] == slots[s];
  }

  /** For positive k the call succeeds exactly when k >= 2 and the last iteration's
      slot `208 // k` exists. */
  lemma BvFreqAvgOkIff(n: seq<Row>, depth: Row, k: int)
    requires k > 0
    ensures BvFreqAvg(n, depth, k).Ok? <==> k >= 2 && 208 / k < 210 / k
  {
    if k == 1 {
      BinKOne(n, depth, k);
    } else {
      BvFreqAvgFailsIff(n, depth, k);
    }
  }

  /** Iteration m starts at row `1 + m * k` and writes slot m, or slot m + 1 when
      k = 1. */
  lemma StrideSlot(k: int, m: nat)
    requires k > 0
    ensures 1 + m * k >= 1
    ensures SlotOf(1 + m * k, k) == m + (if k == 1 then 1 else 0)
  {
    if k == 1 {
      DivUnique(1 + m, 1, m + 1);
    } else {
      DivUnique(1 + m * k, k, m);
    }
  }

  /** The same for a row given as `1 + Offset(m, k)`, as `Iterations` states it. */
  lemma OffsetSlot(k: int, m: nat, i: int)
    requires k > 0 && i == 1 + Offset(m, k)
    ensures i >= 1
    ensures SlotOf(i, k) == m + (if k == 1 then 1 else 0)
  {
    OffsetIsProduct(m, k);
    StrideSlot(k, m);
  }

  /** Every iteration's row is at least 1, and iteration m writes slot m (slot
      m + 1 when k = 1). */
  lemma IterationSlots(k: int)
    requires k > 0
    ensures forall m :: 0 <= m < |Iterations(k, 1)| ==>
      1 <= Iterations(k, 1)[m] && SlotOf(Iterations(k, 1)[m], k) == m + (if k == 1 then 1 else 0)
  {
    var iters := Iterations(k, 1);
    forall m | 0 <= m < |iters|
      ensures 1 <= iters[m] && SlotOf(iters[m], k) == m + (if k == 1 then 1 else 0)
    {
      OffsetSlot(k, m, iters[m]);
    }
  }

  /** For k = 1 the slots written are 1 through 209. */
  lemma SlotsKOne(k: int)
    requires k == 1
    ensures forall m :: 0 <= m < |Iterations(k, 1)| ==>
      1 <= Iterations(k, 1)[m] && 1 <= SlotOf(Iterations(k, 1)[m], k) < 210
  {
    IterationCount(k);
    IterationSlots(k);
  }

  /** k = 4 and k = 8 raise IndexError: their last iteration writes slot 52 of 52
      (resp. 26 of 26). */
  lemma BinFailsForFourAndEight(n: seq<Row>, depth: Row, k: int)
    requires k == 4 || k == 8
    ensures BvFreqAvg(n, depth, k) == Err(IndexError)
  {
    assert 208 / k >= 210 / k by {
      if k == 4 {
        assert 208 / k == 52 == 210 / k;
      } else {
        assert 208 / k == 26 == 210 / k;
      }
    }
    BvFreqAvgFailsIff(n, depth, k);
  }

  /** k = 5, the default, succeeds: its last iteration writes slot 41 of 42. */
  lemma BinSucceedsForFive(n: seq<Row>, depth: Row, k: int)
    requires k == 5
    ensures BvFreqAvg(n, depth, k).Ok?
  {
    BvFreqAvgFailsIff(n, depth, k);
  }

  lemma MulAtLeast(k: int, d: int)
    requires k > 0 && d >= 1
    ensures k * d >= k
  {
  }

  lemma DivUnique(a: int, k: int, q: int)
    requires k > 0
    requires 0 <= a - q * k < k
    ensures a / k == q
  {
    var d := a / k - q;
    assert k * d == (a - q * k) - a % k;
    if d >= 1 {
      MulAtLeast(k, d);
      assert false;
    } else if d <= -1 {
      MulAtLeast(k, -d);
      assert false;
    }
  }

  // ---------------------------------------------------------------------------

  /** `bv_sum_top_k_meters(n, k)`: per cast, the NaN-sum of the columns `[0:k]`
      (a Python slice, so a negative k counts from the end). */
  function SumTopK(n: seq<Row>, k: int): (r: seq<real>)
    ensures |r| == |n|
    ensures forall t :: 0 <= t < |n| ==> r[t] == Sum(Present(PySeq.Slice(n[t], 0, k)))
  {
    var r := seq(|n|, t requires 0 <= t < |n| => NanSum(PySeq.Slice(n[t], 0, k)));
    assert forall t :: 0 <= t < |n| ==> r[t] == Sum(Present(PySeq.Slice(n[t], 0, k))) by {
      forall t | 0 <= t < |n|
        ensures r[t] == Sum(Present(PySeq.Slice(n[t], 0, k)))
      {
        NanSumIsSumOfPresent(PySeq.Slice(n[t], 0, k));
      }
    }
    r
  }

  /** An all-NaN top layer sums to 0, not NaN. */
  lemma SumTopKAllNaN(n: seq<Row>, k: int, t: nat)
    requires t < |n|
    requires AllNaN(n[t])
    ensures SumTopK(n, k)[t] == 0.0
  {
    var sl := PySeq.Slice(n[t], 0, k);
    assert AllNaN(sl);
  }
}
