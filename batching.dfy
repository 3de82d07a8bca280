/**
 * The batching arithmetic of both loaders: the offsets
 * `range(0, total, 50)`, the slices `iloc[i:i+50]`, and the 1-indexed
 * inclusive range `i+1 .. min(i+50, total)` that each batch reports.
 * Batches are numbered from 0 here; batch j starts at offset 50*j.
 */
module Batching {

  const BatchSize: nat := 50

  function Min(a: nat, b: nat): nat {
    if a <= b then a else b
  }

  /** How many offsets `range(0, total, BatchSize)` yields. */
  function NumBatches(total: nat): nat {
    (total + BatchSize - 1) / BatchSize
  }

  /** Offset `i` of batch j. */
  function Start(j: nat): nat {
    j * BatchSize
  }

  /** Exclusive end of batch j: `min(i + BatchSize, total)`. */
  function End(j: nat, total: nat): nat {
    Min(Start(j) + BatchSize, total)
  }

  lemma BatchBounds(j: nat, total: nat)
    requires j < NumBatches(total)
    ensures Start(j) < End(j, total) <= total
    ensures End(j, total) - Start(j) <= BatchSize
    ensures j + 1 < NumBatches(total) ==> End(j, total) == Start(j + 1)
    ensures j + 1 == NumBatches(total) ==> End(j, total) == total
  {
  }

  /** The next offset is one batch on, and an offset is below `total` exactly when its batch exists. */
  lemma StartStep(j: nat, total: nat)
    ensures Start(j + 1) == Start(j) + BatchSize
    ensures Start(j) < total <==> j < NumBatches(total)
  {
  }

  /** The values of `range(0, total, BatchSize)`, in order. */
  function Offsets(total: nat): seq<nat> {
    seq(NumBatches(total), j requires 0 <= j < NumBatches(total) => Start(j))
  }

  /**
   * The offsets are exactly the multiples of the batch size below `total`,
   * increasing, and there are ceil(total / BatchSize) of them.
   */
  lemma OffsetsAreRange(total: nat)
    ensures forall i: nat :: i in Offsets(total) <==> i < total && i % BatchSize == 0
    ensures forall a, b :: 0 <= a < b < |Offsets(total)| ==> Offsets(total)[a] < Offsets(total)[b]
    ensures |Offsets(total)| * BatchSize >= total
    ensures total > 0 ==> (|Offsets(total)| - 1) * BatchSize < total
    ensures total == 0 <==> Offsets(total) == []
  {
    var offs := Offsets(total);
    forall i: nat | i < total && i % BatchSize == 0
      ensures i in offs
    {
      var j := i / BatchSize;
      assert Start(j) == i;
      assert j < NumBatches(total);
      assert offs[j] == i;
    }
    forall i | i in offs
      ensures i < total && i % BatchSize == 0
    {
      var j :| 0 <= j < |offs| && offs[j] == i;
      BatchBounds(j, total);
    }
  }

  /** The slice `s[i : i + BatchSize]` of batch j; never empty. */
  function Batch<T>(s: seq<T>, j: nat): (b: seq<T>)
    requires j < NumBatches(|s|)
    ensures 0 < |b| <= BatchSize
  {
    BatchBounds(j, |s|);
    s[Start(j)..End(j, |s|)]
  }

  /** All batches of `s`, in order. */
  function Batches<T>(s: seq<T>): seq<seq<T>> {
    seq(NumBatches(|s|), j requires 0 <= j < NumBatches(|s|) => Batch(s, j))
  }

  function Flatten<T>(ss: seq<seq<T>>): seq<T> {
    if ss == [] then [] else ss[0] + Flatten(ss[1..])
  }

  lemma {:induction false} FlattenFrom<T>(s: seq<T>, j: nat)
    requires j <= NumBatches(|s|)
    ensures Flatten(Batches(s)[j..]) == s[Min(Start(j), |s|)..]
    decreases NumBatches(|s|) - j
  {
    var bs := Batches(s);
    if j == NumBatches(|s|) {
      assert bs[j..] == [];
      assert Start(j) >= |s|;
    } else {
      BatchBounds(j, |s|);
      FlattenFrom(s, j + 1);
      assert bs[j..][1..] == bs[j + 1..];
      assert bs[j..][0] == Batch(s, j);
      assert Min(Start(j + 1), |s|) == End(j, |s|);
      assert s[Start(j)..] == s[Start(j)..End(j, |s|)] + s[End(j, |s|)..];
    }
  }

  /**
   * The batches partition `s`: ceil(|s| / BatchSize) of them, none empty,
   * none longer than BatchSize, all but the last exactly BatchSize long,
   * and their concatenation in order is `s` itself.
   */
  lemma BatchesPartition<T>(s: seq<T>)
    ensures |Batches(s)| == NumBatches(|s|)
    ensures |Batches(s)| * BatchSize >= |s|
    ensures |s| > 0 ==> (|Batches(s)| - 1) * BatchSize < |s|
    ensures forall j :: 0 <= j < |Batches(s)| ==> 0 < |Batches(s)[j]| <= BatchSize
    ensures forall j :: 0 <= j < |Batches(s)| - 1 ==> |Batches(s)[j]| == BatchSize
    ensures Flatten(Batches(s)) == s
  {
    forall j | 0 <= j < |Batches(s)| - 1
      ensures |Batches(s)[j]| == BatchSize
    {
      BatchBounds(j, |s|);
    }
    FlattenFrom(s, 0);
    assert Batches(s)[0..] == Batches(s);
  }

  /** The range `(i + 1, min(i + BatchSize, total))` that batch j reports. */
  function Range(j: nat, total: nat): (nat, nat) {
    (Start(j) + 1, End(j, total))
  }

  /** The reported ranges of all batches, in order. */
  function Ranges(total: nat): seq<(nat, nat)> {
    seq(NumBatches(total), j requires 0 <= j < NumBatches(total) => Range(j, total))
  }

  /**
   * The reported ranges are 1-indexed and inclusive: each one names exactly
   * the rows of its batch, they follow one another with no gap and no
   * overlap, the first starts at 1 and the last ends at `total`.
   */
  lemma RangesContiguous<T>(s: seq<T>)
    ensures |Ranges(|s|)| == |Batches(s)|
    ensures |s| == 0 <==> Ranges(|s|) == []
    ensures |s| > 0 ==> Ranges(|s|)[0].0 == 1 && Ranges(|s|)[|Ranges(|s|)| - 1].1 == |s|
    ensures forall j :: 0 <= j < |Ranges(|s|)| ==>
              1 <= Ranges(|s|)[j].0 <= Ranges(|s|)[j].1 <= |s| &&
              s[Ranges(|s|)[j].0 - 1..Ranges(|s|)[j].1] == Batches(s)[j]
    ensures forall j :: 0 <= j < |Ranges(|s|)| - 1 ==> Ranges(|s|)[j].1 + 1 == Ranges(|s|)[j + 1].0
  {
    var rs := Ranges(|s|);
    forall j | 0 <= j < |rs|
      ensures 1 <= rs[j].0 <= rs[j].1 <= |s| && s[rs[j].0 - 1..rs[j].1] == Batches(s)[j]
    {
      BatchBounds(j, |s|);
    }
    forall j | 0 <= j < |rs| - 1
      ensures rs[j].1 + 1 == rs[j + 1].0
    {
      BatchBounds(j, |s|);
    }
    if |s| > 0 {
      BatchBounds(|rs| - 1, |s|);
    }
  }

  /** 120 rows make three batches, of 50, 50 and 20 rows. */
  lemma HundredTwentyRows<T>(s: seq<T>)
    requires |s| == 120
    ensures |Batches(s)| == 3
    ensures |Batches(s)[0]| == 50 && |Batches(s)[1]| == 50 && |Batches(s)[2]| == 20
    ensures Ranges(120) == [(1, 50), (51, 100), (101, 120)]
  {
  }
}
