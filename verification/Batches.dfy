/** Which passages each model call sees: the strided batches of `generate_questions` and
    the `_CallBudget` that hands them out, in `services/assessments.py`. */
module Batches {
  import opened Wrappers

  // A passage, by its chunk id.
  type Chunk = nat

  // ------------------------------------------------------------------ arithmetic

  // Multiples of n are n apart.
  lemma {:induction false} Apart(a: int, b: int, n: nat)
    ensures a < b ==> a * n + n <= b * n
    ensures a <= b ==> a * n <= b * n
    decreases b - a
  {
    if a < b {
      Apart(a, b - 1, n);
      assert b * n == (b - 1) * n + n;
    }
  }

  // The way back: fewer multiples, and less than one over, are no more.
  lemma NoMore(a: int, b: int, n: nat)
    requires a * n < b * n + n
    ensures a <= b
  {
    if b < a { Apart(b, a, n); }
  }

  lemma Shared(a: int, b: int, n: int)
    ensures (a + b) * n == a * n + b * n
  {
  }

  lemma Quotient(x: nat, n: nat)
    requires n > 0
    ensures x / n * n <= x < x / n * n + n && x % n == x - x / n * n
  {
  }

  lemma DivMod(i: nat, k: nat, n: nat)
    requires i < n
    ensures (i + k * n) % n == i && (i + k * n) / n == k
  {
    var x := i + k * n;
    var q := x / n;
    Quotient(x, n);
    NoMore(q, k, n);
    NoMore(k, q, n);
  }

  // ------------------------------------------------------------------ striding

  // How many places i, i + n, i + 2n, ... fall below length.
  function StrideLength(length: nat, i: nat, n: nat): nat
    requires i < n
  {
    if length <= i then 0 else (length - i - 1) / n + 1
  }

  lemma StrideIndex(length: nat, i: nat, n: nat, k: nat)
    requires i < n
    ensures k < StrideLength(length, i, n) <==> i + k * n < length
  {
    if i < length {
      var q := (length - i - 1) / n;
      Quotient(length - i - 1, n);
      Apart(k, q, n);
      Apart(q, k, n);
    } else {
      Apart(0, k, n);
    }
  }

  // `sampled[i::n]`
  function Stride(sampled: seq<Chunk>, i: nat, n: nat): (r: seq<Chunk>)
    requires i < n
    ensures |r| == StrideLength(|sampled|, i, n)
  {
    seq(StrideLength(|sampled|, i, n), k requires 0 <= k < StrideLength(|sampled|, i, n) =>
      (StrideIndex(|sampled|, i, n, k); sampled[i + k * n]))
  }

  function BatchCount(length: nat, batchSize: nat): (n: nat)
    requires batchSize > 0
    ensures n >= 1
  {
    var n := (length + batchSize - 1) / batchSize;
    if n < 1 then 1 else n
  }

  // The non-empty strides.
  function BatchesOf(sampled: seq<Chunk>, batchSize: nat): (r: seq<seq<Chunk>>)
    requires batchSize > 0
    ensures sampled == [] ==> r == []
    ensures sampled != [] ==> |r| == BatchCount(|sampled|, batchSize)
  {
    if sampled == [] then []
    else
      var n := BatchCount(|sampled|, batchSize);
      seq(n, i requires 0 <= i < n => Stride(sampled, i, n))
  }

  // There are enough batches for their size to hold everything, one fewer would not hold it, and
  // there are no more than passages.
  lemma CountFits(length: nat, batchSize: nat)
    requires batchSize > 0 && length > 0
    ensures var n := BatchCount(length, batchSize);
      n <= length && (n - 1) * batchSize < length <= n * batchSize
  {
    var n, t := BatchCount(length, batchSize), length + batchSize - 1;
    Quotient(t, batchSize);
    Apart(length, n, batchSize);
    Apart(1, batchSize, length);
  }

  // Every stride has one of two neighbouring sizes.
  lemma StrideSize(length: nat, i: nat, n: nat)
    requires i < n && length > 0
    ensures (length - 1) / n <= StrideLength(length, i, n) <= (length - 1) / n + 1
  {
    hide StrideLength;
    var q, l := (length - 1) / n, StrideLength(length, i, n);
    Quotient(length - 1, n);
    if l > 0 {
      StrideIndex(length, i, n, l - 1);
      NoMore(l - 1, q, n);
    }
    if q > 0 {
      Shared(q, -1, n);
      StrideIndex(length, i, n, q - 1);
    }
  }

  lemma StrideFits(length: nat, i: nat, batchSize: nat)
    requires batchSize > 0 && length > 0 && i < BatchCount(length, batchSize)
    ensures 1 <= StrideLength(length, i, BatchCount(length, batchSize)) <= batchSize
  {
    var n := BatchCount(length, batchSize);
    CountFits(length, batchSize);
    StrideIndex(length, i, n, 0);
    StrideIndex(length, i, n, batchSize);
    assert batchSize * n == n * batchSize;
  }

  // The position that lands in place k of batch i.
  function PositionOf(i: nat, k: nat, n: nat): nat { i + k * n }

  // Position p lands in one place, and that place holds it.
  ghost predicate Lands(sampled: seq<Chunk>, b: seq<seq<Chunk>>, n: nat, p: nat)
    requires n > 0 && |b| == n && p < |sampled|
  {
    p / n < |b[p % n]| && b[p % n][p / n] == sampled[p]
  }

  // Place k of batch i is where some position, and so only that one, lands.
  ghost predicate IsFilled(sampled: seq<Chunk>, n: nat, i: nat, k: nat)
    requires n > 0
  {
    var p := PositionOf(i, k, n);
    p < |sampled| && p % n == i && p / n == k
  }

  ghost predicate PlacedOnce(sampled: seq<Chunk>, b: seq<seq<Chunk>>, n: nat)
    requires n > 0 && |b| == n
  {
    && (forall p :: 0 <= p < |sampled| ==> Lands(sampled, b, n, p))
    && (forall i, k :: 0 <= i < n && 0 <= k < |b[i]| ==> IsFilled(sampled, n, i, k))
  }

  lemma StridesPlace(sampled: seq<Chunk>, batchSize: nat)
    requires batchSize > 0 && sampled != []
    ensures PlacedOnce(sampled, BatchesOf(sampled, batchSize), BatchCount(|sampled|, batchSize))
  {
    hide StrideLength, BatchCount, Lands, IsFilled;
    var b, n, length := BatchesOf(sampled, batchSize), BatchCount(|sampled|, batchSize), |sampled|;
    forall p | 0 <= p < length
      ensures Lands(sampled, b, n, p)
    {
      StrideLands(sampled, b, n, p);
    }
    forall i, k | 0 <= i < n && 0 <= k < |b[i]|
      ensures IsFilled(sampled, n, i, k)
    {
      StrideFilled(sampled, n, i, k);
    }
  }

  lemma StrideLands(sampled: seq<Chunk>, b: seq<seq<Chunk>>, n: nat, p: nat)
    requires n > 0 && |b| == n && p < |sampled| && b[p % n] == Stride(sampled, p % n, n)
    ensures Lands(sampled, b, n, p)
  {
    hide StrideLength;
    Quotient(p, n);
    StrideIndex(|sampled|, p % n, n, p / n);
  }

  lemma StrideFilled(sampled: seq<Chunk>, n: nat, i: nat, k: nat)
    requires i < n && k < StrideLength(|sampled|, i, n)
    ensures IsFilled(sampled, n, i, k)
  {
    hide StrideLength;
    StrideIndex(|sampled|, i, n, k);
    DivMod(i, k, n);
    Apart(0, k, n);
  }

  /** The batches share the sample out: the passage at position p is in batch p mod n at
      place p div n, every place of every batch is some passage's, no batch is empty or over
      size, and no two differ in size by more than one. */
  lemma BatchesPartition(sampled: seq<Chunk>, batchSize: nat)
    requires batchSize > 0 && sampled != []
    ensures var b, n := BatchesOf(sampled, batchSize), BatchCount(|sampled|, batchSize);
      && |b| == n
      && PlacedOnce(sampled, b, n)
      && (forall i :: 0 <= i < n ==> 1 <= |b[i]| <= batchSize)
      && (forall i, j :: 0 <= i < n && 0 <= j < n ==> |b[i]| <= |b[j]| + 1)
  {
    hide StrideLength, BatchCount, PlacedOnce;
    var n, length := BatchCount(|sampled|, batchSize), |sampled|;
    StridesPlace(sampled, batchSize);
    forall i | 0 <= i < n
      ensures 1 <= |BatchesOf(sampled, batchSize)[i]| <= batchSize
      ensures (length - 1) / n <= |BatchesOf(sampled, batchSize)[i]| <= (length - 1) / n + 1
    {
      StrideSize(length, i, n);
      StrideFits(length, i, batchSize);
    }
  }

  // ------------------------------------------------------------------ the budget

  class CallBudget {
    var left: int
    const batches: seq<seq<Chunk>>
    var next: nat
    ghost const limit: int
    ghost var granted: nat
    // The batch each take handed out, oldest first.
    ghost var taken: seq<nat>

    ghost predicate Valid()
      reads this
    {
      && granted + left == limit && (granted > 0 ==> left >= 0)
      && next == |taken| <= granted
      && (taken != [] ==> batches != [])
      && forall k :: 0 <= k < |taken| ==> taken[k] == k % |batches|
    }

    constructor (limit: int, batches: seq<seq<Chunk>>)
      ensures Valid() && left == limit == this.limit && this.batches == batches && taken == [] && granted == 0
    {
      left, this.batches, next := limit, batches, 0;
      this.limit, granted, taken := limit, 0, [];
    }

    predicate Exhausted()
      reads this
    {
      left <= 0
    }

    predicate Spent()
      reads this
    {
      Exhausted() || batches == []
    }

    method Spend() returns (ok: bool)
      requires Valid()
      modifies this
      ensures Valid() && ok == !old(Exhausted()) && taken == old(taken)
      ensures left == (if ok then old(left) - 1 else old(left)) && granted == (if ok then old(granted) + 1 else old(granted))
    {
      if Exhausted() {
        return false;
      }
      left := left - 1;
      granted := granted + 1;
      ok := true;
    }

    method Take() returns (batch: Option<seq<Chunk>>)
      requires Valid()
      modifies this
      ensures Valid() && batch.Some? == !old(Spent())
      ensures left == (if batch.Some? then old(left) - 1 else old(left))
      ensures granted == (if batch.Some? then old(granted) + 1 else old(granted))
      ensures batch.None? ==> taken == old(taken)
      ensures batch.Some? ==> taken == old(taken) + [|old(taken)| % |batches|] && batch.value == batches[|old(taken)| % |batches|]
    {
      if Spent() {
        return None;
      }
      left := left - 1;
      batch := Some(batches[next % |batches|]);
      granted, taken := granted + 1, taken + [next % |batches|];
      next := next + 1;
    }
  }

  /** Under any mixture of takes and spends, every batch is handed out once before any is
      handed out twice, and between two showings of one batch every other is shown. */
  lemma EveryBatchBeforeARepeat(taken: seq<nat>, n: nat, i: nat, j: nat, other: nat)
    requires n > 0 && forall k :: 0 <= k < |taken| ==> taken[k] == k % n
    requires i < j < |taken| && taken[i] == taken[j] && other < n
    ensures j >= n && j - i >= n
    ensures exists k :: i <= k < j && taken[k] == other
  {
    var a, b := i / n, j / n;
    Quotient(i, n);
    Quotient(j, n);
    Apart(b, a, n);
    Apart(a, b, n);
    Shared(a, 1, n);
    Apart(a + 1, b, n);
    var lap := if other >= i % n then a else a + 1;
    Apart(lap, a + 1, n);
    DivMod(other, lap, n);
    assert taken[lap * n + other] == other;
  }
}
