/**
 * `EnumerableExtensions.Batch`: splitting a sequence into consecutive batches of at most
 * a given size. The transport itself never calls it; it is part of the library's internals.
 */
module Batching {

  /** The concatenation of the batches, in order. */
  function Flatten<T>(batches: seq<seq<T>>): seq<T>
    decreases |batches|
  {
    if batches == [] then [] else Flatten(batches[..|batches| - 1]) + batches[|batches| - 1]
  }

  /**
   * The size at which a batch is closed. The source closes a batch as soon as its count is
   * `>= maxItemsPerBatch`, so a bound of zero or less closes every batch after one item.
   */
  function Capacity(maxItemsPerBatch: int): (c: nat)
    ensures c >= 1
    ensures maxItemsPerBatch >= 1 ==> c == maxItemsPerBatch
  {
    if maxItemsPerBatch <= 0 then 1 else maxItemsPerBatch
  }

  /**
   * `batches` cuts `items` into consecutive pieces of exactly `c` items, except the last,
   * which holds between 1 and `c` items.
   */
  ghost predicate IsChunking<T>(batches: seq<seq<T>>, items: seq<T>, c: nat)
  {
    && Flatten(batches) == items
    && (forall i :: 0 <= i < |batches| - 1 ==> |batches[i]| == c)
    && (forall i :: 0 <= i < |batches| ==> 0 < |batches[i]| <= c)
  }

  lemma {:induction false} FlattenAppend<T>(batches: seq<seq<T>>, b: seq<T>)
    ensures Flatten(batches + [b]) == Flatten(batches) + b
  {
    assert (batches + [b])[..|batches|] == batches;
  }

  lemma {:induction false} FlattenOfFullBatches<T>(batches: seq<seq<T>>, c: nat)
    requires forall i :: 0 <= i < |batches| ==> |batches[i]| == c
    ensures |Flatten(batches)| == |batches| * c
    decreases |batches|
  {
    if batches != [] {
      FlattenOfFullBatches(batches[..|batches| - 1], c);
    }
  }

  lemma {:induction false} MultipleBounds(c: int, k: int)
    requires c >= 0
    ensures k >= 1 ==> c * k >= c
    ensures k <= -1 ==> c * k <= 0 - c
    decreases if k < 0 then -k else k
  {
    if k > 1 {
      MultipleBounds(c, k - 1);
    } else if k < -1 {
      MultipleBounds(c, k + 1);
    }
  }

  /** `a / c` is `q` whenever `a` is `q` whole `c`s plus a remainder below `c`. */
  lemma DivideExactly(a: int, q: int, rem: int, c: nat)
    requires c >= 1 && 0 <= rem < c && a == q * c + rem
    ensures a / c == q
  {
    var d, r := a / c, a % c;
    assert c * (d - q) == rem - r;
    MultipleBounds(c, d - q);
  }

  /** The number of batches of a chunking is `ceil(|items| / c)`. */
  lemma {:induction false} ChunkingCount<T>(batches: seq<seq<T>>, items: seq<T>, c: nat)
    requires c >= 1 && IsChunking(batches, items, c)
    ensures |batches| == (|items| + c - 1) / c
  {
    if batches == [] {
      assert items == [];
    } else {
      var full := batches[..|batches| - 1];
      var last := batches[|batches| - 1];
      FlattenOfFullBatches(full, c);
      assert |items| == |full| * c + |last|;
      DivideExactly(|items| + c - 1, |full| + 1, |last| - 1, c);
    }
  }

  /**
   * The chunking of a sequence is unique: two ways of cutting the same items into batches
   * of exactly `c` (the last between 1 and `c`) are the same.
   */
  lemma {:induction false} ChunkingIsUnique<T>(a: seq<seq<T>>, b: seq<seq<T>>, items: seq<T>, c: nat)
    requires c >= 1 && IsChunking(a, items, c) && IsChunking(b, items, c)
    ensures a == b
    decreases |items|
  {
    ChunkingCount(a, items, c);
    ChunkingCount(b, items, c);
    if a != [] {
      var n := |a|;
      assert |a[n - 1]| == |b[n - 1]| by {
        FlattenOfFullBatches(a[..n - 1], c);
        FlattenOfFullBatches(b[..n - 1], c);
      }
      var rest := items[..|items| - |a[n - 1]|];
      assert a[n - 1] == b[n - 1] && Flatten(a[..n - 1]) == rest == Flatten(b[..n - 1]) by {
        assert items == Flatten(a[..n - 1]) + a[n - 1];
        assert items == Flatten(b[..n - 1]) + b[n - 1];
      }
      ChunkingIsUnique(a[..n - 1], b[..n - 1], rest, c);
      assert a == a[..n - 1] + [a[n - 1]];
      assert b == b[..n - 1] + [b[n - 1]];
    }
  }

  /**
   * `Batch<T>(items, maxItemsPerBatch)`: the batches the iterator yields, in order. Each item
   * is added to the current list; a list that reaches the bound is yielded and replaced by a
   * new one; a non-empty remainder is yielded at the end.
   */
  method Batch<T>(items: seq<T>, maxItemsPerBatch: int) returns (batches: seq<seq<T>>)
    ensures IsChunking(batches, items, Capacity(maxItemsPerBatch))
    ensures Flatten(batches) == items
    ensures forall i :: 0 <= i < |batches| ==> batches[i] != []
    ensures maxItemsPerBatch >= 1 ==> forall i :: 0 <= i < |batches| ==> |batches[i]| <= maxItemsPerBatch
    ensures maxItemsPerBatch >= 1 ==> forall i :: 0 <= i < |batches| - 1 ==> |batches[i]| == maxItemsPerBatch
    ensures |batches| == (|items| + Capacity(maxItemsPerBatch) - 1) / Capacity(maxItemsPerBatch)
    ensures items == [] ==> batches == []
    ensures maxItemsPerBatch <= 0 ==> |batches| == |items| && forall i :: 0 <= i < |items| ==> batches[i] == [items[i]]
  {
    ghost var c := Capacity(maxItemsPerBatch);
    batches := [];
    var list: seq<T> := [];
    var i := 0;
    while i < |items|
      invariant 0 <= i <= |items|
      invariant Flatten(batches) + list == items[..i]
      invariant forall j :: 0 <= j < |batches| ==> |batches[j]| == c
      invariant |list| < c
    {
      list := list + [items[i]];
      if |list| >= maxItemsPerBatch {
        FlattenAppend(batches, list);
        batches := batches + [list];
        list := [];
      }
      assert items[..i + 1] == items[..i] + [items[i]];
      i := i + 1;
    }
    assert items[..i] == items;
    if |list| > 0 {
      FlattenAppend(batches, list);
      batches := batches + [list];
    }
    ChunkingMeaning(batches, items, maxItemsPerBatch);
  }

  /** What a chunking at the capacity of `maxItemsPerBatch` is, spelled out. */
  lemma ChunkingMeaning<T>(batches: seq<seq<T>>, items: seq<T>, maxItemsPerBatch: int)
    requires IsChunking(batches, items, Capacity(maxItemsPerBatch))
    ensures forall i :: 0 <= i < |batches| ==> batches[i] != []
    ensures maxItemsPerBatch >= 1 ==> forall i :: 0 <= i < |batches| ==> |batches[i]| <= maxItemsPerBatch
    ensures maxItemsPerBatch >= 1 ==> forall i :: 0 <= i < |batches| - 1 ==> |batches[i]| == maxItemsPerBatch
    ensures |batches| == (|items| + Capacity(maxItemsPerBatch) - 1) / Capacity(maxItemsPerBatch)
    ensures items == [] ==> batches == []
    ensures maxItemsPerBatch <= 0 ==> |batches| == |items| && forall i :: 0 <= i < |items| ==> batches[i] == [items[i]]
  {
    ChunkingCount(batches, items, Capacity(maxItemsPerBatch));
    if maxItemsPerBatch <= 0 {
      SingletonChunks(batches, items);
    }
  }

  /** With batches of exactly one item, batch `i` is the i-th item alone. */
  lemma {:induction false} SingletonChunks<T>(batches: seq<seq<T>>, items: seq<T>)
    requires Flatten(batches) == items
    requires forall i :: 0 <= i < |batches| ==> |batches[i]| == 1
    ensures |batches| == |items|
    ensures forall i :: 0 <= i < |items| ==> batches[i] == [items[i]]
    decreases |batches|
  {
    if batches != [] {
      var n := |batches|;
      SingletonChunks(batches[..n - 1], Flatten(batches[..n - 1]));
      assert batches[n - 1] == [batches[n - 1][0]];
    }
  }
}
