/**
 * Splitting a list of identifiers into request-sized slices, as both batch
 * loops do with `for i in range(0, len(xs), 100): chunk = xs[i:i + 100]`.
 */
module Chunking {

  /** The platform's ceiling on identifiers per request. */
  const ChunkSize: nat := 100

  function Min(a: int, b: int): int {
    if a <= b then a else b
  }

  /** The slices the loop visits, in order. */
  function Chunks<T>(xs: seq<T>): (cs: seq<seq<T>>)
    ensures cs == [] <==> xs == []
    ensures forall k :: 0 <= k < |cs| ==> 0 < |cs[k]| <= ChunkSize
    decreases |xs|
  {
    if xs == [] then []
    else
      var n := Min(ChunkSize, |xs|);
      [xs[..n]] + Chunks(xs[n..])
  }

  /** Joins slices back together. */
  function Flatten<T>(cs: seq<seq<T>>): seq<T> {
    if cs == [] then [] else cs[0] + Flatten(cs[1..])
  }

  /** For N identifiers the loop makes ceil(N / 100) requests. */
  lemma {:induction false} ChunkCount<T>(xs: seq<T>)
    ensures |Chunks(xs)| == (|xs| + ChunkSize - 1) / ChunkSize
    decreases |xs|
  {
    if xs != [] {
      var n := Min(ChunkSize, |xs|);
      ChunkCount(xs[n..]);
    }
  }

  /** Request number k carries the slice `[100k, min(100k + 100, N))`. */
  lemma {:induction false} ChunkAt<T>(xs: seq<T>, k: nat)
    requires k < |Chunks(xs)|
    ensures ChunkSize * k < |xs|
    ensures Chunks(xs)[k] == xs[ChunkSize * k..Min(ChunkSize * k + ChunkSize, |xs|)]
    decreases |xs|
  {
    var n := Min(ChunkSize, |xs|);
    if k > 0 {
      var rest := xs[n..];
      assert Chunks(xs)[k] == Chunks(rest)[k - 1];
      ChunkAt(rest, k - 1);
      assert n == ChunkSize;
      assert rest[ChunkSize * (k - 1)..Min(ChunkSize * (k - 1) + ChunkSize, |rest|)]
          == xs[ChunkSize * k..Min(ChunkSize * k + ChunkSize, |xs|)];
    }
  }

  /** A chunk index is in range exactly when its first position is inside the list. */
  lemma ChunkIndexInRange<T>(xs: seq<T>, k: nat)
    ensures k < |Chunks(xs)| <==> ChunkSize * k < |xs|
  {
    ChunkCount(xs);
  }

  /** Concatenating the chunks gives the original list back: nothing lost, nothing reordered. */
  lemma {:induction false} FlattenChunks<T>(xs: seq<T>)
    ensures Flatten(Chunks(xs)) == xs
    decreases |xs|
  {
    if xs != [] {
      var n := Min(ChunkSize, |xs|);
      FlattenChunks(xs[n..]);
      assert Chunks(xs)[1..] == Chunks(xs[n..]);
      assert xs[..n] + xs[n..] == xs;
    }
  }
}
