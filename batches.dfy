/**
 * What the two batch loops collect: every chunk ends either with a payload or
 * with exactly one error entry, and the loop moves on to the next chunk.
 */
module Batches {
  import opened Wrappers

  /**
   * The error entry one failed chunk contributes: a reply other than 200, a
   * reply without an `items` list, or any exception raised while sending the
   * request or reading its reply.
   */
  datatype ChunkError = HttpStatus(code: int) | MissingItems | Exception

  /** The payloads of the successful chunks, in chunk order. */
  function Oks<R>(outs: seq<Result<R, ChunkError>>): (rs: seq<R>)
    ensures |rs| <= |outs|
  {
    if outs == [] then []
    else
      var rest := Oks(outs[..|outs| - 1]);
      match outs[|outs| - 1]
      case Ok(v) => rest + [v]
      case Err(_) => rest
  }

  /** The error entries of the failed chunks, in chunk order. */
  function Errors<R>(outs: seq<Result<R, ChunkError>>): (es: seq<ChunkError>)
    ensures |es| <= |outs|
  {
    if outs == [] then []
    else
      var rest := Errors(outs[..|outs| - 1]);
      match outs[|outs| - 1]
      case Ok(_) => rest
      case Err(e) => rest + [e]
  }

  /** `results.extend(batch)` over the successful batches. */
  function Concat<T>(bs: seq<seq<T>>): seq<T> {
    if bs == [] then [] else Concat(bs[..|bs| - 1]) + bs[|bs| - 1]
  }

  /**
   * Nothing is lost or invented: every successful chunk's payload is among the
   * payloads, every failed chunk's error among the errors, and nothing else is.
   */
  lemma {:induction false} OutcomeMembership<R>(outs: seq<Result<R, ChunkError>>)
    ensures forall k :: 0 <= k < |outs| && outs[k].Ok? ==> outs[k].value in Oks(outs)
    ensures forall v :: v in Oks(outs) ==> Ok(v) in outs
    ensures forall k :: 0 <= k < |outs| && outs[k].Err? ==> outs[k].error in Errors(outs)
    ensures forall e :: e in Errors(outs) ==> Err(e) in outs
  {
    if outs != [] {
      var init := outs[..|outs| - 1];
      OutcomeMembership(init);
      assert outs == init + [outs[|outs| - 1]];
      forall k | 0 <= k < |outs| - 1 ensures outs[k] == init[k] { }
    }
  }

  /** A value is in a concatenation exactly when it is in one of the parts. */
  lemma {:induction false} ConcatMembership<T>(bs: seq<seq<T>>)
    ensures forall j, x :: 0 <= j < |bs| && x in bs[j] ==> x in Concat(bs)
    ensures forall x :: x in Concat(bs) ==> exists j :: 0 <= j < |bs| && x in bs[j]
  {
    if bs != [] {
      var init := bs[..|bs| - 1];
      ConcatMembership(init);
      forall j, x | 0 <= j < |bs| && x in bs[j] ensures x in Concat(bs) {
        if j < |init| { assert bs[j] == init[j]; }
      }
      forall x | x in Concat(bs) ensures exists j :: 0 <= j < |bs| && x in bs[j] {
        if x in Concat(init) {
          var j :| 0 <= j < |init| && x in init[j];
          assert bs[j] == init[j];
        } else {
          assert x in bs[|bs| - 1];
        }
      }
    }
  }

  /**
   * The fetched records: the items of every successful chunk, concatenated in chunk order.
   * Every item of a successful chunk is a record, and every record comes from one.
   */
  function Items<T>(outs: seq<Result<seq<T>, ChunkError>>): (r: seq<T>)
    ensures forall k, x :: 0 <= k < |outs| && outs[k].Ok? && x in outs[k].value ==> x in r
    ensures forall x :: x in r ==> exists k :: 0 <= k < |outs| && outs[k].Ok? && x in outs[k].value
  {
    OkItemsMembership(outs);
    Concat(Oks(outs))
  }

  /** The membership facts behind `Items`, stated on its definition. */
  lemma OkItemsMembership<T>(outs: seq<Result<seq<T>, ChunkError>>)
    ensures forall k, x :: 0 <= k < |outs| && outs[k].Ok? && x in outs[k].value ==> x in Concat(Oks(outs))
    ensures forall x :: x in Concat(Oks(outs)) ==> exists k :: 0 <= k < |outs| && outs[k].Ok? && x in outs[k].value
  {
    var bs := Oks(outs);
    OutcomeMembership(outs);
    ConcatMembership(bs);
    forall x | x in Concat(bs) ensures exists k :: 0 <= k < |outs| && outs[k].Ok? && x in outs[k].value {
      var j :| 0 <= j < |bs| && x in bs[j];
      assert bs[j] in bs;
      var k :| 0 <= k < |outs| && outs[k] == Ok(bs[j]);
    }
  }

  /** One more chunk adds its payload or its error at the end, and nothing else. */
  lemma StepChunk<R>(outs: seq<Result<R, ChunkError>>, k: nat)
    requires k < |outs|
    ensures Oks(outs[..k + 1]) == Oks(outs[..k]) + (if outs[k].Ok? then [outs[k].value] else [])
    ensures Errors(outs[..k + 1]) == Errors(outs[..k]) + (if outs[k].Err? then [outs[k].error] else [])
  {
    assert outs[..k + 1][..k] == outs[..k];
  }

  /** One more chunk adds its items, if it succeeded, after the records collected so far. */
  lemma StepItems<T>(outs: seq<Result<seq<T>, ChunkError>>, k: nat)
    requires k < |outs|
    ensures Items(outs[..k + 1]) == Items(outs[..k]) + (if outs[k].Ok? then outs[k].value else [])
  {
    StepChunk(outs, k);
    if outs[k].Ok? {
      var os := Oks(outs[..k]) + [outs[k].value];
      assert os[..|os| - 1] == Oks(outs[..k]);
      assert Concat(os) == Concat(Oks(outs[..k])) + outs[k].value;
    } else {
      assert Oks(outs[..k + 1]) == Oks(outs[..k]);
    }
  }

  /** Each chunk contributes exactly one entry: a payload or an error, never both, never neither. */
  lemma {:induction false} EveryChunkAccounted<R>(outs: seq<Result<R, ChunkError>>)
    ensures |Oks(outs)| + |Errors(outs)| == |outs|
  {
    if outs != [] {
      EveryChunkAccounted(outs[..|outs| - 1]);
    }
  }

  /** A chunk's failure does not disturb what the other chunks contribute. */
  lemma {:induction false} OksAppend<R>(a: seq<Result<R, ChunkError>>, b: seq<Result<R, ChunkError>>)
    ensures Oks(a + b) == Oks(a) + Oks(b)
    ensures Errors(a + b) == Errors(a) + Errors(b)
  {
    if b != [] {
      var b' := b[..|b| - 1];
      assert (a + b)[..|a + b| - 1] == a + b';
      OksAppend(a, b');
    } else {
      assert a + b == a;
    }
  }

  lemma {:induction false} ConcatAppend<T>(a: seq<seq<T>>, b: seq<seq<T>>)
    ensures Concat(a + b) == Concat(a) + Concat(b)
  {
    if b != [] {
      var b' := b[..|b| - 1];
      assert (a + b)[..|a + b| - 1] == a + b';
      ConcatAppend(a, b');
    } else {
      assert a + b == a;
    }
  }

  /**
   * The records are the concatenation, chunk by chunk, of what each chunk gives:
   * those before chunk k, then chunk k's own items (if it succeeded), then those after.
   */
  lemma ItemsAround<T>(outs: seq<Result<seq<T>, ChunkError>>, k: nat)
    requires k < |outs|
    ensures Items(outs) ==
      Items(outs[..k]) + (if outs[k].Ok? then outs[k].value else []) + Items(outs[k + 1..])
  {
    assert outs == outs[..k] + [outs[k]] + outs[k + 1..];
    OksAppend(outs[..k] + [outs[k]], outs[k + 1..]);
    OksAppend(outs[..k], [outs[k]]);
    assert [outs[k]][..0] == [];
    ConcatAppend(Oks(outs[..k]) + Oks([outs[k]]), Oks(outs[k + 1..]));
    ConcatAppend(Oks(outs[..k]), Oks([outs[k]]));
    if outs[k].Ok? {
      assert Concat(Oks([outs[k]])) == Concat([outs[k].value]);
      assert [outs[k].value][..0] == [];
    }
  }
}
