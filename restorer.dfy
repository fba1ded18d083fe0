/**
 * The restore call: one `POST /v1/product/unarchive` per chunk of product
 * identifiers. A chunk whose reply has status 200 and a decodable body counts
 * as restored as a whole; the body is kept as it came, without looking inside.
 * `reply(k)` is what request number k (from 0) got back.
 */
module Restorer {
  import opened Wrappers
  import opened Chunking
  import opened Batches

  datatype Body<B> = Undecodable | Decoded(value: B)

  datatype Reply<B> = Raised | Responded(status: int, body: Body<B>)

  /** What one restore chunk contributes: its decoded reply body, or one error. */
  function RestoreOutcome<B>(reply: Reply<B>): (r: Result<B, ChunkError>)
    ensures r.Ok? <==> reply.Responded? && reply.status == 200 && reply.body.Decoded?
    ensures r.Ok? ==> r.value == reply.body.value
    ensures r.Err? ==> r.error != MissingItems
    ensures reply.Responded? && reply.status != 200 ==> r == Err(HttpStatus(reply.status))
    ensures reply.Raised? ==> r == Err(Exception)
    ensures reply == Responded(200, Undecodable) ==> r == Err(Exception)
  {
    match reply
    case Raised => Err(Exception)
    case Responded(status, body) =>
      if status != 200 then Err(HttpStatus(status))
      else
        match body
        case Undecodable => Err(Exception)
        case Decoded(b) => Ok(b)
  }

  function RestoreOutcomes<I, B>(productIds: seq<I>, reply: nat -> Reply<B>): (outs: seq<Result<B, ChunkError>>)
    ensures |outs| == |Chunks(productIds)|
    ensures forall k :: 0 <= k < |outs| ==> outs[k] == RestoreOutcome(reply(k))
  {
    seq(|Chunks(productIds)|, k requires 0 <= k < |Chunks(productIds)| => RestoreOutcome(reply(k)))
  }

  /**
   * `unarchive_products`: every chunk is requested whatever happened to the
   * earlier ones; `sent` is the payloads posted, in order.
   */
  method UnarchiveProducts<I, B>(productIds: seq<I>, reply: nat -> Reply<B>)
    returns (sent: seq<seq<I>>, results: seq<B>, errors: seq<ChunkError>)
    ensures sent == Chunks(productIds)
    ensures results == Oks(RestoreOutcomes(productIds, reply))
    ensures errors == Errors(RestoreOutcomes(productIds, reply))
  {
    ghost var outs := RestoreOutcomes(productIds, reply);
    sent, results, errors := [], [], [];
    var i := 0;
    ghost var k := 0;
    while i < |productIds|
      invariant i == ChunkSize * k && k <= |Chunks(productIds)|
      invariant sent == Chunks(productIds)[..k]
      invariant results == Oks(outs[..k])
      invariant errors == Errors(outs[..k])
    {
      ChunkIndexInRange(productIds, k);
      ChunkAt(productIds, k);
      var chunk := productIds[i..Min(i + ChunkSize, |productIds|)];
      assert Chunks(productIds)[..k + 1] == Chunks(productIds)[..k] + [chunk];
      sent := sent + [chunk];
      StepChunk(outs, k);
      assert i / ChunkSize == k;
      match reply(i / ChunkSize) {
        case Raised =>
          errors := errors + [Exception];
        case Responded(status, body) =>
          if status != 200 {
            errors := errors + [HttpStatus(status)];
          } else if body.Undecodable? {
            errors := errors + [Exception];
          } else {
            results := results + [body.value];
          }
      }
      i := i + ChunkSize;
      k := k + 1;
    }
    ChunkIndexInRange(productIds, k);
    assert outs[..k] == outs;
  }
}
