/**
 * The product lookup: one `POST /v3/product/info/list` per chunk of offer
 * identifiers, each reply turned into records or one error entry.
 * The network is an oracle: `reply(k)` is what request number k (from 0) got back.
 */
module Fetcher {
  import opened Wrappers
  import opened Chunking
  import opened Batches

  /** The `result` key of a decoded reply body. */
  datatype ResultField<P> = ResultAbsent | ResultNotObject | ResultObject(items: Option<seq<P>>)

  /** A reply body: not valid JSON, JSON that is not an object, or an object with its `items` and `result` keys. */
  datatype Body<P> = Undecodable | BodyNotObject | BodyObject(items: Option<seq<P>>, result: ResultField<P>)

  /** What one request ends with: an exception (timeout, connection failure, ...) or an HTTP status and body. */
  datatype Reply<P> = Raised | Responded(status: int, body: Body<P>)

  /** The records a reply with an object body provides, if any. */
  predicate HasItems<P>(reply: Reply<P>) {
    reply.Responded? && reply.status == 200 && reply.body.BodyObject? &&
    (reply.body.items.Some? || (reply.body.result.ResultObject? && reply.body.result.items.Some?))
  }

  /**
   * What one chunk contributes. Only status 200 succeeds; top-level `items` wins
   * over `result.items`; a body with neither is a structural error.
   */
  function FetchOutcome<P>(reply: Reply<P>): (r: Result<seq<P>, ChunkError>)
    ensures r.Ok? <==> HasItems(reply)
    ensures r.Ok? && reply.body.items.Some? ==> r.value == reply.body.items.value
    ensures r.Ok? && reply.body.items.None? ==> r.value == reply.body.result.items.value
    ensures reply.Responded? && reply.status != 200 ==> r == Err(HttpStatus(reply.status))
    ensures r == Err(MissingItems) <==>
      reply.Responded? && reply.status == 200 && reply.body.BodyObject? && reply.body.items.None? &&
      (reply.body.result.ResultAbsent? || reply.body.result == ResultObject(None))
    ensures reply.Raised? ==> r == Err(Exception)
    ensures reply == Responded(200, Undecodable) ==> r == Err(Exception)
    ensures reply == Responded(200, BodyNotObject) ==> r == Err(Exception)
    ensures reply.Responded? && reply.status == 200 && reply.body == BodyObject(None, ResultNotObject) ==>
      r == Err(Exception)
  {
    match reply
    case Raised => Err(Exception)
    case Responded(status, body) =>
      if status != 200 then Err(HttpStatus(status))
      else
        match body
        case Undecodable => Err(Exception)
        case BodyNotObject => Err(Exception)
        case BodyObject(Some(xs), _) => Ok(xs)
        case BodyObject(None, ResultAbsent) => Err(MissingItems)
        case BodyObject(None, ResultNotObject) => Err(Exception)
        case BodyObject(None, ResultObject(Some(xs))) => Ok(xs)
        case BodyObject(None, ResultObject(None)) => Err(MissingItems)
  }

  /** The outcome of every chunk of `ids`, in request order. */
  function FetchOutcomes<P>(ids: seq<string>, reply: nat -> Reply<P>): (outs: seq<Result<seq<P>, ChunkError>>)
    ensures |outs| == |Chunks(ids)|
    ensures forall k :: 0 <= k < |outs| ==> outs[k] == FetchOutcome(reply(k))
  {
    seq(|Chunks(ids)|, k requires 0 <= k < |Chunks(ids)| => FetchOutcome(reply(k)))
  }

  /**
   * `get_products_info`: every chunk is requested whatever happened to the
   * earlier ones; `sent` is the payloads posted, in order.
   */
  method GetProductsInfo<P>(ids: seq<string>, reply: nat -> Reply<P>)
    returns (sent: seq<seq<string>>, results: seq<P>, errors: seq<ChunkError>)
    ensures sent == Chunks(ids)
    ensures results == Items(FetchOutcomes(ids, reply))
    ensures errors == Errors(FetchOutcomes(ids, reply))
  {
    ghost var outs := FetchOutcomes(ids, reply);
    sent, results, errors := [], [], [];
    var i := 0;
    ghost var k := 0;
    while i < |ids|
      invariant i == ChunkSize * k && k <= |Chunks(ids)|
      invariant sent == Chunks(ids)[..k]
      invariant results == Items(outs[..k])
      invariant errors == Errors(outs[..k])
    {
      ChunkIndexInRange(ids, k);
      ChunkAt(ids, k);
      var chunk := ids[i..Min(i + ChunkSize, |ids|)];
      assert Chunks(ids)[..k + 1] == Chunks(ids)[..k] + [chunk];
      sent := sent + [chunk];
      StepChunk(outs, k);
      StepItems(outs, k);
      assert i / ChunkSize == k;
      match reply(i / ChunkSize) {
      case Raised =>
        errors := errors + [Exception];
      case Responded(status, body) =>
        if status != 200 {
          errors := errors + [HttpStatus(status)];
        } else {
          match body
          case Undecodable =>
            errors := errors + [Exception];
          case BodyNotObject =>
            errors := errors + [Exception];
          case BodyObject(top, result) =>
            var items := top;
            var raised := false;
            if items.None? {
              match result
              case ResultAbsent =>
              case ResultNotObject => raised := true;
              case ResultObject(inner) => items := inner;
            }
            if raised {
              errors := errors + [Exception];
            } else if items.Some? {
              results := results + items.value;
            } else {
              errors := errors + [MissingItems];
            }
        }
      }
      i := i + ChunkSize;
      k := k + 1;
    }
    ChunkIndexInRange(ids, k);
    assert outs[..k] == outs;
  }

  /** When every request is refused, nothing is fetched and every chunk leaves one error. */
  lemma {:induction false} AllChunksRejected<P>(outs: seq<Result<seq<P>, ChunkError>>)
    requires forall k :: 0 <= k < |outs| ==> outs[k].Err?
    ensures Items(outs) == [] && |Errors(outs)| == |outs|
  {
    if outs != [] {
      AllChunksRejected(outs[..|outs| - 1]);
    }
  }
}
