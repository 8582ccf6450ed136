/**
 Submitting a fetched stream of blocks to the worker pool: the stream is taken in chunks of fifty,
 and both the loop over chunks and the loop inside a chunk stop at the first error.
 */
module BlockSubmission {
  import opened Outcomes

  const CHUNK_SIZE := 50

  type Reason = string

  /**
   A stream element: a block, with the answer the pool will give if it is submitted, or an error.
   */
  datatype Element = Block(number: int, reply: Result<(), Reason>) | StreamError(reason: Reason)

  /** The result of a reduce, and the blocks the pool has accepted by then, in order. */
  datatype Submission = Submission(result: Result<(), Reason>, accepted: seq<int>)

  // ---------------------------------------------------------------- operations

  /** The early-halting reduce over one batch. */
  function SubmitBlocksBatch(blocks: seq<Element>): Submission {
    if blocks == [] then Submission(Ok(()), [])
    else
      match blocks[0]
      case StreamError(reason) => Submission(Err(reason), [])
      case Block(number, Err(reason)) => Submission(Err(reason), [])
      case Block(number, Ok(_)) =>
        var rest := SubmitBlocksBatch(blocks[1..]);
        rest.(accepted := [number] + rest.accepted)
  }

  function ChunkEvery(stream: seq<Element>, size: int): seq<seq<Element>>
    requires size > 0
  {
    if stream == [] then []
    else if |stream| <= size then [stream]
    else [stream[..size]] + ChunkEvery(stream[size..], size)
  }

  /** The early-halting reduce over the chunks. */
  function SubmitChunks(chunks: seq<seq<Element>>): Submission {
    if chunks == [] then Submission(Ok(()), [])
    else
      var batch := SubmitBlocksBatch(chunks[0]);
      if batch.result.Err? then batch
      else
        var rest := SubmitChunks(chunks[1..]);
        rest.(accepted := batch.accepted + rest.accepted)
  }

  function ProcessBlockStream(stream: seq<Element>): Submission {
    SubmitChunks(ChunkEvery(stream, CHUNK_SIZE))
  }

  // ---------------------------------------------------------------- what it does

  predicate Good(e: Element) {
    e.Block? && e.reply.Ok?
  }

  function ReasonOf(e: Element): Reason
    requires !Good(e)
  {
    if e.StreamError? then e.reason else e.reply.error
  }

  /**
   What a submission has to be: it takes exactly the elements before the first bad one, and reports
   that one's reason, or success when there is none.
   */
  ghost predicate SubmitsGoodPrefix(stream: seq<Element>, s: Submission) {
    var k := |s.accepted|;
    && k <= |stream|
    && (forall i | 0 <= i < k :: Good(stream[i]) && s.accepted[i] == stream[i].number)
    && (if k == |stream| then s.result == Ok(())
        else !Good(stream[k]) && s.result == Err(ReasonOf(stream[k])))
  }

  lemma GoodPrefixIsUnique(stream: seq<Element>, s: Submission, t: Submission)
    requires SubmitsGoodPrefix(stream, s) && SubmitsGoodPrefix(stream, t)
    ensures s == t
  {
    assert |s.accepted| == |t.accepted|;
    assert s.accepted == t.accepted;
  }

  lemma {:induction false} BatchSubmitsGoodPrefix(stream: seq<Element>)
    ensures SubmitsGoodPrefix(stream, SubmitBlocksBatch(stream))
  {
    if stream != [] && Good(stream[0]) {
      BatchSubmitsGoodPrefix(stream[1..]);
      var s, rest := SubmitBlocksBatch(stream), SubmitBlocksBatch(stream[1..]);
      forall i | 0 <= i < |s.accepted| ensures Good(stream[i]) && s.accepted[i] == stream[i].number {
        if i > 0 { assert stream[i] == stream[1..][i - 1] && Good(stream[1..][i - 1]); }
      }
    }
  }

  /** Submitting a concatenation is submitting its parts, the second only after a clean first. */
  lemma {:induction false} BatchOfConcat(a: seq<Element>, b: seq<Element>)
    ensures var first := SubmitBlocksBatch(a);
      SubmitBlocksBatch(a + b) ==
      if first.result.Err? then first
      else SubmitBlocksBatch(b).(accepted := first.accepted + SubmitBlocksBatch(b).accepted)
  {
    if a == [] {
      assert a + b == b;
      assert [] + SubmitBlocksBatch(b).accepted == SubmitBlocksBatch(b).accepted;
    } else {
      assert (a + b)[1..] == a[1..] + b;
      BatchOfConcat(a[1..], b);
    }
  }

  lemma {:induction false} ChunkedIsFlat(stream: seq<Element>, size: int)
    requires size > 0
    ensures SubmitChunks(ChunkEvery(stream, size)) == SubmitBlocksBatch(stream)
  {
    if |stream| > size {
      ChunkedIsFlat(stream[size..], size);
      assert stream == stream[..size] + stream[size..];
      BatchOfConcat(stream[..size], stream[size..]);
    } else if stream != [] {
      var batch := SubmitBlocksBatch(stream);
      BatchSubmitsGoodPrefix(stream);
      assert ChunkEvery(stream, size) == [stream] && [stream][1..] == [];
      assert SubmitChunks([]) == Submission(Ok(()), []);
      assert batch.accepted + [] == batch.accepted;
    }
  }

  /**
   Chunking makes no difference: the nested halting loops submit, and answer, exactly what one pass
   over the whole stream does, namely the blocks before the first bad element.
   */
  lemma StreamSubmitsGoodPrefix(stream: seq<Element>)
    ensures SubmitsGoodPrefix(stream, ProcessBlockStream(stream))
    ensures ProcessBlockStream(stream) == SubmitBlocksBatch(stream)
    ensures ProcessBlockStream(stream).result.Ok? <==> forall e | e in stream :: e.Block? && e.reply.Ok?
  {
    ChunkedIsFlat(stream, CHUNK_SIZE);
    BatchSubmitsGoodPrefix(stream);
    var k := |ProcessBlockStream(stream).accepted|;
    assert k < |stream| ==> stream[k] in stream;
    assert k == |stream| ==> forall e | e in stream :: Good(e);
  }
}
