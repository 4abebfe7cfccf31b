/**
 From a client's requests to their dispatch: the frames a client builds, however they are cut
 into writes, come out of ingestion one by one, validate, and walk back to their messages.
 */
module ClientStream {
  import opened Bytes
  import opened Wire
  import opened Ingest
  import opened Chunking
  import opened SessionBuffer

  datatype Request = Request(frameId: nat, msgType: nat, msgId: nat, payload: seq<Byte>)

  /** The fields fit the wire and the message its limit. */
  predicate Proper(r: Request) {
    r.frameId < U32 && r.msgType < U16 && r.msgId < U32 && MSG_HEADER_BYTES + |r.payload| <= MAX_MSG_BYTES
  }

  predicate AllProper(reqs: seq<Request>) {
    forall i | 0 <= i < |reqs| :: Proper(reqs[i])
  }

  function FrameOf(r: Request): seq<Byte>
    requires Proper(r)
  {
    Build(r.frameId, r.msgType, r.msgId, r.payload)
  }

  function FramesOf(reqs: seq<Request>): seq<seq<Byte>>
    requires AllProper(reqs)
  {
    seq(|reqs|, i requires 0 <= i < |reqs| => FrameOf(reqs[i]))
  }

  /** The frame is accepted, and what is dispatched from it is the one request. */
  predicate Dispatches(f: seq<Byte>, r: Request) {
    && Validate(f).Valid?
    && var hdr := Validate(f).hdr;
       && hdr.frameId == r.frameId && hdr.frameBytes == |f|
       && var w := Walk(f, HEADER_BYTES, hdr.frameBytes);
          && w.stop == Finished && |w.msgs| == 1
          && w.msgs[0].hdr.msgType == r.msgType && w.msgs[0].hdr.msgId == r.msgId && w.msgs[0].payload == r.payload
  }

  /** Every built frame of at most 1 MiB is recognised as exactly itself, whatever its id, type and payload. */
  lemma BuiltIsWhole(frameId: nat, msgType: nat, msgId: nat, payload: seq<Byte>)
    requires Sendable(frameId, msgType, msgId, payload)
    requires |Build(frameId, msgType, msgId, payload)| <= MAX_FRAME_BYTES
    ensures Whole(Build(frameId, msgType, msgId, payload))
  {
    BuildHoldsHeader(frameId, msgType, msgId, payload);
    FrameLengthIsAligned(frameId, payload);
  }

  lemma RequestDispatches(r: Request)
    requires Proper(r)
    ensures Whole(FrameOf(r)) && Dispatches(FrameOf(r), r)
  {
    BuiltIsWhole(r.frameId, r.msgType, r.msgId, r.payload);
    BuildRoundTrips(r.frameId, r.msgType, r.msgId, r.payload);
  }

  lemma RequestsParse(reqs: seq<Request>, tail: seq<Byte>)
    requires AllProper(reqs) && HeadOf(tail).NeedMore?
    ensures Parse(Flatten(FramesOf(reqs)) + tail) == Parsed(FramesOf(reqs), tail, true)
  {
    var frames := FramesOf(reqs);
    forall f | f in frames
      ensures Whole(f)
    {
      var i :| 0 <= i < |frames| && frames[i] == f;
      RequestDispatches(reqs[i]);
    }
    WholeFramesParse(frames, tail);
    StreamIsFlatten(frames, tail);
  }

  /** However the stream of requests is cut into writes, each comes out as its frame and dispatches as itself. */
  lemma RequestsSurviveAnyChunking(reqs: seq<Request>, tail: seq<Byte>, writes: seq<seq<Byte>>)
    requires AllProper(reqs) && HeadOf(tail).NeedMore? && Flatten(writes) == Flatten(FramesOf(reqs)) + tail
    ensures Feed(writes) == Parsed(FramesOf(reqs), tail, true)
    ensures forall i | 0 <= i < |reqs| :: Dispatches(Feed(writes).frames[i], reqs[i])
  {
    RequestsParse(reqs, tail);
    ChunkingDoesNotMatter(writes);
    forall i | 0 <= i < |reqs|
      ensures Dispatches(FramesOf(reqs)[i], reqs[i])
    {
      RequestDispatches(reqs[i]);
    }
  }

  /** The same through the session buffer: a client writes its requests in pieces. */
  method SendRequests(b: InBuf, ghost reqs: seq<Request>, ghost tail: seq<Byte>, writes: seq<seq<Byte>>)
    requires b.Valid() && b.Contents() == [] && b.frames == [] && Paced(writes)
    requires AllProper(reqs) && HeadOf(tail).NeedMore? && Flatten(writes) == Flatten(FramesOf(reqs)) + tail
    modifies b, b.inbuf
    ensures b.Valid() && b.frames == FramesOf(reqs) && b.Contents() == tail
  {
    RequestsParse(reqs, tail);
    SendAll(b, writes);
  }
}
