/**
 What concurrent ingestion extracts, compared with one-shot parsing of everything appended.
 */
module IngestParse {
  import opened Bytes
  import opened Wire
  import opened Ingest
  import opened Chunking

  // ------------------------------------------------------------------------------------
  // One extraction.
  // ------------------------------------------------------------------------------------

  /** The re-check after the unlocked allocation passed. */
  predicate Succeeds(s: State, t: nat, staleMatch: bool)
    requires Enabled(s, t, Extract(staleMatch)) && |s.threads[t].hdr| == HEADER_BYTES
  {
    |s.buf| >= s.threads[t].n && HeaderUnchanged(s.buf, s.threads[t].hdr, staleMatch)
  }

  /**
   An extraction takes the frame that parsing sees at the head exactly if the buffer still
   holds a whole header. Otherwise the comparison reads past the buffered bytes, and a frame
   of 4, 8 or 12 bytes goes through that parsing would wait for.
   */
  lemma ExtractionAgreesIffHeaderBuffered(s: State, t: nat, staleMatch: bool)
    requires Inv(s) && Enabled(s, t, Extract(staleMatch))
    ensures |s.threads[t].hdr| == HEADER_BYTES
    ensures Succeeds(s, t, staleMatch) ==> (HeadOf(s.buf) == Frame(s.threads[t].n) <==> |s.buf| >= HEADER_BYTES)
  {
    var w := s.threads[t];
    assert ThreadOk(w);
    if Succeeds(s, t, staleMatch) && |s.buf| >= HEADER_BYTES {
      assert w.hdr[..HEADER_BYTES] == w.hdr;
      SameHeader(s.buf, w.hdr);
    }
  }

  // ------------------------------------------------------------------------------------
  // Peeling frames off the front of a stream.
  // ------------------------------------------------------------------------------------

  /** Parsing the stream takes exactly these frames first. */
  predicate Peels(stream: seq<Byte>, frames: seq<seq<Byte>>)
    decreases |frames|
  {
    frames == [] ||
    (HeadOf(stream) == Frame(|frames[0]|) && stream[..|frames[0]|] == frames[0] && Peels(stream[|frames[0]|..], frames[1..]))
  }

  function Rest(stream: seq<Byte>, frames: seq<seq<Byte>>): seq<Byte>
    requires Peels(stream, frames)
    decreases |frames|
  {
    if frames == [] then stream else Rest(stream[|frames[0]|..], frames[1..])
  }

  lemma {:induction false} PeelsExtend(stream: seq<Byte>, frames: seq<seq<Byte>>, more: seq<Byte>)
    requires Peels(stream, frames)
    ensures Peels(stream + more, frames) && Rest(stream + more, frames) == Rest(stream, frames) + more
    decreases |frames|
  {
    if frames != [] {
      var n := |frames[0]|;
      HeadIsStable(stream, more);
      assert (stream + more)[..n] == stream[..n] && (stream + more)[n..] == stream[n..] + more;
      PeelsExtend(stream[n..], frames[1..], more);
    }
  }

  lemma {:induction false} PeelsSnoc(stream: seq<Byte>, frames: seq<seq<Byte>>, n: nat)
    requires Peels(stream, frames) && HeadOf(Rest(stream, frames)) == Frame(n)
    ensures var more := frames + [Rest(stream, frames)[..n]];
            Peels(stream, more) && Rest(stream, more) == Rest(stream, frames)[n..]
    decreases |frames|
  {
    var last := Rest(stream, frames)[..n];
    if frames == [] {
      assert (frames + [last])[1..] == [];
      assert Peels(stream[n..], []);
    } else {
      PeelsSnoc(stream[|frames[0]|..], frames[1..], n);
      assert (frames + [last])[1..] == frames[1..] + [last];
    }
  }

  /** One-shot parsing gives the peeled frames and then whatever parsing the rest gives. */
  lemma {:induction false} PeelsParse(stream: seq<Byte>, frames: seq<seq<Byte>>)
    requires Peels(stream, frames)
    ensures Parse(stream) == Prepend(frames, Parse(Rest(stream, frames)))
    decreases |frames|
  {
    if frames == [] {
      assert [] + Parse(stream).frames == Parse(stream).frames;
    } else {
      var first, rest := frames[0], frames[1..];
      assert frames == [first] + rest;
      ParseTakesFrame(stream, |first|);
      PeelsParse(stream[|first|..], rest);
      PrependTwice(first, rest, Parse(Rest(stream, frames)));
    }
  }

  // ------------------------------------------------------------------------------------
  // Whole runs.
  // ------------------------------------------------------------------------------------

  /** Nothing was discarded, and every extracted frame is at least a header long. */
  predicate Regular(out: seq<Chunk>) {
    forall i | 0 <= i < |out| :: out[i].Extracted? && |out[i].bytes| >= HEADER_BYTES
  }

  function FramesOf(out: seq<Chunk>): seq<seq<Byte>> {
    seq(|out|, i requires 0 <= i < |out| => out[i].bytes)
  }

  ghost predicate Agrees(s: State) {
    Regular(s.out) ==> Peels(s.appended, FramesOf(s.out)) && Rest(s.appended, FramesOf(s.out)) == s.buf
  }

  lemma AppendAgrees(s: State, t: nat, data: seq<Byte>, cap: nat)
    requires Agrees(s)
    ensures Agrees(Append(s, t, data, cap))
  {
    if Regular(s.out) {
      PeelsExtend(s.appended, FramesOf(s.out), data);
    }
  }

  lemma DropAgrees(s: State, t: nat)
    ensures Agrees(Drop(s, t))
  {
    assert Drop(s, t).out[|s.out|].Dropped?;
  }

  lemma ExtractAgrees(s: State, t: nat, staleMatch: bool)
    requires Inv(s) && Agrees(s) && Enabled(s, t, Extract(staleMatch)) && |s.threads[t].hdr| == HEADER_BYTES
    requires Succeeds(s, t, staleMatch)
    ensures Agrees(Ingest.Apply(s, t, Extract(staleMatch)))
  {
    var w := s.threads[t];
    var chunk := Extracted(w.hdr, s.buf[..w.n]);
    RegularSnoc(s.out, chunk);
    if Regular(s.out + [chunk]) {
      ExtractionAgreesIffHeaderBuffered(s, t, staleMatch);
      PeelsSnoc(s.appended, FramesOf(s.out), w.n);
    }
  }

  lemma RegularSnoc(out: seq<Chunk>, c: Chunk)
    ensures Regular(out + [c]) ==> Regular(out) && c.Extracted? && |c.bytes| >= HEADER_BYTES
    ensures FramesOf(out + [c]) == FramesOf(out) + [c.bytes]
  {
    var all := out + [c];
    assert all[|out|] == c && forall i | 0 <= i < |out| :: all[i] == out[i];
  }

  lemma StepAgrees(s: State, t: nat, step: Step)
    requires Inv(s) && Agrees(s) && Enabled(s, t, step)
    requires step.Extract? ==> |s.threads[t].hdr| == HEADER_BYTES
    ensures Agrees(Ingest.Apply(s, t, step))
  {
    match step
    case TakeLock =>
      var w := s.threads[t];
      DropAgrees(s, t);
      AppendAgrees(s, t, w.data, s.cap);
      AppendAgrees(s, t, w.data, w.newcap);
    case Scan => DropAgrees(s, t);
    case Extract(m) =>
      if Succeeds(s, t, m) {
        ExtractAgrees(s, t, m);
      }
    case _ =>
  }

  lemma {:induction false} RunAgrees(s: State, moves: seq<Move>)
    requires Inv(s) && Agrees(s) && Legal(s, moves)
    ensures Agrees(Run(s, moves))
    decreases |moves|
  {
    if moves != [] {
      StepKeepsInv(s, moves[0].thread, moves[0].step);
      StepAgrees(s, moves[0].thread, moves[0].step);
      RunAgrees(Ingest.Apply(s, moves[0].thread, moves[0].step), moves[1..]);
    }
  }

  /**
   In every interleaving of any number of writers in which nothing is discarded and every
   frame is at least a header long: the extracted frames, followed by what parsing the buffer
   would still give, are the frames of parsing everything appended in one go.
   */
  lemma RacesAgreeWithParser(moves: seq<Move>)
    requires Legal(INIT, moves) && Regular(Run(INIT, moves).out)
    ensures var s := Run(INIT, moves); Parse(s.appended) == Prepend(FramesOf(s.out), Parse(s.buf))
  {
    RunAgrees(INIT, moves);
    var s := Run(INIT, moves);
    PeelsParse(s.appended, FramesOf(s.out));
  }

  // ------------------------------------------------------------------------------------
  // A frame shorter than its header, extracted before parsing would see it.
  // ------------------------------------------------------------------------------------

  ghost predicate Reachable(s: State) {
    exists moves :: Legal(INIT, moves) && Run(INIT, moves) == s
  }

  lemma {:induction false} RunSnoc(s: State, moves: seq<Move>, m: Move)
    requires Legal(s, moves) && Legal(Run(s, moves), [m])
    ensures Legal(s, moves + [m]) && Run(s, moves + [m]) == Run(Run(s, moves), [m])
    decreases |moves|
  {
    if moves == [] {
      assert moves + [m] == [m];
    } else {
      assert (moves + [m])[0] == moves[0] && (moves + [m])[1..] == moves[1..] + [m];
      RunSnoc(Ingest.Apply(s, moves[0].thread, moves[0].step), moves[1..], m);
    }
  }

  lemma Play(s: State, t: nat, step: Step) returns (u: State)
    requires Reachable(s) && Enabled(s, t, step) && s.cap > 0 && (step.Extract? ==> |s.threads[t].hdr| == HEADER_BYTES)
    ensures u == Ingest.Apply(s, t, step) && Reachable(u)
  {
    u := Ingest.Apply(s, t, step);
    var moves :| Legal(INIT, moves) && Run(INIT, moves) == s;
    var m := Move(t, step);
    assert [m][1..] == [] && Legal(u, []);
    assert Legal(s, [m]) && Run(s, [m]) == u;
    RunSnoc(INIT, moves, m);
  }

  const TINY := FrameHdr(MAGIC, VERSION, HEADER_BYTES, 4, 0)

  /** There is such a frame. */
  lemma TinyHead(hdr: seq<Byte>)
    requires hdr == PutFrameHdr(TINY)
    ensures Tiny(hdr)
  {
    FrameHdrRoundTrip(TINY, []);
    assert hdr + [] == hdr;
  }

  predicate Tiny(hdr: seq<Byte>) {
    |hdr| == HEADER_BYTES && HeadOf(hdr) == Frame(4)
  }

  lemma Held(hdr: seq<Byte>) returns (s: State)
    requires Tiny(hdr)
    ensures Reachable(s) && s == INIT.(buf := hdr, appended := hdr, threads := map[0 := Holding(hdr, 4)])
  {
    assert hdr[..HEADER_BYTES] == hdr && [] + hdr == hdr;
    assert Legal(INIT, []) && Run(INIT, []) == INIT;
    s := Play(INIT, 0, Write(hdr));
    s := Play(s, 0, TakeLock);
    s := Play(s, 0, Scan);
  }

  /** A thread holds a four-byte frame while another writer's overflow discards the buffer. */
  lemma HeldThroughAReset(hdr: seq<Byte>) returns (s: State)
    requires Tiny(hdr)
    ensures Reachable(s) && s.buf == [] && s.cap == INITIAL_CAP && s.threads == map[0 := Holding(hdr, 4)]
  {
    s := Held(hdr);
    s := Play(s, 1, Write(Zeros(MAX_FRAME_BYTES)));
    s := Play(s, 1, TakeLock);
    assert s.threads == map[0 := Holding(hdr, 4)];
  }

  /** Four bytes of a header arrive; behind them the buffer still has the old ones, and the held frame goes through. */
  lemma TinyFrameExtractedEarly(hdr: seq<Byte>) returns (s: State, u: State)
    requires Tiny(hdr)
    ensures Reachable(s) && s.buf == hdr[..4] && HeadOf(s.buf).NeedMore?
    ensures Reachable(u) && u.buf == [] && u.out == s.out + [Extracted(hdr, hdr[..4])]
  {
    s := HeldThroughAReset(hdr);
    s := Play(s, 2, Write(hdr[..4]));
    s := Play(s, 2, TakeLock);
    assert [] + hdr[..4] == hdr[..4];
    u := Play(s, 0, Extract(true));
  }
}
