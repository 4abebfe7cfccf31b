/**
 Byte-stream ingestion of a drawfs session. Any number of threads write to one session; the
 session lock is dropped around every allocation, so each call re-checks what it saw: the
 grow loop of ingest_bytes and the extract loop of try_process_inbuf, one step per lock hold.
 */
module Ingest {
  import opened Bytes
  import opened Wire

  const INITIAL_CAP: nat := 4096

  /** What the bytes at the head of the buffer amount to. */
  datatype Head = NeedMore | Bad | Frame(n: nat)

  /** The checks of try_process_inbuf; the version is not among them. */
  predicate HeaderOk(fh: FrameHdr) {
    && fh.magic == MAGIC && fh.headerBytes == HEADER_BYTES
    && 0 < fh.frameBytes <= MAX_FRAME_BYTES && fh.frameBytes % 4 == 0
  }

  function HeadOf(buf: seq<Byte>): (h: Head)
    ensures h.Frame? ==> 4 <= h.n <= |buf| && h.n <= MAX_FRAME_BYTES && |buf| >= HEADER_BYTES
                         && h.n == GetFrameHdr(buf).frameBytes
  {
    if |buf| < HEADER_BYTES then NeedMore
    else
      var fh := GetFrameHdr(buf);
      if !HeaderOk(fh) then Bad else if |buf| < fh.frameBytes then NeedMore else Frame(fh.frameBytes)
  }

  /** The answers at the byte fields: magic, header size, and length between 1 and 1 MiB in multiples of four. */
  lemma HeadAtBytes(buf: seq<Byte>)
    ensures var bad := |buf| >= 16 && (Get32(buf, 0) != 0x31575244 || Get16(buf, 6) != 16 || Get32(buf, 8) == 0
                                       || Get32(buf, 8) > 1048576 || Get32(buf, 8) % 4 != 0);
            var short := |buf| < 16 || (!bad && |buf| < Get32(buf, 8));
            && (HeadOf(buf).Bad? <==> bad)
            && (HeadOf(buf).NeedMore? <==> short)
            && (HeadOf(buf).Frame? ==> HeadOf(buf).n == Get32(buf, 8))
  {
  }

  /** ingest_bytes doubles the capacity until the need fits, and clamps at the frame limit. */
  function NewCap(cap: nat, need: nat): nat
    requires cap > 0
    decreases need - cap
  {
    if cap >= need then Min(cap, MAX_FRAME_BYTES) else NewCap(2 * cap, need)
  }

  /** A thread inside write(2). `newcap` is the size of the buffer it has allocated, 0 if none. */
  datatype Thread =
    | Ingesting(data: seq<Byte>, newcap: nat, allocs: nat)
    | Processing
    | Holding(hdr: seq<Byte>, n: nat)
    | Dispatching

  /** What left the buffer: an extracted frame with the header it was recognised by, or bytes a reset discarded. */
  datatype Chunk = Extracted(hdr: seq<Byte>, bytes: seq<Byte>) | Dropped(bytes: seq<Byte>)

  datatype State = State(buf: seq<Byte>, cap: nat, threads: map<nat, Thread>, appended: seq<Byte>, out: seq<Chunk>)

  const INIT := State([], INITIAL_CAP, map[], [], [])

  /**
   `staleMatch` decides the header comparison where it reaches past in_len: those bytes are
   whatever the buffer held before.
   */
  datatype Step =
    | Write(data: seq<Byte>)
    | TakeLock
    | Scan
    | Extract(staleMatch: bool)
    | Dispatched(more: bool)

  predicate Enabled(s: State, t: nat, step: Step) {
    match step
    case Write(data) => t !in s.threads && 0 < |data| <= MAX_FRAME_BYTES
    case TakeLock => t in s.threads && s.threads[t].Ingesting?
    case Scan => t in s.threads && s.threads[t].Processing?
    case Extract(_) => t in s.threads && s.threads[t].Holding?
    case Dispatched(_) => t in s.threads && s.threads[t].Dispatching?
  }

  predicate HeaderUnchanged(buf: seq<Byte>, hdr: seq<Byte>, staleMatch: bool)
    requires |hdr| == HEADER_BYTES
  {
    var seen := Min(|buf|, HEADER_BYTES);
    buf[..seen] == hdr[..seen] && (|buf| >= HEADER_BYTES || staleMatch)
  }

  function Append(s: State, t: nat, data: seq<Byte>, cap: nat): State {
    s.(buf := s.buf + data, cap := cap, appended := s.appended + data, threads := s.threads[t := Processing])
  }

  function Drop(s: State, t: nat): State {
    s.(out := s.out + [Dropped(s.buf)], buf := [], threads := s.threads - {t})
  }

  function Apply(s: State, t: nat, step: Step): State
    requires Enabled(s, t, step) && s.cap > 0
    requires step.Extract? ==> |s.threads[t].hdr| == HEADER_BYTES
  {
    match step
    case Write(data) => s.(threads := s.threads[t := Ingesting(data, 0, 0)])
    case TakeLock =>
      var w := s.threads[t];
      var need := |s.buf| + |w.data|;
      if need > MAX_FRAME_BYTES then Drop(s, t)
      else if need <= s.cap then Append(s, t, w.data, s.cap)
      else if w.newcap >= need then Append(s, t, w.data, w.newcap)
      else s.(threads := s.threads[t := Ingesting(w.data, NewCap(s.cap, need), w.allocs + 1)])
    case Scan =>
      (match HeadOf(s.buf)
       case NeedMore => s.(threads := s.threads - {t})
       case Bad => Drop(s, t)
       case Frame(n) => s.(threads := s.threads[t := Holding(s.buf[..HEADER_BYTES], n)]))
    case Extract(staleMatch) =>
      var w := s.threads[t];
      if |s.buf| >= w.n && HeaderUnchanged(s.buf, w.hdr, staleMatch)
      then s.(out := s.out + [Extracted(w.hdr, s.buf[..w.n])], buf := s.buf[w.n..],
              threads := s.threads[t := Dispatching])
      else s.(threads := s.threads[t := Processing])
    case Dispatched(more) =>
      s.(threads := if more then s.threads[t := Processing] else s.threads - {t})
  }

  // ------------------------------------------------------------------------------------
  // Capacities lie on a ladder of nine doublings.
  // ------------------------------------------------------------------------------------

  /** The rung of a capacity: how often 4096 was doubled. */
  function Rung(c: nat): nat {
    if c < 8192 then 0 else if c < 16384 then 1 else if c < 32768 then 2 else if c < 65536 then 3
    else if c < 131072 then 4 else if c < 262144 then 5 else if c < 524288 then 6 else if c < 1048576 then 7 else 8
  }

  predicate OnLadder(c: nat) {
    c in {4096, 8192, 16384, 32768, 65536, 131072, 262144, 524288, 1048576}
  }

  lemma {:induction false} NewCapClimbs(cap: nat, need: nat)
    requires OnLadder(cap) && need <= MAX_FRAME_BYTES
    ensures OnLadder(NewCap(cap, need)) && NewCap(cap, need) >= need && NewCap(cap, need) >= cap
    ensures forall c: nat | OnLadder(c) && c >= need && c >= cap :: NewCap(cap, need) <= c
    decreases MAX_FRAME_BYTES - cap
  {
    if cap < need {
      NewCapClimbs(2 * cap, need);
    }
  }

  // ------------------------------------------------------------------------------------
  // What every lock hold keeps.
  // ------------------------------------------------------------------------------------

  function BytesOf(c: Chunk): seq<Byte> {
    c.bytes
  }

  function Gone(out: seq<Chunk>): seq<Byte> {
    if out == [] then [] else Gone(out[..|out| - 1]) + BytesOf(out[|out| - 1])
  }

  lemma GoneSnoc(out: seq<Chunk>, c: Chunk)
    ensures Gone(out + [c]) == Gone(out) + BytesOf(c)
  {
    assert (out + [c])[..|out|] == out;
  }

  /** An extracted frame is exactly as long as the header it was recognised by, and starts with it. */
  ghost predicate ChunkOk(c: Chunk) {
    c.Extracted? ==>
      && |c.hdr| == HEADER_BYTES
      && |c.bytes| == GetFrameHdr(c.hdr).frameBytes >= 4
      && c.bytes[..Min(|c.bytes|, HEADER_BYTES)] == c.hdr[..Min(|c.bytes|, HEADER_BYTES)]
  }

  /** Each allocation climbed a rung, so there were at most eight. */
  predicate ThreadOk(w: Thread) {
    match w
    case Ingesting(data, newcap, allocs) =>
      && 0 < |data| <= MAX_FRAME_BYTES
      && (allocs == 0 <==> newcap == 0)
      && (allocs > 0 ==> OnLadder(newcap) && allocs <= Rung(newcap))
    case Holding(hdr, n) => |hdr| == HEADER_BYTES && HeaderOk(GetFrameHdr(hdr)) && n == GetFrameHdr(hdr).frameBytes
    case _ => true
  }

  ghost predicate ThreadsOk(threads: map<nat, Thread>) {
    forall t | t in threads :: ThreadOk(threads[t])
  }

  ghost predicate ChunksOk(out: seq<Chunk>) {
    forall c | c in out :: ChunkOk(c)
  }

  ghost predicate Conserved(s: State) {
    s.appended == Gone(s.out) + s.buf
  }

  ghost predicate Inv(s: State) {
    && Conserved(s)
    && |s.buf| <= s.cap && OnLadder(s.cap)
    && ChunksOk(s.out)
    && ThreadsOk(s.threads)
  }

  lemma DropConserves(s: State, t: nat)
    requires Conserved(s)
    ensures Conserved(Drop(s, t))
  {
    GoneSnoc(s.out, Dropped(s.buf));
  }

  lemma AppendConserves(s: State, t: nat, data: seq<Byte>, cap: nat)
    requires Conserved(s)
    ensures Conserved(Append(s, t, data, cap))
  {
    assert Gone(s.out) + s.buf + data == Gone(s.out) + (s.buf + data);
  }

  /** A buffer that is now too small is replaced by one at least a rung higher. */
  lemma GrowClimbs(cap: nat, need: nat, w: Thread)
    requires ThreadOk(w) && w.Ingesting? && OnLadder(cap)
    requires cap < need <= MAX_FRAME_BYTES && w.newcap < need
    ensures ThreadOk(Ingesting(w.data, NewCap(cap, need), w.allocs + 1))
  {
    NewCapClimbs(cap, need);
  }

  lemma TakeLockKeepsInv(s: State, t: nat)
    requires Inv(s) && Enabled(s, t, TakeLock)
    ensures Inv(Apply(s, t, TakeLock))
  {
    var w := s.threads[t];
    assert ThreadOk(w);
    var need := |s.buf| + |w.data|;
    if need > MAX_FRAME_BYTES {
      DropConserves(s, t);
    } else if need <= s.cap {
      AppendConserves(s, t, w.data, s.cap);
    } else if w.newcap >= need {
      AppendConserves(s, t, w.data, w.newcap);
    } else {
      GrowClimbs(s.cap, need, w);
    }
  }

  lemma ScanKeepsInv(s: State, t: nat)
    requires Inv(s) && Enabled(s, t, Scan)
    ensures Inv(Apply(s, t, Scan))
  {
    DropConserves(s, t);
    if HeadOf(s.buf).Frame? {
      SameHeader(s.buf, s.buf[..HEADER_BYTES]);
    }
  }

  lemma SameHeader(a: seq<Byte>, b: seq<Byte>)
    requires |a| >= HEADER_BYTES && |b| >= HEADER_BYTES && a[..HEADER_BYTES] == b[..HEADER_BYTES]
    ensures GetFrameHdr(a) == GetFrameHdr(b)
  {
    assert forall i | 0 <= i < HEADER_BYTES :: a[i] == a[..HEADER_BYTES][i] == b[..HEADER_BYTES][i] == b[i];
  }

  lemma ExtractedChunkOk(buf: seq<Byte>, w: Thread, staleMatch: bool)
    requires ThreadOk(w) && w.Holding? && |buf| >= w.n && HeaderUnchanged(buf, w.hdr, staleMatch)
    ensures ChunkOk(Extracted(w.hdr, buf[..w.n]))
  {
    var k, seen := Min(w.n, HEADER_BYTES), Min(|buf|, HEADER_BYTES);
    assert buf[..w.n][..k] == buf[..seen][..k];
    assert w.hdr[..seen][..k] == w.hdr[..k];
  }

  lemma ExtractConserves(s: State, hdr: seq<Byte>, n: nat)
    requires Conserved(s) && n <= |s.buf|
    ensures s.appended == Gone(s.out + [Extracted(hdr, s.buf[..n])]) + s.buf[n..]
  {
    GoneSnoc(s.out, Extracted(hdr, s.buf[..n]));
    assert s.buf == s.buf[..n] + s.buf[n..];
    assert Gone(s.out) + (s.buf[..n] + s.buf[n..]) == Gone(s.out) + s.buf[..n] + s.buf[n..];
  }

  lemma ChunksOkSnoc(out: seq<Chunk>, c: Chunk)
    requires ChunksOk(out) && ChunkOk(c)
    ensures ChunksOk(out + [c])
  {
  }

  lemma ThreadsOkUpdate(threads: map<nat, Thread>, t: nat, w: Thread)
    requires ThreadsOk(threads) && ThreadOk(w)
    ensures ThreadsOk(threads[t := w])
  {
  }

  lemma ExtractKeepsInv(s: State, t: nat, staleMatch: bool)
    requires Inv(s) && Enabled(s, t, Extract(staleMatch))
    ensures |s.threads[t].hdr| == HEADER_BYTES
    ensures Inv(Apply(s, t, Extract(staleMatch)))
  {
    var w := s.threads[t];
    assert ThreadOk(w);
    ThreadsOkUpdate(s.threads, t, Dispatching);
    ThreadsOkUpdate(s.threads, t, Processing);
    if |s.buf| >= w.n && HeaderUnchanged(s.buf, w.hdr, staleMatch) {
      ExtractedChunkOk(s.buf, w, staleMatch);
      ExtractConserves(s, w.hdr, w.n);
      ChunksOkSnoc(s.out, Extracted(w.hdr, s.buf[..w.n]));
    }
  }

  lemma StepKeepsInv(s: State, t: nat, step: Step)
    requires Inv(s) && Enabled(s, t, step)
    ensures step.Extract? ==> |s.threads[t].hdr| == HEADER_BYTES
    ensures Inv(Apply(s, t, step))
  {
    match step
    case TakeLock => TakeLockKeepsInv(s, t);
    case Scan => ScanKeepsInv(s, t);
    case Extract(m) => ExtractKeepsInv(s, t, m);
    case _ =>
  }

  lemma CapNeverShrinks(s: State, t: nat, step: Step)
    requires Inv(s) && Enabled(s, t, step)
    requires step.Extract? ==> |s.threads[t].hdr| == HEADER_BYTES
    ensures s.cap <= Apply(s, t, step).cap <= MAX_FRAME_BYTES
  {
  }

  /** Each extraction shortens the buffer by at least four bytes. */
  lemma ExtractionShrinks(s: State, t: nat, staleMatch: bool)
    requires Inv(s) && Enabled(s, t, Extract(staleMatch)) && |s.threads[t].hdr| == HEADER_BYTES
    ensures var u := Apply(s, t, Extract(staleMatch)); |u.out| > |s.out| ==> |u.buf| + 4 <= |s.buf|
  {
    assert ThreadOk(s.threads[t]);
  }

  /** A write is discarded, with everything buffered, exactly when the two together exceed the frame limit. */
  lemma DiscardsIffOverLimit(s: State, t: nat)
    requires Inv(s) && Enabled(s, t, TakeLock)
    ensures Apply(s, t, TakeLock).out != s.out <==> |s.buf| + |s.threads[t].data| > MAX_FRAME_BYTES
  {
  }

  /** Undisturbed, any other write is appended at the first lock hold, or at the second with a larger buffer. */
  lemma UndisturbedWriteIsAppended(s: State, t: nat, data: seq<Byte>)
    requires Inv(s) && t !in s.threads && 0 < |data| && |s.buf| + |data| <= MAX_FRAME_BYTES
    ensures var a := Apply(Apply(s, t, Write(data)), t, TakeLock);
            var b := if a.threads[t].Ingesting? then Apply(a, t, TakeLock) else a;
            b.buf == s.buf + data && b.appended == s.appended + data && b.out == s.out && b.threads[t] == Processing
  {
    NewCapClimbs(s.cap, |s.buf| + |data|);
  }

  /** Undisturbed, the frame at the head is extracted by one scan and one extraction. */
  lemma UndisturbedFrameIsExtracted(s: State, t: nat, staleMatch: bool)
    requires Inv(s) && t in s.threads && s.threads[t].Processing? && HeadOf(s.buf).Frame?
    ensures var n, a := HeadOf(s.buf).n, Apply(s, t, Scan);
            && Enabled(a, t, Extract(staleMatch)) && |a.threads[t].hdr| == HEADER_BYTES
            && var b := Apply(a, t, Extract(staleMatch));
               b.buf == s.buf[n..] && b.out == s.out + [Extracted(s.buf[..HEADER_BYTES], s.buf[..n])]
  {
  }

  // ------------------------------------------------------------------------------------
  // Whole runs.
  // ------------------------------------------------------------------------------------

  datatype Move = Move(thread: nat, step: Step)

  ghost predicate Legal(s: State, moves: seq<Move>)
    decreases |moves|
  {
    moves == [] ||
    (var (t, step) := (moves[0].thread, moves[0].step);
     && Enabled(s, t, step) && s.cap > 0 && (step.Extract? ==> |s.threads[t].hdr| == HEADER_BYTES)
     && Legal(Apply(s, t, step), moves[1..]))
  }

  ghost function Run(s: State, moves: seq<Move>): State
    requires Legal(s, moves)
    decreases |moves|
  {
    if moves == [] then s else Run(Apply(s, moves[0].thread, moves[0].step), moves[1..])
  }

  lemma {:induction false} RunKeepsInv(s: State, moves: seq<Move>)
    requires Inv(s) && Legal(s, moves)
    ensures Inv(Run(s, moves)) && s.cap <= Run(s, moves).cap
    decreases |moves|
  {
    if moves != [] {
      CapNeverShrinks(s, moves[0].thread, moves[0].step);
      StepKeepsInv(s, moves[0].thread, moves[0].step);
      RunKeepsInv(Apply(s, moves[0].thread, moves[0].step), moves[1..]);
    }
  }

  /**
   In every interleaving of any number of writers: the bytes appended are the frames
   extracted and the bytes discarded, in order, followed by what is still buffered; the
   buffer fits; and no call allocates more than eight times.
   */
  lemma IngestConservesBytes(moves: seq<Move>)
    requires Legal(INIT, moves)
    ensures var s := Run(INIT, moves);
            && s.appended == Gone(s.out) + s.buf
            && |s.buf| <= s.cap <= MAX_FRAME_BYTES
            && (forall c | c in s.out :: ChunkOk(c))
            && (forall t | t in s.threads && s.threads[t].Ingesting? :: s.threads[t].allocs <= 8)
  {
    RunKeepsInv(INIT, moves);
    var s := Run(INIT, moves);
    forall t | t in s.threads && s.threads[t].Ingesting?
      ensures s.threads[t].allocs <= 8
    {
      assert ThreadOk(s.threads[t]);
    }
  }
}
