/**
 The interrupt path of one output stream as the driver runs it: softc fields and buffers
 updated in place by the filter and the interrupt thread. The specification functions tie
 it to the pipeline, to the frame clock and to the underrun record.
 */
module OutputStream {
  import opened AudioGeometry
  import opened Bytes
  import opened StreamEvents
  import opened Underruns
  import opened UserRing
  import opened UserRingBuffer
  import DmaRing
  import FrameClock
  import Pipeline

  /** What the refill loop touches. */
  datatype Buffers = Buffers(ring: Ring, dma: seq<Byte>, pending: Pending) {
    predicate Valid() {
      ring.Valid() && |dma| == BUF_BYTES
    }
  }

  /** One refill at cursor `next`; a short chunk is folded into the underrun record at stream position `pos`. */
  function RefillOne(b: Buffers, next: nat, pos: nat): (c: Buffers)
    requires b.Valid() && next < FRAGS
    ensures c.Valid()
  {
    Buffers(b.ring.Drain(), Splice(b.dma, next * FRAG_BYTES, b.ring.Fragment()), Charge(b.pending, b.ring.Take(), pos))
  }

  function RefillMany(b: Buffers, next: nat, turns: nat, pos: nat): (c: Buffers)
    requires b.Valid() && next < FRAGS
    ensures c.Valid()
    decreases turns
  {
    if turns == 0 then b else RefillMany(RefillOne(b, next, pos), (next + 1) % FRAGS, turns - 1, pos)
  }

  /** Refill from the cursor until it reaches the fragment being played. */
  function RefillLoop(b: Buffers, next: nat, curr: nat, pos: nat): (c: Buffers)
    requires b.Valid() && next < FRAGS && curr < FRAGS
    ensures c.Valid()
  {
    RefillMany(b, next, Turns(next, curr), pos)
  }

  lemma LoopUnfolds(b: Buffers, next: nat, curr: nat, pos: nat)
    requires b.Valid() && next < FRAGS && curr < FRAGS && next != curr
    ensures RefillLoop(b, next, curr, pos) == RefillLoop(RefillOne(b, next, pos), (next + 1) % FRAGS, curr, pos)
  {
    CursorAdvances(next, curr);
  }

  // ------------------------------------------------------------------------------------
  // What the refills drain, and what they charge to the underrun record.
  // ------------------------------------------------------------------------------------

  /** The bytes that each of `turns` refills drains. */
  function Drained(r: Ring, turns: nat): seq<nat>
    requires r.Valid()
    decreases turns
  {
    if turns == 0 then [] else [r.Take()] + Drained(r.Drain(), turns - 1)
  }

  lemma {:induction false} DrainedAreChunks(r: Ring, turns: nat)
    requires r.Valid()
    ensures |Drained(r, turns)| == turns
    ensures forall i | 0 <= i < turns :: Chunk(Drained(r, turns)[i])
    decreases turns
  {
    if turns > 0 {
      DrainedAreChunks(r.Drain(), turns - 1);
    }
  }

  /** The loop charges exactly the gaps of what it drained. */
  lemma {:induction false} ManyCharges(b: Buffers, next: nat, turns: nat, pos: nat)
    requires b.Valid() && next < FRAGS
    ensures RefillMany(b, next, turns, pos).pending == ChargeAll(b.pending, Drained(b.ring, turns), pos)
    decreases turns
  {
    if turns > 0 {
      ManyCharges(RefillOne(b, next, pos), (next + 1) % FRAGS, turns - 1, pos);
      assert Drained(b.ring, turns)[1..] == Drained(b.ring.Drain(), turns - 1);
    }
  }

  // ------------------------------------------------------------------------------------
  // The loop performs the refill steps of the pipeline.
  // ------------------------------------------------------------------------------------

  ghost predicate Servicing(s: Pipeline.State) {
    Pipeline.Inv(s) && s.hw.thread.Refilling?
  }

  ghost function Remaining(s: Pipeline.State): nat
    requires Servicing(s)
  {
    Turns(s.hw.next, s.hw.thread.curr)
  }

  lemma RefillAdvances(s: Pipeline.State)
    requires Servicing(s) && s.hw.next != s.hw.thread.curr
    ensures Pipeline.Enabled(s, Pipeline.Refill)
    ensures var t := Pipeline.Apply(s, Pipeline.Refill);
            && Servicing(t) && t.hw.thread == s.hw.thread && t.hw.next == (s.hw.next + 1) % FRAGS
            && Remaining(t) == Remaining(s) - 1
  {
    Pipeline.StepKeepsInv(s, Pipeline.Refill);
    CursorAdvances(s.hw.next, s.hw.thread.curr);
  }

  /** The pipeline after the refills that one serviced interrupt owes. */
  ghost function CatchUp(s: Pipeline.State): Pipeline.State
    requires Servicing(s)
    decreases Remaining(s)
  {
    if s.hw.next == s.hw.thread.curr then s
    else RefillAdvances(s); CatchUp(Pipeline.Apply(s, Pipeline.Refill))
  }

  lemma OneRefillIsPipelineStep(s: Pipeline.State, t: Pipeline.State, p: Pending, pos: nat)
    requires Servicing(s) && s.hw.next != s.hw.thread.curr && t == Pipeline.Apply(s, Pipeline.Refill)
    ensures RefillOne(Buffers(s.user.ring, s.hw.dma, p), s.hw.next, pos)
         == Buffers(t.user.ring, t.hw.dma, Charge(p, s.user.ring.Take(), pos))
    ensures t.gapFrames == s.gapFrames + Gap(s.user.ring.Take())
  {
  }

  lemma CatchUpTurn(s: Pipeline.State) returns (t: Pipeline.State)
    requires Servicing(s) && s.hw.next != s.hw.thread.curr
    ensures t == Pipeline.Apply(s, Pipeline.Refill) && Servicing(t)
    ensures Remaining(t) == Remaining(s) - 1 && t.hw.thread == s.hw.thread && t.hw.next == (s.hw.next + 1) % FRAGS
    ensures CatchUp(s) == CatchUp(t)
  {
    RefillAdvances(s);
    t := Pipeline.Apply(s, Pipeline.Refill);
  }

  /** One turn of the loop, with the underrun record it carries on with. */
  lemma LoopTurn(s: Pipeline.State, t: Pipeline.State, p: Pending, pos: nat) returns (q: Pending)
    requires Servicing(s) && s.hw.next != s.hw.thread.curr && t == Pipeline.Apply(s, Pipeline.Refill)
    ensures Buffers(t.user.ring, t.hw.dma, q).Valid()
    ensures RefillLoop(Buffers(s.user.ring, s.hw.dma, p), s.hw.next, s.hw.thread.curr, pos)
         == RefillLoop(Buffers(t.user.ring, t.hw.dma, q), (s.hw.next + 1) % FRAGS, s.hw.thread.curr, pos)
  {
    q := Charge(p, s.user.ring.Take(), pos);
    OneRefillIsPipelineStep(s, t, p, pos);
    LoopUnfolds(Buffers(s.user.ring, s.hw.dma, p), s.hw.next, s.hw.thread.curr, pos);
  }

  /** Ring and DMA buffer end where the pipeline says. */
  lemma {:induction false} LoopBuffersCatchUp(s: Pipeline.State, p: Pending, pos: nat)
    requires Servicing(s)
    ensures var b := RefillLoop(Buffers(s.user.ring, s.hw.dma, p), s.hw.next, s.hw.thread.curr, pos);
            b.ring == CatchUp(s).user.ring && b.dma == CatchUp(s).hw.dma
    decreases Remaining(s)
  {
    if s.hw.next != s.hw.thread.curr {
      var t := CatchUpTurn(s);
      var q := LoopTurn(s, t, p, pos);
      LoopBuffersCatchUp(t, q, pos);
    }
  }

  /** The silence the pipeline counts is the silence of what is drained. */
  lemma {:induction false} CatchUpCountsSilence(s: Pipeline.State)
    requires Servicing(s)
    ensures 4 * CatchUp(s).gapFrames == 4 * s.gapFrames + Silence(Drained(s.user.ring, Remaining(s)))
    decreases Remaining(s)
  {
    if s.hw.next != s.hw.thread.curr {
      var t := CatchUpTurn(s);
      OneRefillIsPipelineStep(s, t, CLEAR, 0);
      CatchUpCountsSilence(t);
      assert Drained(s.user.ring, Remaining(s))[1..] == Drained(t.user.ring, Remaining(t));
    }
  }

  /** Ring, DMA buffer, silence and the whole underrun record end where the pipeline says. */
  lemma LoopIsPipelineCatchUp(s: Pipeline.State, p: Pending, pos: nat)
    requires Servicing(s)
    ensures var b := RefillLoop(Buffers(s.user.ring, s.hw.dma, p), s.hw.next, s.hw.thread.curr, pos);
            var t, drained := CatchUp(s), Drained(s.user.ring, Remaining(s));
            && b.ring == t.user.ring && b.dma == t.hw.dma
            && b.pending == ChargeAll(p, drained, pos)
            && 4 * t.gapFrames == 4 * s.gapFrames + Silence(drained)
  {
    LoopBuffersCatchUp(s, p, pos);
    ManyCharges(Buffers(s.user.ring, s.hw.dma, p), s.hw.next, Remaining(s), pos);
    CatchUpCountsSilence(s);
  }

  // ------------------------------------------------------------------------------------
  // The driver's own state.
  // ------------------------------------------------------------------------------------

  /** The softc fields the interrupt path reads and writes. */
  datatype Soft = Soft(active: bool, bcis: bool, fifoe: bool, prevLpib: Offset, next: nat, frames: nat, clock: nat,
                       published: nat, misses: nat, multis: nat, buffers: Buffers)

  function Position(s: Soft, lpib: Offset): nat {
    s.frames + FrameClock.Delta(s.prevLpib, lpib) / 4
  }

  function ServiceTurns(s: Soft, lpib: Offset): nat
    requires s.next < FRAGS
  {
    if s.bcis then Turns(s.next, lpib / FRAG_BYTES) else 0
  }

  /** One run of the interrupt thread with LPIB reading `lpib`. */
  function Service(s: Soft, lpib: Offset): Soft
    requires s.buffers.Valid() && s.next < FRAGS
  {
    if !s.active then s
    else
      var frames, clock := Position(s, lpib), s.clock + FrameClock.Delta(s.prevLpib, lpib) / 4;
      var turns := ServiceTurns(s, lpib);
      var refilled := RefillMany(s.buffers, s.next, turns, frames);
      var pending := if s.fifoe then Fold(refilled.pending, frames, FRAG_FRAMES) else refilled.pending;
      Soft(true, false, false, lpib, if s.bcis then lpib / FRAG_BYTES else s.next, frames, clock, clock,
           if s.bcis && turns == 0 then s.misses + 1 else s.misses, if turns >= 2 then s.multis + 1 else s.multis,
           refilled.(pending := pending))
  }

  // ------------------------------------------------------------------------------------
  // A run of the interrupt thread performs the loss steps of the stream-event machine.
  // ------------------------------------------------------------------------------------

  lemma ServiceCharges(s: Soft, lpib: Offset)
    requires s.buffers.Valid() && s.next < FRAGS && s.active
    ensures var t, drained := Service(s, lpib), Drained(s.buffers.ring, ServiceTurns(s, lpib));
            var charged := ChargeAll(s.buffers.pending, drained, Position(s, lpib));
            && t.buffers.pending == (if s.fifoe then Fold(charged, Position(s, lpib), FRAG_FRAMES) else charged)
            && t.misses == s.misses + (if s.bcis && drained == [] then 1 else 0)
            && t.multis == s.multis + (if |drained| >= 2 then 1 else 0)
  {
    DrainedAreChunks(s.buffers.ring, ServiceTurns(s, lpib));
    ManyCharges(s.buffers, s.next, ServiceTurns(s, lpib), Position(s, lpib));
  }

  lemma ServiceRunsLossSteps(s: Soft, lpib: Offset, e: StreamEvents.State)
    requires s.buffers.Valid() && s.next < FRAGS && s.active
    requires e.active && e.thread.Outside? && e.pending == s.buffers.pending && Frames(e.folded) + FRAG_FRAMES * FRAGS < U32
    ensures var drained := Drained(s.buffers.ring, ServiceTurns(s, lpib));
            var steps := ServiceSteps(drained, s.fifoe, Position(s, lpib));
            && StreamEvents.Legal(e, steps)
            && var f := StreamEvents.Run(e, steps);
               && f.thread.Outside? && SameStream(e, f)
               && f.pending == Service(s, lpib).buffers.pending
               && f.zeroBytes == e.zeroBytes + Silence(drained)
               && f.fifoErrors == e.fifoErrors + (if s.fifoe then 1 else 0)
  {
    var turns := ServiceTurns(s, lpib);
    DrainedAreChunks(s.buffers.ring, turns);
    ServiceCharges(s, lpib);
    StepsRun(e, Drained(s.buffers.ring, turns), s.fifoe, Position(s, lpib));
  }

  /**
   A run of the interrupt thread is the Enter, ShortRefill, FifoError, FoldLoss, Enqueue and
   Leave steps of the stream-event machine for what its refills drained: the pending fields
   agree, and the machine's account of silence and FIFO errors grows by exactly what was
   written and latched.
   */
  lemma ServiceIsLossSteps(s: Soft, lpib: Offset, e: StreamEvents.State)
    requires s.buffers.Valid() && s.next < FRAGS && s.active
    requires e.active && e.thread.Outside? && e.pending == s.buffers.pending && Frames(e.folded) + FRAG_FRAMES * FRAGS < U32
    ensures var drained := Drained(s.buffers.ring, if s.bcis then Turns(s.next, lpib / FRAG_BYTES) else 0);
            var steps := ServiceSteps(drained, s.fifoe, s.frames + FrameClock.Delta(s.prevLpib, lpib) / 4);
            && StreamEvents.Legal(e, steps)
            && var f := StreamEvents.Run(e, steps);
               && f.thread.Outside? && SameStream(e, f)
               && f.pending == Service(s, lpib).buffers.pending
               && f.zeroBytes == e.zeroBytes + Silence(drained)
               && f.fifoErrors == e.fifoErrors + (if s.fifoe then 1 else 0)
  {
    ServiceRunsLossSteps(s, lpib, e);
    assert ServiceTurns(s, lpib) == if s.bcis then Turns(s.next, lpib / FRAG_BYTES) else 0;
    assert Position(s, lpib) == s.frames + FrameClock.Delta(s.prevLpib, lpib) / 4;
  }

  /** The interrupt thread advances the frame clock exactly as the clock model's interrupt step. */
  lemma ServiceIsClockStep(s: Soft, c: FrameClock.State)
    requires s.buffers.Valid() && s.next < FRAGS && s.active
    requires c.active && c.prevLpib == s.prevLpib && c.frames == s.frames && c.total == s.clock
    ensures var t, d := Service(s, Lpib(c.pos)), FrameClock.Apply(c, FrameClock.Interrupt);
            && t.prevLpib == d.prevLpib && t.frames == d.frames && t.clock == d.total
            && t.published == d.clock[|d.clock| - 1]
  {
  }

  // ------------------------------------------------------------------------------------
  // A run of the interrupt thread performs the pipeline's sample, refills and finish.
  // ------------------------------------------------------------------------------------

  ghost predicate Serviceable(p: Pipeline.State) {
    Pipeline.Inv(p) && p.hw.thread.Waiting? && DmaRing.OnTime(p.hw)
  }

  /** The pipeline after one interrupt is serviced: the position sampled, the owed refills, the thread at rest. */
  ghost function Serviced(p: Pipeline.State, bcis: bool): Pipeline.State
    requires Serviceable(p)
  {
    if !bcis then p
    else
      SampleStarts(p);
      var q := Pipeline.Apply(p, Pipeline.Hardware(DmaRing.Sample(true)));
      CatchUpArrives(q);
      Pipeline.Apply(CatchUp(q), Pipeline.Hardware(DmaRing.Finish))
  }

  lemma SampleStarts(p: Pipeline.State)
    requires Serviceable(p)
    ensures var q := Pipeline.Apply(p, Pipeline.Hardware(DmaRing.Sample(true)));
            && Servicing(q) && q.user == p.user && q.taken == p.taken && q.gapFrames == p.gapFrames
            && q.hw.dma == p.hw.dma && q.hw.next == p.hw.next && q.hw.thread.curr == Lpib(p.hw.pos) / FRAG_BYTES
  {
    Pipeline.StepKeepsInv(p, Pipeline.Hardware(DmaRing.Sample(true)));
  }

  function Lengths(chunks: seq<seq<Byte>>): seq<nat> {
    seq(|chunks|, i requires 0 <= i < |chunks| => |chunks[i]|)
  }

  /** The refills of one interrupt end at the sampled fragment. */
  lemma {:induction false} CatchUpArrives(s: Pipeline.State)
    requires Servicing(s)
    ensures var t := CatchUp(s); Servicing(t) && t.hw.thread == s.hw.thread && t.hw.next == s.hw.thread.curr
    decreases Remaining(s)
  {
    if s.hw.next != s.hw.thread.curr {
      var t := CatchUpTurn(s);
      CatchUpArrives(t);
    }
  }

  /** They drained what the ring had, refill by refill. */
  lemma {:induction false} CatchUpTakes(s: Pipeline.State)
    requires Servicing(s)
    ensures Lengths(CatchUp(s).taken) == Lengths(s.taken) + Drained(s.user.ring, Remaining(s))
    decreases Remaining(s)
  {
    if s.hw.next == s.hw.thread.curr {
      assert Lengths(s.taken) + [] == Lengths(s.taken);
    } else {
      var t := RefillTurn(s);
      CatchUpTakes(t);
      DrainedUnfolds(s.user.ring, Remaining(s));
      SeqAssoc(Lengths(s.taken), s.user.ring.Take(), Drained(t.user.ring, Remaining(t)));
    }
  }

  /** One refill: what it drains, and the pipeline it leaves. */
  lemma RefillTurn(s: Pipeline.State) returns (t: Pipeline.State)
    requires Servicing(s) && s.hw.next != s.hw.thread.curr
    ensures Servicing(t) && Remaining(t) == Remaining(s) - 1 && CatchUp(s) == CatchUp(t)
    ensures Lengths(t.taken) == Lengths(s.taken) + [s.user.ring.Take()] && t.user.ring == s.user.ring.Drain()
  {
    t := CatchUpTurn(s);
    RefillTakes(s, t);
  }

  lemma DrainedUnfolds(r: Ring, turns: nat)
    requires r.Valid() && turns > 0
    ensures Drained(r, turns) == [r.Take()] + Drained(r.Drain(), turns - 1)
  {
  }

  lemma SeqAssoc(a: seq<nat>, x: nat, b: seq<nat>)
    ensures a + ([x] + b) == a + [x] + b
  {
  }

  lemma RefillTakes(s: Pipeline.State, t: Pipeline.State)
    requires Servicing(s) && s.hw.next != s.hw.thread.curr && t == Pipeline.Apply(s, Pipeline.Refill)
    ensures Lengths(t.taken) == Lengths(s.taken) + [s.user.ring.Take()] && t.user.ring == s.user.ring.Drain()
  {
  }

  /** The softc and the pipeline describe the same buffers. */
  ghost predicate Agree(s: Soft, p: Pipeline.State) {
    s.active && s.buffers.ring == p.user.ring && s.buffers.dma == p.hw.dma && s.next == p.hw.next
  }

  lemma LatchedServiceIsPipelineService(s: Soft, p: Pipeline.State)
    requires Serviceable(p) && Agree(s, p) && s.bcis
    ensures var t, u := Service(s, Lpib(p.hw.pos)), Serviced(p, true);
            && Agree(t, u)
            && Lengths(u.taken) == Lengths(p.taken) + Drained(p.user.ring, ServiceTurns(s, Lpib(p.hw.pos)))
  {
    SampleStarts(p);
    var q := Pipeline.Apply(p, Pipeline.Hardware(DmaRing.Sample(true)));
    var r := SampledCatchUp(q, s.buffers.pending, Position(s, Lpib(p.hw.pos)));
    FinishRests(r);
  }

  lemma FinishRests(r: Pipeline.State)
    requires Servicing(r)
    ensures var u := Pipeline.Apply(r, Pipeline.Hardware(DmaRing.Finish));
            u.user == r.user && u.hw.dma == r.hw.dma && u.hw.next == r.hw.next && u.taken == r.taken
  {
  }

  lemma SampledCatchUp(q: Pipeline.State, pending: Pending, pos: nat) returns (r: Pipeline.State)
    requires Servicing(q)
    ensures r == CatchUp(q) && Servicing(r) && r.hw.next == q.hw.thread.curr && r.hw.thread == q.hw.thread
    ensures Lengths(r.taken) == Lengths(q.taken) + Drained(q.user.ring, Remaining(q))
    ensures var b := RefillMany(Buffers(q.user.ring, q.hw.dma, pending), q.hw.next, Remaining(q), pos);
            b.ring == r.user.ring && b.dma == r.hw.dma
  {
    r := CatchUp(q);
    CatchUpArrives(q);
    CatchUpTakes(q);
    LoopBuffersCatchUp(q, pending, pos);
  }

  /**
   For a state of the pipeline in which the thread waits and the hardware is on time: the
   interrupt thread leaves ring, DMA buffer and cursor as the pipeline's sample, refills and
   finish do, charges what those refills drained, and counts a miss or a multiple refill by
   how many there were.
   */
  lemma ServiceIsPipelineService(s: Soft, p: Pipeline.State)
    requires Serviceable(p) && Agree(s, p)
    ensures var t, u := Service(s, Lpib(p.hw.pos)), Serviced(p, s.bcis);
            && Agree(t, u) && |p.taken| <= |u.taken|
            && var drained := Lengths(u.taken)[|p.taken|..];
               var pos := s.frames + FrameClock.Delta(s.prevLpib, Lpib(p.hw.pos)) / 4;
               var charged := ChargeAll(s.buffers.pending, drained, pos);
               && t.buffers.pending == (if s.fifoe then Fold(charged, pos, FRAG_FRAMES) else charged)
               && t.misses == s.misses + (if s.bcis && drained == [] then 1 else 0)
               && t.multis == s.multis + (if |drained| >= 2 then 1 else 0)
  {
    var lpib := Lpib(p.hw.pos);
    if s.bcis {
      LatchedServiceIsPipelineService(s, p);
      DropFirst(Lengths(p.taken), Drained(s.buffers.ring, ServiceTurns(s, lpib)));
    } else {
      DropFirst(Lengths(p.taken), []);
    }
    ServiceCharges(s, lpib);
  }

  lemma DropFirst(a: seq<nat>, b: seq<nat>)
    ensures (a + b)[|a|..] == b && a[|a|..] == []
  {
  }

  // ------------------------------------------------------------------------------------
  // The class.
  // ------------------------------------------------------------------------------------

  /** What one call of the interrupt filter read and cleared in the stream status register. */
  datatype Status = Status(bcis: bool, fifoe: bool)

  predicate AnyBcis(calls: seq<Status>) {
    exists i :: 0 <= i < |calls| && calls[i].bcis
  }

  predicate AnyFifoe(calls: seq<Status>) {
    exists i :: 0 <= i < |calls| && calls[i].fifoe
  }

  lemma AnySnoc(calls: seq<Status>, c: Status)
    ensures AnyBcis(calls + [c]) <==> AnyBcis(calls) || c.bcis
    ensures AnyFifoe(calls + [c]) <==> AnyFifoe(calls) || c.fifoe
  {
    var all := calls + [c];
    assert all[|calls|] == c;
    assert forall i | 0 <= i < |calls| :: all[i] == calls[i];
  }

  class Stream {
    const ring: RingBuffer
    const dma: array<Byte>
    var active: bool
    var lastBcis: bool
    var lastFifoe: bool
    var prevLpib: Offset
    var next: nat
    var framesPlayed: nat
    var clockTotal: nat
    var clockPublished: nat
    var misses: nat
    var multis: nat
    var pending: Pending
    /** The filter calls that no run of the thread has taken up. */
    ghost var calls: seq<Status>

    ghost predicate Shaped()
      reads this`next, ring, ring.mem, dma
    {
      ring.Valid() && ring.mem != dma && dma.Length == BUF_BYTES && next < FRAGS
    }

    /** The latched bits are those of all the calls not yet taken up. */
    ghost predicate Latched()
      reads this`lastBcis, this`lastFifoe, this`calls
    {
      lastBcis == AnyBcis(calls) && lastFifoe == AnyFifoe(calls)
    }

    ghost predicate Valid()
      reads this, ring, ring.mem, dma
    {
      Shaped() && Latched()
    }

    ghost function Buf(): Buffers
      reads this`pending, ring, ring.mem, dma
    {
      Buffers(ring.Abs(), dma[..], pending)
    }

    ghost function Abs(): Soft
      reads this, ring, ring.mem, dma
    {
      Soft(active, lastBcis, lastFifoe, prevLpib, next, framesPlayed, clockTotal, clockPublished, misses, multis, Buf())
    }

    constructor ()
      ensures Valid() && fresh(ring) && fresh(ring.mem) && fresh(dma)
      ensures !active && pending == CLEAR && clockTotal == 0 && calls == []
    {
      ring := new RingBuffer();
      dma := new Byte[BUF_BYTES](_ => 0);
      active, lastBcis, lastFifoe := false, false, false;
      prevLpib, next, framesPlayed, clockTotal, clockPublished, misses, multis := 0, 0, 0, 0, 0, 0, 0;
      pending, calls := CLEAR, [];
    }

    /** audiofs_intr_filter: no status bit read and cleared here is lost before the thread runs. */
    method Filter(ours: bool, status: Status) returns (schedule: bool)
      requires Latched()
      modifies this`lastBcis, this`lastFifoe, this`calls
      ensures Latched() && schedule == ours
      ensures calls == old(calls) + if ours then [status] else []
    {
      if !ours {
        return false;
      }
      AnySnoc(calls, status);
      lastBcis := lastBcis || status.bcis;
      lastFifoe := lastFifoe || status.fifoe;
      calls := calls + [status];
      return true;
    }

    method RecordLoss(frames: nat)
      modifies this`pending
      ensures pending == Fold(old(pending), framesPlayed, frames)
    {
      var gapPos := if pending.frames == 0 then framesPlayed else pending.gapPos;
      pending := Pending((pending.frames + frames) % U32, (pending.count + 1) % U32, gapPos);
    }

    /** Refill the fragment the cursor names, and move the cursor on. */
    method RefillNext()
      requires Shaped()
      modifies this`pending, this`next, ring`tail, dma
      ensures Shaped() && next == (old(next) + 1) % FRAGS
      ensures Buf() == RefillOne(old(Buf()), old(next), framesPlayed)
    {
      var gap := ring.RefillFragment(dma, next * FRAG_BYTES);
      if gap > 0 {
        RecordLoss(gap);
      }
      next := (next + 1) % FRAGS;
    }

    /** One turn of the loop below. */
    method RefillTurn(curr: nat)
      requires Shaped() && curr < FRAGS && next != curr
      modifies this`pending, this`next, ring`tail, dma
      ensures Shaped() && Turns(next, curr) == Turns(old(next), curr) - 1
      ensures RefillLoop(Buf(), next, curr, framesPlayed) == RefillLoop(old(Buf()), old(next), curr, framesPlayed)
    {
      CursorAdvances(next, curr);
      LoopUnfolds(Buf(), next, curr, framesPlayed);
      RefillNext();
    }

    /** The BCIS branch: refill until the cursor reaches the fragment being played, counting the turns. */
    method RefillUpTo(curr: nat)
      requires Shaped() && curr < FRAGS
      modifies this`pending, this`next, this`misses, this`multis, ring`tail, dma
      ensures Shaped() && next == curr
      ensures Buf() == RefillLoop(old(Buf()), old(next), curr, framesPlayed)
      ensures misses == old(misses) + if Turns(old(next), curr) == 0 then 1 else 0
      ensures multis == old(multis) + if Turns(old(next), curr) >= 2 then 1 else 0
    {
      var n := 0;
      while next != curr
        invariant Shaped() && misses == old(misses) && multis == old(multis)
        invariant RefillLoop(Buf(), next, curr, framesPlayed) == RefillLoop(old(Buf()), old(next), curr, framesPlayed)
        invariant n + Turns(next, curr) == Turns(old(next), curr)
        decreases Turns(next, curr)
      {
        RefillTurn(curr);
        n := n + 1;
      }
      if n == 0 {
        misses := misses + 1;
      } else if n >= 2 {
        multis := multis + 1;
      }
    }

    /** Advance the frame count and the clock by the link position, and publish the clock. */
    method Accumulate(lpib: Offset)
      modifies this`framesPlayed, this`clockTotal, this`clockPublished, this`prevLpib
      ensures prevLpib == lpib && clockPublished == clockTotal
      ensures framesPlayed == old(framesPlayed) + FrameClock.Delta(old(prevLpib), lpib) / 4
      ensures clockTotal == old(clockTotal) + FrameClock.Delta(old(prevLpib), lpib) / 4
    {
      var delta := if lpib >= prevLpib then lpib - prevLpib else BUF_BYTES - prevLpib + lpib;
      framesPlayed := framesPlayed + delta / 4;
      clockTotal := clockTotal + delta / 4;
      clockPublished := clockTotal;
      prevLpib := lpib;
    }

    /** What the latched status bits ask for: refills, and the loss a FIFO error stands for. */
    method Repair(bcis: bool, fifoe: bool, curr: nat)
      requires Shaped() && curr < FRAGS
      modifies this`pending, this`next, this`misses, this`multis, ring`tail, dma
      ensures Shaped() && next == if bcis then curr else old(next)
      ensures var turns := if bcis then Turns(old(next), curr) else 0;
              var refilled := RefillMany(old(Buf()), old(next), turns, framesPlayed);
              && Buf() == (if fifoe then refilled.(pending := Fold(refilled.pending, framesPlayed, FRAG_FRAMES)) else refilled)
              && misses == old(misses) + (if bcis && turns == 0 then 1 else 0)
              && multis == old(multis) + (if turns >= 2 then 1 else 0)
    {
      if bcis {
        RefillUpTo(curr);
      }
      if fifoe {
        RecordLoss(FRAG_FRAMES);
      }
    }

    /** Take up the latched bits. */
    method TakeBits() returns (bcis: bool, fifoe: bool)
      requires Latched()
      modifies this`lastBcis, this`lastFifoe, this`calls
      ensures bcis == old(lastBcis) == AnyBcis(old(calls)) && fifoe == old(lastFifoe) == AnyFifoe(old(calls))
      ensures !lastBcis && !lastFifoe && calls == [] && Latched()
    {
      bcis, fifoe := lastBcis, lastFifoe;
      lastBcis, lastFifoe, calls := false, false, [];
    }

    method Serve(bcis: bool, fifoe: bool, lpib: Offset)
      requires Shaped() && active && !lastBcis && !lastFifoe
      modifies this`framesPlayed, this`clockTotal, this`clockPublished, this`prevLpib,
               this`pending, this`next, this`misses, this`multis, ring`tail, dma
      ensures Shaped() && Abs() == Service(old(Abs()).(bcis := bcis, fifoe := fifoe), lpib)
    {
      Accumulate(lpib);
      Repair(bcis, fifoe, lpib / FRAG_BYTES);
    }

    /** audiofs_intr_thread: acts on the status bits of every filter call since its last run. */
    method IntrThread(lpib: Offset)
      requires Valid()
      modifies this, ring`tail, dma
      ensures Valid() && Abs() == Service(old(Abs()), lpib)
      ensures calls == if old(active) then [] else old(calls)
      ensures next == if old(active) && AnyBcis(old(calls)) then lpib / FRAG_BYTES else old(next)
    {
      if !active {
        return;
      }
      var bcis, fifoe := TakeBits();
      Serve(bcis, fifoe, lpib);
    }
  }
}
