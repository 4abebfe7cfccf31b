/**
 The hardware ring of four fragments that a DAC drains byte by byte while the interrupt
 thread refills completed fragments. The hardware is an environment with an absolute byte
 position; the link position register shows it modulo the ring.
 */
module DmaRing {
  import opened AudioGeometry
  import opened Bytes

  /** `Refilling` holds the fragment the sampled LPIB was in, and the position that was sampled. */
  datatype IThread = Waiting | Refilling(curr: nat, at: nat)

  /**
   `pos` is the absolute position, `played` the bytes the DAC consumed, `outputs` the refill
   outputs in order and `next` the cursor that names the fragment awaiting refill. `serviced`
   is the position sampled by the last interrupt that was serviced to the end.
   */
  datatype State = State(dma: seq<Byte>, pos: nat, played: seq<Byte>, next: nat, thread: IThread,
                         initial: seq<Byte>, outputs: seq<seq<Byte>>, serviced: nat)

  datatype Step = Play | Sample(bcis: bool) | Refill(data: seq<Byte>) | Finish

  function Init(fill: seq<Byte>): State {
    State(fill, 0, [], 0, Waiting, fill, [], 0)
  }

  /** The bytes the DAC should play: the initial fill, then every refill output in order. */
  function Intended(s: State): seq<Byte> {
    s.initial + Flatten(s.outputs)
  }

  /** The hardware has not reached a fragment whose refill is still owed. */
  predicate OnTime(s: State) {
    s.pos < (|s.outputs| + FRAGS) * FRAG_BYTES
  }

  predicate Enabled(s: State, step: Step) {
    match step
    case Play => OnTime(s)
    case Sample(_) => s.thread.Waiting? && OnTime(s)
    case Refill(data) => s.thread.Refilling? && s.next != s.thread.curr && |data| == FRAG_BYTES
    case Finish => s.thread.Refilling? && s.next == s.thread.curr
  }

  function Apply(s: State, step: Step): State
    requires |s.dma| == BUF_BYTES && s.next < FRAGS
    requires step.Refill? ==> |step.data| == FRAG_BYTES
  {
    match step
    case Play => s.(played := s.played + [s.dma[Lpib(s.pos)]], pos := s.pos + 1)
    case Sample(bcis) => if bcis then s.(thread := Refilling(Lpib(s.pos) / FRAG_BYTES, s.pos)) else s
    case Refill(data) =>
      s.(dma := Splice(s.dma, s.next * FRAG_BYTES, data), next := (s.next + 1) % FRAGS,
         outputs := s.outputs + [data])
    case Finish => s.(thread := Waiting, serviced := if s.thread.Refilling? then s.thread.at else s.serviced)
  }

  /** The buffer holds the intended stream from fragment `refills` on. */
  predicate Holds(dma: seq<Byte>, intended: seq<Byte>, refills: nat)
    requires |dma| == BUF_BYTES
  {
    forall q | refills * FRAG_BYTES <= q < |intended| :: dma[q % BUF_BYTES] == intended[q]
  }

  /** What every step keeps: the buffer holds exactly the next four fragments of the intended stream. */
  ghost predicate Inv(s: State) {
    var refills, intended := |s.outputs|, Intended(s);
    && |s.dma| == BUF_BYTES
    && |intended| == (refills + FRAGS) * FRAG_BYTES
    && s.next == refills % FRAGS
    && refills * FRAG_BYTES <= s.pos <= |intended|
    && s.played == intended[..s.pos]
    && Holds(s.dma, intended, refills)
    && (s.thread.Refilling? ==>
          && s.thread.at <= s.pos
          && s.thread.curr == s.thread.at / FRAG_BYTES % FRAGS
          && refills <= s.thread.at / FRAG_BYTES < refills + FRAGS)
  }

  lemma FragmentOfLpib(pos: nat)
    ensures Lpib(pos) / FRAG_BYTES == pos / FRAG_BYTES % FRAGS
  {
    var lap, off := pos / BUF_BYTES, pos % BUF_BYTES;
    var k, c := off / FRAG_BYTES, off % FRAG_BYTES;
    assert pos == BUF_BYTES * lap + off && off == FRAG_BYTES * k + c;
    assert pos == FRAG_BYTES * (FRAGS * lap + k) + c;
    assert pos / FRAG_BYTES == FRAGS * lap + k;
  }

  lemma FragmentStart(k: nat)
    ensures k * FRAG_BYTES % BUF_BYTES == k % FRAGS * FRAG_BYTES
  {
    var lap, f := k / FRAGS, k % FRAGS;
    assert k == FRAGS * lap + f;
    assert k * FRAG_BYTES == BUF_BYTES * lap + f * FRAG_BYTES;
  }

  /** From a fragment start, the offsets of one lap wrap at most once. */
  lemma OffsetFrom(start: nat, d: nat)
    requires d <= BUF_BYTES
    ensures var at := start % BUF_BYTES; (start + d) % BUF_BYTES == if at + d < BUF_BYTES then at + d else at + d - BUF_BYTES
  {
    var lap, at := start / BUF_BYTES, start % BUF_BYTES;
    assert start == BUF_BYTES * lap + at;
    if at + d < BUF_BYTES {
      assert start + d == BUF_BYTES * lap + (at + d);
    } else {
      assert start + d == BUF_BYTES * (lap + 1) + (at + d - BUF_BYTES);
    }
  }

  /** Refill number `r` lands on the cells of intended fragment `r`, and nowhere else. */
  lemma RefillCells(r: nat, q: nat)
    requires (r + 1) * FRAG_BYTES <= q < (r + 1 + FRAGS) * FRAG_BYTES
    ensures var at := r % FRAGS * FRAG_BYTES;
            if q < (r + FRAGS) * FRAG_BYTES then !(at <= q % BUF_BYTES < at + FRAG_BYTES)
            else q % BUF_BYTES == at + (q - (r + FRAGS) * FRAG_BYTES)
  {
    FragmentStart(r);
    var start := r * FRAG_BYTES;
    if q < start + BUF_BYTES {
      OffsetFrom(start, q - start);
    } else {
      OffsetFrom(start + BUF_BYTES, q - start - BUF_BYTES);
      OffsetFrom(start, BUF_BYTES);
    }
  }

  /** A fragment is overwritten only after its last byte has been played. */
  lemma RefillOverwritesPlayedFragment(s: State, data: seq<Byte>)
    requires Inv(s) && Enabled(s, Refill(data))
    ensures (|s.outputs| + 1) * FRAG_BYTES <= s.pos
  {
    assert |s.outputs| < s.thread.at / FRAG_BYTES;
  }

  /** The refilled buffer holds the longer stream from the next fragment on. */
  lemma RefillKeepsHolds(dma: seq<Byte>, intended: seq<Byte>, data: seq<Byte>, r: nat)
    requires |dma| == BUF_BYTES && |intended| == (r + FRAGS) * FRAG_BYTES && |data| == FRAG_BYTES
    requires Holds(dma, intended, r)
    ensures Holds(Splice(dma, r % FRAGS * FRAG_BYTES, data), intended + data, r + 1)
  {
    var after := Splice(dma, r % FRAGS * FRAG_BYTES, data);
    forall q | (r + 1) * FRAG_BYTES <= q < |intended + data|
      ensures after[q % BUF_BYTES] == (intended + data)[q]
    {
      RefillCells(r, q);
    }
  }

  lemma RefillKeepsInv(s: State, data: seq<Byte>)
    requires Inv(s) && Enabled(s, Refill(data))
    ensures Inv(Apply(s, Refill(data)))
  {
    var t, r := Apply(s, Refill(data)), |s.outputs|;
    FlattenSnoc(s.outputs, data);
    assert Intended(t) == Intended(s) + data;
    RefillOverwritesPlayedFragment(s, data);
    RefillKeepsHolds(s.dma, Intended(s), data, r);
    NextFragment(r, s.thread.at / FRAG_BYTES);
  }

  /** The cursor moves on, and the thread is still behind the position it sampled. */
  lemma NextFragment(r: nat, sampled: nat)
    requires r <= sampled < r + FRAGS && r % FRAGS != sampled % FRAGS
    ensures (r % FRAGS + 1) % FRAGS == (r + 1) % FRAGS && r + 1 <= sampled < r + 1 + FRAGS
  {
  }

  lemma PlayKeepsInv(s: State)
    requires Inv(s) && Enabled(s, Play)
    ensures Inv(Apply(s, Play))
  {
    var intended := Intended(s);
    assert intended[..s.pos + 1] == intended[..s.pos] + [intended[s.pos]];
  }

  lemma StepKeepsInv(s: State, step: Step)
    requires Inv(s) && Enabled(s, step)
    ensures Inv(Apply(s, step))
  {
    match step
    case Play => PlayKeepsInv(s);
    case Sample(_) => FragmentOfLpib(s.pos);
    case Refill(data) => RefillKeepsInv(s, data);
    case Finish =>
  }

  lemma InitHoldsInv(fill: seq<Byte>)
    requires |fill| == BUF_BYTES
    ensures Inv(Init(fill))
  {
    assert Intended(Init(fill)) == fill;
  }

  ghost predicate Legal(s: State, steps: seq<Step>)
    decreases |steps|
  {
    steps == [] ||
    (|s.dma| == BUF_BYTES && s.next < FRAGS && Enabled(s, steps[0]) && Legal(Apply(s, steps[0]), steps[1..]))
  }

  ghost function Run(s: State, steps: seq<Step>): State
    requires Legal(s, steps)
    decreases |steps|
  {
    if steps == [] then s else Run(Apply(s, steps[0]), steps[1..])
  }

  lemma {:induction false} RunKeepsInv(s: State, steps: seq<Step>)
    requires Inv(s) && Legal(s, steps)
    ensures Inv(Run(s, steps))
    decreases |steps|
  {
    if steps != [] {
      StepKeepsInv(s, steps[0]);
      RunKeepsInv(Apply(s, steps[0]), steps[1..]);
    }
  }

  /**
   Over every run that stays on time the DAC plays the initial fill followed by the refill
   outputs in order: no fragment is skipped, replayed, or overwritten early.
   */
  lemma PlaysIntendedStream(fill: seq<Byte>, steps: seq<Step>)
    requires |fill| == BUF_BYTES
    requires Legal(Init(fill), steps)
    ensures var s := Run(Init(fill), steps);
            && s.pos <= |fill + Flatten(s.outputs)|
            && s.played == (fill + Flatten(s.outputs))[..s.pos]
  {
    InitHoldsInv(fill);
    RunKeepsInv(Init(fill), steps);
    RunKeepsFill(Init(fill), steps);
  }

  lemma {:induction false} RunKeepsFill(s: State, steps: seq<Step>)
    requires Legal(s, steps)
    ensures Run(s, steps).initial == s.initial
    decreases |steps|
  {
    if steps != [] {
      RunKeepsFill(Apply(s, steps[0]), steps[1..]);
    }
  }

  // ------------------------------------------------------------------------------------
  // Servicing often enough keeps the refills on time.
  // ------------------------------------------------------------------------------------

  /** At most three fragment ends lie between the last serviced interrupt and the hardware. */
  predicate OnSchedule(s: State) {
    s.pos / FRAG_BYTES - s.serviced / FRAG_BYTES <= 3
  }

  /** A serviced interrupt leaves nothing owed. */
  predicate Settled(s: State) {
    && s.serviced / FRAG_BYTES <= |s.outputs|
    && (s.thread.Waiting? ==> |s.outputs| == s.serviced / FRAG_BYTES)
  }

  lemma OnScheduleIsOnTime(s: State)
    requires Settled(s) && OnSchedule(s)
    ensures OnTime(s)
  {
    assert s.pos < (s.pos / FRAG_BYTES + 1) * FRAG_BYTES;
  }

  lemma SameFragmentNumber(a: nat, b: nat)
    requires a <= b < a + FRAGS && a % FRAGS == b % FRAGS
    ensures a == b
  {
  }

  lemma StepKeepsSettled(s: State, step: Step)
    requires Inv(s) && Settled(s) && Enabled(s, step)
    ensures Settled(Apply(s, step))
  {
    if step.Finish? {
      SameFragmentNumber(|s.outputs|, s.thread.at / FRAG_BYTES);
    }
  }

  /** Every play and sample happens on schedule; otherwise the steps are possible as in `Enabled`. */
  ghost predicate Scheduled(s: State, steps: seq<Step>)
    decreases |steps|
  {
    steps == [] ||
    (&& |s.dma| == BUF_BYTES && s.next < FRAGS
     && (match steps[0]
         case Play => OnSchedule(s)
         case Sample(_) => s.thread.Waiting? && OnSchedule(s)
         case Refill(_) => Enabled(s, steps[0])
         case Finish => Enabled(s, steps[0]))
     && Scheduled(Apply(s, steps[0]), steps[1..]))
  }

  lemma {:induction false} ScheduledRunsAreLegal(s: State, steps: seq<Step>)
    requires Inv(s) && Settled(s) && Scheduled(s, steps)
    ensures Legal(s, steps)
    decreases |steps|
  {
    if steps != [] {
      if OnSchedule(s) {
        OnScheduleIsOnTime(s);
      }
      StepKeepsInv(s, steps[0]);
      StepKeepsSettled(s, steps[0]);
      ScheduledRunsAreLegal(Apply(s, steps[0]), steps[1..]);
    }
  }

  /** With at most three of the four fragments between serviced interrupts, nothing is skipped, replayed or overwritten early. */
  lemma PlaysIntendedStreamOnSchedule(fill: seq<Byte>, steps: seq<Step>)
    requires |fill| == BUF_BYTES && Scheduled(Init(fill), steps)
    ensures Legal(Init(fill), steps)
    ensures var s := Run(Init(fill), steps);
            && s.pos <= |fill + Flatten(s.outputs)|
            && s.played == (fill + Flatten(s.outputs))[..s.pos]
  {
    InitHoldsInv(fill);
    ScheduledRunsAreLegal(Init(fill), steps);
    PlaysIntendedStream(fill, steps);
  }

  // ------------------------------------------------------------------------------------
  // How many fragments one serviced interrupt refills, and what a late one does.
  // ------------------------------------------------------------------------------------

  /** The loop turns as often as fragments are owed, modulo four. */
  lemma TurnsAreOwedModFour(refills: nat, elapsed: nat)
    requires refills <= elapsed
    ensures Turns(refills % FRAGS, elapsed % FRAGS) == (elapsed - refills) % FRAGS
  {
    var a, b := refills % FRAGS, elapsed % FRAGS;
    assert elapsed - refills == (elapsed / FRAGS - refills / FRAGS) * FRAGS + (b - a);
  }

  /** With `refills` done and `elapsed` fragments completed, the loop catches up exactly when fewer than four are owed. */
  lemma CatchesUpIffFewerThanFourOwed(refills: nat, elapsed: nat)
    requires refills <= elapsed
    ensures Turns(refills % FRAGS, elapsed % FRAGS) == elapsed - refills <==> elapsed - refills < FRAGS
  {
    TurnsAreOwedModFour(refills, elapsed);
  }

  /** Serviced one whole ring late, the loop refills nothing and the DAC replays the byte of one ring ago. */
  lemma LateServiceReplays(s: State)
    requires Inv(s) && s.thread.Waiting? && s.pos == (|s.outputs| + FRAGS) * FRAG_BYTES
    ensures var t := Apply(s, Sample(true));
            && Enabled(t, Finish)
            && Apply(Apply(t, Finish), Play).played == s.played + [Intended(s)[s.pos - BUF_BYTES]]
  {
    FragmentOfLpib(s.pos);
    var q := s.pos - BUF_BYTES;
    assert s.dma[q % BUF_BYTES] == Intended(s)[q];
  }
}
