/**
 The whole playback path: write(2) fills the byte ring, the interrupt thread moves
 fragments from the byte ring to the DMA ring, the DAC plays the DMA ring. The two
 protocols run freely interleaved and meet in the refill.
 */
module Pipeline {
  import opened AudioGeometry
  import opened Bytes
  import DmaRing
  import UserRing

  /** How many bytes the ring held before a refill, and how many it holds after. */
  datatype Level = Level(before: nat, after: nat)

  /**
   `taken` lists the bytes each refill drained and `levels` what it did to the ring;
   `gapFrames` counts the silence inserted.
   */
  datatype State = State(user: UserRing.State, hw: DmaRing.State, taken: seq<seq<Byte>>, gapFrames: nat,
                         levels: seq<Level>)

  datatype Step = Writer(w: UserRing.Step) | Hardware(h: DmaRing.Step) | Refill

  function Init(mem: seq<Byte>, fill: seq<Byte>): State {
    State(UserRing.Init(mem), DmaRing.Init(fill), [], 0, [])
  }

  /** A refill output: what the ring had, then silence. */
  function Pad(chunk: seq<Byte>): seq<Byte> {
    chunk + Zeros(FRAG_BYTES - Min(|chunk|, FRAG_BYTES))
  }

  function Padded(chunks: seq<seq<Byte>>): seq<seq<Byte>> {
    seq(|chunks|, i requires 0 <= i < |chunks| => Pad(chunks[i]))
  }

  ghost predicate Ready(s: State) {
    s.user.ring.Valid() && |s.hw.dma| == BUF_BYTES && s.hw.next < FRAGS
  }

  ghost predicate Enabled(s: State, step: Step)
    requires Ready(s)
  {
    match step
    case Writer(w) => (w.Reserve? || w.CopyByte? || w.Abort? || w.Commit?) && UserRing.Enabled(s.user, w)
    case Hardware(h) => !h.Refill? && DmaRing.Enabled(s.hw, h)
    case Refill => DmaRing.Enabled(s.hw, DmaRing.Refill(s.user.ring.Fragment()))
  }

  /** A writer step must be possible; the hardware and the refill can always be asked what they would do. */
  ghost predicate Applicable(s: State, step: Step)
    requires Ready(s)
  {
    (step.Writer? ==> Enabled(s, step)) && (step.Hardware? ==> !step.h.Refill?)
  }

  ghost function Apply(s: State, step: Step): State
    requires Ready(s) && Applicable(s, step)
  {
    match step
    case Writer(w) => s.(user := UserRing.Apply(s.user, w))
    case Hardware(h) => s.(hw := DmaRing.Apply(s.hw, h))
    case Refill =>
      var ring, user := s.user.ring, UserRing.Apply(s.user, UserRing.Refill);
      State(user, DmaRing.Apply(s.hw, DmaRing.Refill(ring.Fragment())),
            s.taken + [ring.Contents()[..ring.Take()]], s.gapFrames + (FRAG_BYTES - ring.Take()) / 4,
            s.levels + [Level(ring.head - ring.tail, user.ring.head - user.ring.tail)])
  }

  ghost predicate Glue(s: State) {
    && s.hw.outputs == Padded(s.taken)
    && s.user.drained == Flatten(s.taken)
    && 4 * s.gapFrames + |s.user.drained| == FRAG_BYTES * |s.taken|
  }

  /** A refill drains what it takes off the ring, and leaves something only if it drained a full fragment. */
  predicate Thorough(chunk: seq<Byte>, level: Level) {
    |chunk| == level.before - level.after && |chunk| <= FRAG_BYTES && (|chunk| == FRAG_BYTES || level.after == 0)
  }

  predicate AllThorough(s: State) {
    |s.levels| == |s.taken| && forall i | 0 <= i < |s.taken| :: Thorough(s.taken[i], s.levels[i])
  }

  ghost predicate Inv(s: State) {
    UserRing.Inv(s.user) && DmaRing.Inv(s.hw) && Glue(s) && AllThorough(s)
  }

  lemma RefillIsThorough(s: State)
    requires Ready(s) && Enabled(s, Refill) && AllThorough(s)
    ensures AllThorough(Apply(s, Refill))
  {
    var t := Apply(s, Refill);
    assert Thorough(t.taken[|s.taken|], t.levels[|s.taken|]);
  }

  lemma RefillKeepsGlue(s: State)
    requires Inv(s) && Enabled(s, Refill)
    ensures Glue(Apply(s, Refill))
  {
    var ring := s.user.ring;
    var chunk := ring.Contents()[..ring.Take()];
    FlattenSnoc(s.taken, chunk);
    assert ring.Fragment() == Pad(chunk);
    assert Padded(s.taken + [chunk]) == Padded(s.taken) + [Pad(chunk)];
  }

  lemma StepKeepsInv(s: State, step: Step)
    requires Inv(s) && Enabled(s, step)
    ensures Inv(Apply(s, step))
  {
    match step
    case Writer(w) => UserRing.StepKeepsInv(s.user, w);
    case Hardware(h) => DmaRing.StepKeepsInv(s.hw, h);
    case Refill =>
      RefillKeepsGlue(s);
      RefillIsThorough(s);
      UserRing.StepKeepsInv(s.user, UserRing.Refill);
      DmaRing.StepKeepsInv(s.hw, DmaRing.Refill(s.user.ring.Fragment()));
  }

  ghost predicate Legal(s: State, steps: seq<Step>)
    decreases |steps|
  {
    steps == [] || (Ready(s) && Enabled(s, steps[0]) && Legal(Apply(s, steps[0]), steps[1..]))
  }

  ghost function Run(s: State, steps: seq<Step>): State
    requires Legal(s, steps)
    decreases |steps|
  {
    if steps == [] then s else Run(Apply(s, steps[0]), steps[1..])
  }

  /** Whatever every possible step keeps, every run keeps. */
  lemma {:induction false} RunKeeps(P: State -> bool, s: State, steps: seq<Step>)
    requires P(s) && Legal(s, steps)
    requires forall t, step | P(t) && Ready(t) && Enabled(t, step) :: P(Apply(t, step))
    ensures P(Run(s, steps))
    decreases |steps|
  {
    if steps != [] {
      RunKeeps(P, Apply(s, steps[0]), steps[1..]);
    }
  }

  lemma StepKeepsFill(s: State, step: Step)
    requires Ready(s) && Enabled(s, step)
    ensures Apply(s, step).hw.initial == s.hw.initial
  {
  }

  lemma RunKeepsInv(s: State, steps: seq<Step>)
    requires Inv(s) && Legal(s, steps)
    ensures Inv(Run(s, steps)) && Run(s, steps).hw.initial == s.hw.initial
  {
    var fill := s.hw.initial;
    var Good := t => Inv(t) && t.hw.initial == fill;
    forall t, step | Good(t) && Ready(t) && Enabled(t, step)
      ensures Good(Apply(t, step))
    {
      StepKeepsInv(t, step);
      StepKeepsFill(t, step);
    }
    RunKeeps(Good, s, steps);
  }

  /**
   End to end, over every on-time run: the DAC plays the initial fill and then, fragment by
   fragment, exactly the committed bytes in order with silence after each short chunk; a chunk
   is short only if it emptied the ring; what was not yet drained is still in the ring; and the
   inserted silence is counted exactly.
   */
  lemma DacPlaysCommittedBytes(mem: seq<Byte>, fill: seq<Byte>, steps: seq<Step>)
    requires |mem| == RING_BYTES && |fill| == BUF_BYTES
    requires Legal(Init(mem, fill), steps)
    ensures var s := Run(Init(mem, fill), steps);
            var intended := fill + Flatten(Padded(s.taken));
            && s.user.ring.Valid()
            && s.hw.pos <= |intended|
            && s.hw.played == intended[..s.hw.pos]
            && Flatten(s.taken) + s.user.ring.Contents() == s.user.committed
            && 4 * s.gapFrames + |Flatten(s.taken)| == FRAG_BYTES * |s.taken|
            && |s.levels| == |s.taken|
            && (forall i | 0 <= i < |s.taken| ::
                  && |s.taken[i]| == s.levels[i].before - s.levels[i].after
                  && (|s.taken[i]| < FRAG_BYTES ==> s.levels[i].before < FRAG_BYTES && s.levels[i].after == 0))
  {
    InitHoldsInv(mem, fill);
    RunKeepsInv(Init(mem, fill), steps);
  }

  // ------------------------------------------------------------------------------------
  // The same from the interrupt schedule.
  // ------------------------------------------------------------------------------------

  /** The step is possible, with plays and samples judged by the interrupt schedule alone. */
  ghost predicate OnSchedule(s: State, step: Step)
    requires Ready(s)
  {
    match step
    case Hardware(Play) => DmaRing.OnSchedule(s.hw)
    case Hardware(Sample(_)) => s.hw.thread.Waiting? && DmaRing.OnSchedule(s.hw)
    case _ => Enabled(s, step)
  }

  ghost predicate Scheduled(s: State, steps: seq<Step>)
    decreases |steps|
  {
    steps == [] || (Ready(s) && OnSchedule(s, steps[0]) && Scheduled(Apply(s, steps[0]), steps[1..]))
  }

  lemma OnScheduleIsEnabled(s: State, step: Step)
    requires Ready(s) && DmaRing.Settled(s.hw) && OnSchedule(s, step)
    ensures Enabled(s, step)
  {
    if DmaRing.OnSchedule(s.hw) {
      DmaRing.OnScheduleIsOnTime(s.hw);
    }
  }

  lemma StepKeepsSettled(s: State, step: Step)
    requires Inv(s) && DmaRing.Settled(s.hw) && Enabled(s, step)
    ensures DmaRing.Settled(Apply(s, step).hw)
  {
    match step
    case Writer(_) =>
    case Hardware(h) => DmaRing.StepKeepsSettled(s.hw, h);
    case Refill => DmaRing.StepKeepsSettled(s.hw, DmaRing.Refill(s.user.ring.Fragment()));
  }

  lemma {:induction false} ScheduledRunsAreLegal(s: State, steps: seq<Step>)
    requires Inv(s) && DmaRing.Settled(s.hw) && Scheduled(s, steps)
    ensures Legal(s, steps)
    decreases |steps|
  {
    if steps != [] {
      OnScheduleIsEnabled(s, steps[0]);
      StepKeepsInv(s, steps[0]);
      StepKeepsSettled(s, steps[0]);
      ScheduledRunsAreLegal(Apply(s, steps[0]), steps[1..]);
    }
  }

  lemma InitHoldsInv(mem: seq<Byte>, fill: seq<Byte>)
    requires |mem| == RING_BYTES && |fill| == BUF_BYTES
    ensures Inv(Init(mem, fill)) && DmaRing.Settled(Init(mem, fill).hw)
  {
    DmaRing.InitHoldsInv(fill);
  }

  /** End to end, if at most three of the four fragments elapse between serviced interrupts. */
  lemma DacPlaysCommittedBytesOnSchedule(mem: seq<Byte>, fill: seq<Byte>, steps: seq<Step>)
    requires |mem| == RING_BYTES && |fill| == BUF_BYTES
    requires Scheduled(Init(mem, fill), steps)
    ensures Legal(Init(mem, fill), steps)
    ensures var s := Run(Init(mem, fill), steps);
            var intended := fill + Flatten(Padded(s.taken));
            && s.user.ring.Valid()
            && s.hw.pos <= |intended|
            && s.hw.played == intended[..s.hw.pos]
            && Flatten(s.taken) + s.user.ring.Contents() == s.user.committed
            && 4 * s.gapFrames + |Flatten(s.taken)| == FRAG_BYTES * |s.taken|
            && |s.levels| == |s.taken|
            && (forall i | 0 <= i < |s.taken| ::
                  && |s.taken[i]| == s.levels[i].before - s.levels[i].after
                  && (|s.taken[i]| < FRAG_BYTES ==> s.levels[i].before < FRAG_BYTES && s.levels[i].after == 0))
  {
    InitHoldsInv(mem, fill);
    ScheduledRunsAreLegal(Init(mem, fill), steps);
    DacPlaysCommittedBytes(mem, fill, steps);
  }
}
