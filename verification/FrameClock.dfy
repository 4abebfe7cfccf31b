/**
 Frame accounting from the link position. Each interrupt, and stream_end once more, adds
 the byte advance since the previous sample; the total of one stream is published in its
 END event, the running total of all streams is the published sample clock.
 */
module FrameClock {
  import opened AudioGeometry

  /** The byte advance between two LPIB samples, across at most one wrap. */
  function Delta(prev: Offset, curr: Offset): nat {
    if curr >= prev then curr - prev else BUF_BYTES - prev + curr
  }

  /** The computed advance is the true one modulo the ring, so it is exact just below one ring. */
  lemma DeltaExactIffUnderOneRing(p: nat, q: nat)
    requires p <= q
    ensures Delta(Lpib(p), Lpib(q)) == (q - p) % BUF_BYTES
    ensures Delta(Lpib(p), Lpib(q)) == q - p <==> q - p < BUF_BYTES
  {
    assert p == p / BUF_BYTES * BUF_BYTES + Lpib(p) && q == q / BUF_BYTES * BUF_BYTES + Lpib(q);
    var laps := q / BUF_BYTES - p / BUF_BYTES;
    assert q - p == laps * BUF_BYTES + (Lpib(q) - Lpib(p));
  }

  /**
   `pos` is the true position and `sampled` its value at the last sample; `samples` counts the
   samples of this stream. `totals` lists the END totals so far, `clock` the published values.
   */
  datatype State = State(active: bool, pos: nat, prevLpib: Offset, frames: nat, total: nat,
                         sampled: nat, samples: nat, aligned: bool, totals: seq<nat>, clock: seq<nat>)

  const INIT := State(false, 0, 0, 0, 0, 0, 0, true, [], [])

  datatype Step = Begin | Advance(bytes: nat) | Interrupt | End

  predicate Enabled(s: State, step: Step) {
    match step
    case Begin => !s.active
    case Advance(_) => s.active
    case Interrupt => s.active
    case End => s.active
  }

  /** The accumulation shared by the interrupt thread and stream_end. */
  function Accumulate(s: State): State {
    var gained := Delta(s.prevLpib, Lpib(s.pos)) / 4;
    s.(frames := s.frames + gained, total := s.total + gained, prevLpib := Lpib(s.pos),
       sampled := s.pos, samples := s.samples + 1, aligned := s.aligned && s.pos % 4 == 0,
       clock := s.clock + [s.total + gained])
  }

  function Apply(s: State, step: Step): State {
    match step
    case Begin => s.(active := true, pos := 0, prevLpib := 0, frames := 0, sampled := 0, samples := 0, aligned := true)
    case Advance(bytes) => s.(pos := s.pos + bytes)
    case Interrupt => Accumulate(s)
    case End => var t := Accumulate(s); t.(active := false, totals := t.totals + [t.frames])
  }

  function Sum(xs: seq<nat>): nat {
    if xs == [] then 0 else Sum(xs[..|xs| - 1]) + xs[|xs| - 1]
  }

  predicate Nondecreasing(xs: seq<nat>) {
    forall i, j | 0 <= i <= j < |xs| :: xs[i] <= xs[j]
  }

  /** The clock law, which needs nothing of the hardware. */
  predicate ClockInv(s: State) {
    && s.total == Sum(s.totals) + (if s.active then s.frames else 0)
    && Nondecreasing(s.clock)
    && (s.clock != [] ==> s.clock[|s.clock| - 1] == s.total)
  }

  lemma StepKeepsClockInv(s: State, step: Step)
    requires ClockInv(s) && Enabled(s, step)
    ensures ClockInv(Apply(s, step))
  {
    if step.End? {
      var t := Apply(s, step);
      assert t.totals[..|s.totals|] == s.totals;
    }
  }

  /** The frame law, for samples less than one ring apart. */
  predicate InTime(s: State, step: Step) {
    (step.Interrupt? || step.End?) ==> s.pos - s.sampled < BUF_BYTES
  }

  predicate FrameInv(s: State) {
    && s.sampled <= s.pos
    && s.prevLpib == Lpib(s.sampled)
    && 4 * s.frames <= s.sampled <= 4 * s.frames + 3 * s.samples
    && (s.aligned ==> s.sampled == 4 * s.frames)
  }

  lemma AccumulateKeepsFrameInv(s: State)
    requires FrameInv(s) && s.pos - s.sampled < BUF_BYTES
    ensures FrameInv(Accumulate(s))
  {
    DeltaExactIffUnderOneRing(s.sampled, s.pos);
    WholeFramesLag(s.sampled, s.pos - s.sampled, s.frames, s.samples);
  }

  /** Rounding each advance down to whole frames loses at most three bytes, and none when both ends are aligned. */
  lemma WholeFramesLag(sampled: nat, advance: nat, frames: nat, samples: nat)
    requires 4 * frames <= sampled <= 4 * frames + 3 * samples
    ensures var total := frames + advance / 4;
            && 4 * total <= sampled + advance <= 4 * total + 3 * (samples + 1)
            && (sampled == 4 * frames && (sampled + advance) % 4 == 0 ==> sampled + advance == 4 * total)
  {
    assert advance == 4 * (advance / 4) + advance % 4;
  }

  lemma StepKeepsFrameInv(s: State, step: Step)
    requires FrameInv(s) && Enabled(s, step) && InTime(s, step)
    ensures FrameInv(Apply(s, step))
  {
    if step.Interrupt? || step.End? {
      AccumulateKeepsFrameInv(s);
    }
  }

  predicate Legal(s: State, steps: seq<Step>)
    decreases |steps|
  {
    steps == [] || (Enabled(s, steps[0]) && Legal(Apply(s, steps[0]), steps[1..]))
  }

  function Run(s: State, steps: seq<Step>): State
    requires Legal(s, steps)
    decreases |steps|
  {
    if steps == [] then s else Run(Apply(s, steps[0]), steps[1..])
  }

  predicate AllInTime(s: State, steps: seq<Step>)
    requires Legal(s, steps)
    decreases |steps|
  {
    steps == [] || (InTime(s, steps[0]) && AllInTime(Apply(s, steps[0]), steps[1..]))
  }

  lemma {:induction false} RunKeepsClockInv(s: State, steps: seq<Step>)
    requires ClockInv(s) && Legal(s, steps)
    ensures ClockInv(Run(s, steps))
    decreases |steps|
  {
    if steps != [] {
      StepKeepsClockInv(s, steps[0]);
      RunKeepsClockInv(Apply(s, steps[0]), steps[1..]);
    }
  }

  lemma {:induction false} RunKeepsFrameInv(s: State, steps: seq<Step>)
    requires FrameInv(s) && Legal(s, steps) && AllInTime(s, steps)
    ensures FrameInv(Run(s, steps))
    decreases |steps|
  {
    if steps != [] {
      StepKeepsFrameInv(s, steps[0]);
      RunKeepsFrameInv(Apply(s, steps[0]), steps[1..]);
    }
  }

  /** Across every stop, start and interrupt the published clock never falls, and is the sum over all streams. */
  lemma ClockNeverFalls(steps: seq<Step>)
    requires Legal(INIT, steps)
    ensures var s := Run(INIT, steps);
            && Nondecreasing(s.clock)
            && s.total == Sum(s.totals) + (if s.active then s.frames else 0)
            && (s.clock != [] ==> s.clock[|s.clock| - 1] == s.total)
  {
    RunKeepsClockInv(INIT, steps);
  }

  /** The END total is the true position in frames; unaligned samples lose under one frame each. */
  lemma EndTotalIsTruePosition(steps: seq<Step>)
    requires Legal(INIT, steps) && AllInTime(INIT, steps)
    requires var s := Run(INIT, steps); s.active && s.pos - s.sampled < BUF_BYTES
    ensures var s := Run(INIT, steps); var t := Apply(s, End); var reported := t.totals[|t.totals| - 1];
            && 4 * reported <= s.pos <= 4 * reported + 3 * t.samples
            && (t.aligned ==> reported == s.pos / 4)
  {
    RunKeepsFrameInv(INIT, steps);
    StepKeepsFrameInv(Run(INIT, steps), End);
  }
}
