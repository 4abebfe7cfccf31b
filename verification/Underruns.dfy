/**
 What refills charge to the underrun record, and the steps of the stream-event machine that
 one run of the interrupt thread performs.
 */
module Underruns {
  import opened AudioGeometry
  import opened StreamEvents

  /** The frames of silence in a fragment for which the ring had `drained` bytes. */
  function Gap(drained: nat): nat {
    if drained < FRAG_BYTES then (FRAG_BYTES - drained) / 4 else 0
  }

  function Charge(p: Pending, drained: nat, pos: nat): Pending {
    if Gap(drained) > 0 then Fold(p, pos, Gap(drained)) else p
  }

  function ChargeAll(p: Pending, drained: seq<nat>, pos: nat): Pending
    decreases |drained|
  {
    if drained == [] then p else ChargeAll(Charge(p, drained[0], pos), drained[1..], pos)
  }

  /** The bytes of silence in those fragments. */
  function Silence(drained: seq<nat>): nat
    decreases |drained|
  {
    if drained == [] then 0 else 4 * Gap(drained[0]) + Silence(drained[1..])
  }

  predicate Chunk(d: nat) {
    d <= FRAG_BYTES && d % 4 == 0
  }

  // ------------------------------------------------------------------------------------
  // The steps of one run of the interrupt thread.
  // ------------------------------------------------------------------------------------

  /** A loss, the fold under the lock and the enqueue of the task. */
  function LossSteps(loss: Step): seq<Step> {
    [loss, FoldLoss, Enqueue]
  }

  function ShortSteps(drained: seq<nat>, pos: nat): seq<Step>
    decreases |drained|
  {
    if drained == [] then []
    else (if Gap(drained[0]) > 0 then LossSteps(ShortRefill(pos, drained[0])) else []) + ShortSteps(drained[1..], pos)
  }

  function ServiceSteps(drained: seq<nat>, fifoe: bool, pos: nat): seq<Step> {
    [Enter] + (ShortSteps(drained, pos) + ((if fifoe then LossSteps(FifoError(pos)) else []) + [Leave]))
  }

  /** What a run of the thread leaves alone. */
  predicate SameStream(e: State, f: State) {
    f.active == e.active && f.log == e.log && f.epoch == e.epoch && f.api == e.api && f.task == e.task
  }

  lemma RunThree(e: State, x: Step, y: Step, z: Step)
    requires Enabled(e, x) && Enabled(Apply(e, x), y) && Enabled(Apply(Apply(e, x), y), z)
    ensures Legal(e, [x, y, z]) && Run(e, [x, y, z]) == Apply(Apply(Apply(e, x), y), z)
  {
    var a := Apply(e, x);
    RunOne(e, x);
    RunOne(a, y);
    RunOne(Apply(a, y), z);
    RunConcat(a, [y], [z]);
    RunConcat(e, [x], [y] + [z]);
    assert [x, y, z] == [x] + ([y] + [z]);
  }

  lemma LossRuns(e: State, loss: Step, frames: nat)
    requires e.thread.Inside? && Frames(e.folded) + frames < U32
    requires (loss.ShortRefill? && loss.drained < FRAG_BYTES && Chunk(loss.drained) && frames == Gap(loss.drained))
             || (loss.FifoError? && frames == FRAG_FRAMES)
    ensures Legal(e, LossSteps(loss))
    ensures var f := Run(e, LossSteps(loss));
            && f.thread == e.thread && SameStream(e, f)
            && f.pending == Fold(e.pending, loss.pos, frames) && Frames(f.folded) == Frames(e.folded) + frames
            && f.zeroBytes == e.zeroBytes + (if loss.ShortRefill? then 4 * frames else 0)
            && f.fifoErrors == e.fifoErrors + (if loss.FifoError? then 1 else 0)
  {
    var a := Apply(e, loss);
    var b := Apply(a, FoldLoss);
    FramesSnoc(e.folded, a.thread.l);
    RunThree(e, loss, FoldLoss, Enqueue);
  }

  lemma {:induction false} ShortsRun(e: State, drained: seq<nat>, pos: nat)
    requires e.thread.Inside? && Frames(e.folded) + FRAG_FRAMES * |drained| < U32
    requires forall i | 0 <= i < |drained| :: Chunk(drained[i])
    ensures Legal(e, ShortSteps(drained, pos))
    ensures var f := Run(e, ShortSteps(drained, pos));
            && f.thread == e.thread && SameStream(e, f)
            && f.pending == ChargeAll(e.pending, drained, pos)
            && Frames(f.folded) <= Frames(e.folded) + FRAG_FRAMES * |drained|
            && f.zeroBytes == e.zeroBytes + Silence(drained) && f.fifoErrors == e.fifoErrors
    decreases |drained|
  {
    if drained != [] {
      var rest := drained[1..];
      if Gap(drained[0]) > 0 {
        var first := LossSteps(ShortRefill(pos, drained[0]));
        LossRuns(e, ShortRefill(pos, drained[0]), Gap(drained[0]));
        ShortsRun(Run(e, first), rest, pos);
        RunConcat(e, first, ShortSteps(rest, pos));
      } else {
        ShortsRun(e, rest, pos);
        assert ShortSteps(drained, pos) == ShortSteps(rest, pos);
      }
    }
  }

  lemma FifoRuns(e: State, fifoe: bool, pos: nat)
    requires e.thread.Inside? && Frames(e.folded) + FRAG_FRAMES < U32
    ensures var steps := (if fifoe then LossSteps(FifoError(pos)) else []) + [Leave];
            && Legal(e, steps)
            && var f := Run(e, steps);
               && f.thread.Outside? && SameStream(e, f) && f.zeroBytes == e.zeroBytes
               && f.pending == (if fifoe then Fold(e.pending, pos, FRAG_FRAMES) else e.pending)
               && f.fifoErrors == e.fifoErrors + (if fifoe then 1 else 0)
  {
    if fifoe {
      LossRuns(e, FifoError(pos), FRAG_FRAMES);
      RunOne(Run(e, LossSteps(FifoError(pos))), Leave);
      RunConcat(e, LossSteps(FifoError(pos)), [Leave]);
    } else {
      RunOne(e, Leave);
      assert [] + [Leave] == [Leave];
    }
  }

  lemma StepsRun(e: State, drained: seq<nat>, fifoe: bool, pos: nat)
    requires e.active && e.thread.Outside? && Frames(e.folded) + FRAG_FRAMES * (|drained| + 1) < U32
    requires forall i | 0 <= i < |drained| :: Chunk(drained[i])
    ensures Legal(e, ServiceSteps(drained, fifoe, pos))
    ensures var f, charged := Run(e, ServiceSteps(drained, fifoe, pos)), ChargeAll(e.pending, drained, pos);
            && f.thread.Outside? && SameStream(e, f)
            && f.pending == (if fifoe then Fold(charged, pos, FRAG_FRAMES) else charged)
            && f.zeroBytes == e.zeroBytes + Silence(drained)
            && f.fifoErrors == e.fifoErrors + (if fifoe then 1 else 0)
  {
    var a := Apply(e, Enter);
    var last := (if fifoe then LossSteps(FifoError(pos)) else []) + [Leave];
    RunOne(e, Enter);
    ShortsRun(a, drained, pos);
    var b := Run(a, ShortSteps(drained, pos));
    FifoRuns(b, fifoe, pos);
    RunConcat(a, ShortSteps(drained, pos), last);
    RunConcat(e, [Enter], ShortSteps(drained, pos) + last);
  }
}
