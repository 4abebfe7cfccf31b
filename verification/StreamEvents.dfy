/**
 The stream events of one controller. Four parties touch the same record: the interrupt
 thread folds underruns into a pending batch, a deferred task drains and publishes the
 batch, stream_end drains it one last time, and stream_begin / SET_FORMAT publish around
 them. Every lock hold and every publish is a step of its own.
 */
module StreamEvents {
  import opened AudioGeometry

  const U32: nat := 0x1_0000_0000

  /** One underrun: the frames lost, the position it was recorded at, and the stream whose interrupt found it. */
  datatype Loss = Loss(pos: nat, frames: nat, stream: nat)

  /** The pending_xrun_* fields, under the interrupt spin lock; the counters are 32 bits wide. */
  datatype Pending = Pending(frames: nat, count: nat, gapPos: nat)

  const CLEAR := Pending(0, 0, 0)

  function Fold(p: Pending, pos: nat, frames: nat): Pending {
    Pending((p.frames + frames) % U32, (p.count + 1) % U32, if p.frames == 0 then pos else p.gapPos)
  }

  /** `losses` records which underruns an XRUN event stands for. */
  datatype Event =
    | Begin
    | Xrun(gapFrames: nat, gapPos: nat, coalesced: bool, losses: seq<Loss>)
    | FormatChange
    | End

  /** A batch taken out of the pending fields and not yet published. */
  datatype Holder = Empty | Batch(p: Pending, losses: seq<Loss>)

  /** The interrupt thread past its guard belongs to the stream that was active then. */
  datatype IThread = Outside | Inside(stream: nat) | Owing(l: Loss) | Enqueuing(stream: nat)

  /** The serialised begin/end caller: which part of stream_begin or stream_end it has reached. */
  datatype Api = Ready | Beginning | Gated(h: Holder) | Draining | Finishing

  /**
   `epoch` counts the streams begun. `zeroBytes` counts the silence written into user
   fragments and `fifoErrors` the FIFO errors, both since attach. `foldsSinceGate` counts the
   folds since the last stream_end drained; `straggled` is set once a loss is folded after its
   own stream was drained.
   */
  datatype State = State(active: bool, pending: Pending, folded: seq<Loss>, thread: IThread,
                         queued: bool, task: Holder, api: Api, log: seq<Event>, all: seq<Loss>,
                         epoch: nat, zeroBytes: nat, fifoErrors: nat, foldsSinceGate: nat, straggled: bool)

  const INIT := State(false, CLEAR, [], Outside, false, Empty, Ready, [], [], 0, 0, 0, 0, false)

  /** `ShortRefill` is a fragment for which the ring held only `drained` bytes. */
  datatype Step =
    | BeginPublish | BeginActivate
    | EndGate | EndPublish | EndDrained | EndFinish
    | FormatChanged
    | Enter | ShortRefill(pos: nat, drained: nat) | FifoError(pos: nat) | FoldLoss | Enqueue | Leave
    | TaskRun | TaskPublish

  function PublishBatch(log: seq<Event>, h: Holder): seq<Event> {
    if h.Batch? && h.p.frames > 0
    then log + [Xrun(h.p.frames, h.p.gapPos, h.p.count > 1, h.losses)]
    else log
  }

  function Frames(losses: seq<Loss>): nat {
    if losses == [] then 0 else Frames(losses[..|losses| - 1]) + losses[|losses| - 1].frames
  }

  /** The first stream whose events can still carry what is folded now. */
  function Due(s: State): nat {
    if s.active || s.api.Beginning? then s.epoch else s.epoch + 1
  }

  predicate Enabled(s: State, step: Step) {
    match step
    case BeginPublish => s.api.Ready? && !s.active
    case BeginActivate => s.api.Beginning?
    case EndGate => s.api.Ready? && s.active
    case EndPublish => s.api.Gated?
    case EndDrained => s.api.Draining? && !s.queued && s.task.Empty?
    case EndFinish => s.api.Finishing?
    case FormatChanged => s.api.Ready? && s.active
    case Enter => s.thread.Outside? && s.active
    case ShortRefill(_, drained) => s.thread.Inside? && drained < FRAG_BYTES && drained % 4 == 0
    case FifoError(_) => s.thread.Inside?
    case FoldLoss => s.thread.Owing? && Frames(s.folded) + s.thread.l.frames < U32
    case Enqueue => s.thread.Enqueuing?
    case Leave => s.thread.Inside?
    case TaskRun => s.queued && s.task.Empty?
    case TaskPublish => s.task.Batch?
  }

  function Suffer(s: State, l: Loss): State {
    s.(thread := Owing(l), all := s.all + [l])
  }

  function Apply(s: State, step: Step): State
    requires Enabled(s, step)
  {
    match step
    case BeginPublish => s.(log := s.log + [Begin], api := Beginning, epoch := s.epoch + 1)
    case BeginActivate => s.(active := true, api := Ready)
    case EndGate =>
      s.(active := false, api := Gated(Batch(s.pending, s.folded)), pending := CLEAR, folded := [], foldsSinceGate := 0)
    case EndPublish => s.(log := PublishBatch(s.log, s.api.h), api := Draining)
    case EndDrained => s.(api := Finishing)
    case EndFinish => s.(log := s.log + [End], api := Ready)
    case FormatChanged => s.(log := s.log + [FormatChange])
    case Enter => s.(thread := Inside(s.epoch))
    case ShortRefill(pos, drained) =>
      Suffer(s, Loss(pos, (FRAG_BYTES - drained) / 4, s.thread.stream)).(zeroBytes := s.zeroBytes + (FRAG_BYTES - drained))
    case FifoError(pos) =>
      Suffer(s, Loss(pos, FRAG_FRAMES, s.thread.stream)).(fifoErrors := s.fifoErrors + 1)
    case FoldLoss =>
      var l := s.thread.l;
      s.(thread := Enqueuing(l.stream), pending := Fold(s.pending, l.pos, l.frames), folded := s.folded + [l],
         foldsSinceGate := s.foldsSinceGate + 1, straggled := s.straggled || l.stream < Due(s))
    case Enqueue => s.(thread := Inside(s.thread.stream), queued := true)
    case Leave => s.(thread := Outside)
    case TaskRun =>
      if s.active
      then s.(queued := false, pending := CLEAR, folded := [],
              task := if s.pending.frames > 0 then Batch(s.pending, s.folded) else Empty)
      else s.(queued := false)
    case TaskPublish => s.(log := PublishBatch(s.log, s.task), task := Empty)
  }

  /** Each publish adds its own event and no other step adds any; an XRUN is published exactly for a batch that lost frames. */
  lemma StepPublishes(s: State, step: Step)
    requires Enabled(s, step)
    ensures var log := Apply(s, step).log;
            && (step.BeginPublish? ==> log == s.log + [Begin])
            && (step.EndFinish? ==> log == s.log + [End])
            && (step.FormatChanged? ==> log == s.log + [FormatChange])
            && (step.TaskPublish? || step.EndPublish? ==>
                  var h := if step.TaskPublish? then s.task else s.api.h;
                  if h.Batch? && h.p.frames > 0 then |log| == |s.log| + 1 && s.log < log && log[|s.log|].Xrun? else log == s.log)
            && (!(step.BeginPublish? || step.EndFinish? || step.FormatChanged? || step.TaskPublish? || step.EndPublish?) ==>
                  log == s.log)
  {
  }

  // ------------------------------------------------------------------------------------
  // The grammar (BEGIN (XRUN | FORMAT_CHANGE)* END)*, as an independent recogniser.
  // ------------------------------------------------------------------------------------

  datatype Phase = Closed | Open | Broken

  function Next(p: Phase, e: Event): Phase {
    match (p, e)
    case (Closed, Begin) => Open
    case (Open, Xrun(_, _, _, _)) => Open
    case (Open, FormatChange) => Open
    case (Open, End) => Closed
    case _ => Broken
  }

  function Recognise(log: seq<Event>): Phase {
    if log == [] then Closed else Next(Recognise(log[..|log| - 1]), log[|log| - 1])
  }

  lemma RecogniseSnoc(log: seq<Event>, e: Event)
    ensures Recognise(log + [e]) == Next(Recognise(log), e)
  {
    assert (log + [e])[..|log|] == log;
  }

  /** The stream is between its BEGIN and its END. */
  predicate Streaming(s: State) {
    s.active || !s.api.Ready?
  }

  ghost predicate Grammar(s: State) {
    && Recognise(s.log) == (if Streaming(s) then Open else Closed)
    && (s.active ==> s.api.Ready?)
    && (s.task.Batch? ==> Streaming(s) && !s.api.Beginning? && !s.api.Finishing?)
  }

  lemma StepKeepsGrammar(s: State, step: Step)
    requires Grammar(s) && Enabled(s, step)
    ensures Grammar(Apply(s, step))
  {
    var t := Apply(s, step);
    if t.log != s.log {
      assert t.log == s.log + [t.log[|s.log|]];
      RecogniseSnoc(s.log, t.log[|s.log|]);
    }
  }

  // ------------------------------------------------------------------------------------
  // Conservation of underruns.
  // ------------------------------------------------------------------------------------

  function HeldBy(h: Holder): seq<Loss> {
    if h.Batch? then h.losses else []
  }

  function HeldByApi(s: State): seq<Loss> {
    if s.api.Gated? then HeldBy(s.api.h) else []
  }

  function Owed(s: State): seq<Loss> {
    if s.thread.Owing? then [s.thread.l] else []
  }

  /** The underruns that the published XRUN events stand for. */
  function Published(log: seq<Event>): seq<Loss> {
    if log == [] then []
    else Published(log[..|log| - 1]) + (if log[|log| - 1].Xrun? then log[|log| - 1].losses else [])
  }

  /** The gap frames that the published XRUN events announce. */
  function Announced(log: seq<Event>): nat {
    if log == [] then 0
    else Announced(log[..|log| - 1]) + (if log[|log| - 1].Xrun? then log[|log| - 1].gapFrames else 0)
  }

  lemma PublishedSnoc(log: seq<Event>, e: Event)
    ensures Published(log + [e]) == Published(log) + (if e.Xrun? then e.losses else [])
    ensures Announced(log + [e]) == Announced(log) + (if e.Xrun? then e.gapFrames else 0)
  {
    assert (log + [e])[..|log|] == log;
  }

  lemma FramesSnoc(losses: seq<Loss>, l: Loss)
    ensures Frames(losses + [l]) == Frames(losses) + l.frames
  {
    assert (losses + [l])[..|losses|] == losses;
  }

  /** The 32-bit fields summarise the folded underruns exactly. */
  ghost predicate Summarises(p: Pending, losses: seq<Loss>) {
    && p.frames == Frames(losses)
    && p.count == |losses| <= p.frames < U32
    && (losses != [] ==> p.gapPos == losses[0].pos)
  }

  ghost predicate HolderOk(h: Holder) {
    h.Batch? ==> Summarises(h.p, h.losses)
  }

  ghost predicate Exact(e: Event) {
    e.Xrun? ==>
      && e.losses != []
      && e.gapFrames == Frames(e.losses)
      && (e.coalesced <==> |e.losses| > 1)
      && e.gapPos == e.losses[0].pos
  }

  ghost predicate Accounted(s: State) {
    && Summarises(s.pending, s.folded)
    && HolderOk(s.task)
    && (s.api.Gated? ==> HolderOk(s.api.h))
    && (s.thread.Owing? ==> 1 <= s.thread.l.frames <= FRAG_FRAMES)
    && (forall e | e in s.log :: Exact(e))
  }

  /** The frames lost are the silence written plus one fragment per FIFO error. */
  predicate Measured(s: State) {
    4 * Frames(s.all) == s.zeroBytes + FRAG_BYTES * s.fifoErrors
  }

  function Count(losses: seq<Loss>, l: Loss): nat {
    multiset(losses)[l]
  }

  /** Every underrun is in exactly one place. */
  ghost predicate EachOnce(s: State) {
    forall l :: Count(s.all, l) == Count(Published(s.log), l) + Count(s.folded, l) + Count(HeldBy(s.task), l)
                                   + Count(HeldByApi(s), l) + Count(Owed(s), l)
  }

  /** And so are the frames it lost. */
  ghost predicate FramesConserved(s: State) {
    Frames(s.all) == Announced(s.log) + s.pending.frames + Frames(HeldBy(s.task))
                     + Frames(HeldByApi(s)) + Frames(Owed(s))
  }

  lemma FoldSummarises(p: Pending, losses: seq<Loss>, l: Loss)
    requires Summarises(p, losses) && 1 <= l.frames && Frames(losses) + l.frames < U32
    ensures Summarises(Fold(p, l.pos, l.frames), losses + [l])
  {
    FramesSnoc(losses, l);
    assert losses == [] <==> p.frames == 0 by {
      if losses == [] { assert Frames(losses) == 0; }
    }
  }

  lemma StepKeepsAccounted(s: State, step: Step)
    requires Accounted(s) && Enabled(s, step)
    ensures Accounted(Apply(s, step))
  {
    if step.FoldLoss? {
      FoldSummarises(s.pending, s.folded, s.thread.l);
    }
  }

  lemma StepKeepsMeasured(s: State, step: Step)
    requires Measured(s) && Enabled(s, step)
    ensures Measured(Apply(s, step))
  {
    var t := Apply(s, step);
    if step.ShortRefill? || step.FifoError? {
      FramesSnoc(s.all, t.thread.l);
    }
  }

  lemma PublishMovesBatch(log: seq<Event>, h: Holder)
    requires HolderOk(h)
    ensures forall l :: Count(Published(PublishBatch(log, h)), l) == Count(Published(log), l) + Count(HeldBy(h), l)
    ensures Announced(PublishBatch(log, h)) == Announced(log) + Frames(HeldBy(h))
  {
    if h.Batch? && h.p.frames > 0 {
      PublishedSnoc(log, Xrun(h.p.frames, h.p.gapPos, h.p.count > 1, h.losses));
    } else {
      assert HeldBy(h) == [];
    }
  }

  lemma PublishOtherMovesNothing(log: seq<Event>, e: Event)
    requires !e.Xrun?
    ensures Published(log + [e]) == Published(log) && Announced(log + [e]) == Announced(log)
  {
    PublishedSnoc(log, e);
  }

  ghost predicate Conserved(s: State) {
    EachOnce(s) && FramesConserved(s)
  }

  /** Two states that hold the same losses in the same places. */
  predicate SameAccounts(s: State, t: State) {
    && t.all == s.all && t.folded == s.folded && t.pending == s.pending && HeldBy(t.task) == HeldBy(s.task)
    && HeldByApi(t) == HeldByApi(s) && Owed(t) == Owed(s)
    && Published(t.log) == Published(s.log) && Announced(t.log) == Announced(s.log)
  }

  lemma SameAccountsConserve(s: State, t: State)
    requires Conserved(s) && SameAccounts(s, t)
    ensures Conserved(t)
  {
  }

  lemma QuietStepMovesNothing(s: State, step: Step)
    requires Enabled(s, step)
    requires step in {BeginPublish, BeginActivate, EndDrained, EndFinish, FormatChanged, Enter, Enqueue, Leave}
    ensures SameAccounts(s, Apply(s, step))
  {
    match step
    case BeginPublish => PublishOtherMovesNothing(s.log, Begin);
    case EndFinish => PublishOtherMovesNothing(s.log, End);
    case FormatChanged => PublishOtherMovesNothing(s.log, FormatChange);
    case _ =>
  }

  lemma QuietStepConserves(s: State, step: Step)
    requires Conserved(s) && Enabled(s, step)
    requires step in {BeginPublish, BeginActivate, EndDrained, EndFinish, FormatChanged, Enter, Enqueue, Leave}
    ensures Conserved(Apply(s, step))
  {
    QuietStepMovesNothing(s, step);
    SameAccountsConserve(s, Apply(s, step));
  }

  lemma EndStepConserves(s: State, step: Step)
    requires Accounted(s) && Conserved(s) && Enabled(s, step)
    requires step.EndGate? || step.EndPublish?
    ensures Conserved(Apply(s, step))
  {
    if step.EndPublish? {
      PublishMovesBatch(s.log, s.api.h);
    }
  }

  lemma CountSnoc(losses: seq<Loss>, x: Loss, l: Loss)
    ensures Count(losses + [x], l) == Count(losses, l) + Count([x], l)
  {
  }

  lemma SufferConserves(s: State, x: Loss)
    requires Conserved(s) && s.thread.Inside?
    ensures Conserved(Suffer(s, x))
  {
    FramesSnoc(s.all, x);
    FramesSnoc([], x);
    forall l {
      CountSnoc(s.all, x, l);
    }
  }

  lemma FoldConserves(s: State)
    requires Accounted(s) && Conserved(s) && Enabled(s, FoldLoss)
    ensures Conserved(Apply(s, FoldLoss))
  {
    var t := Apply(s, FoldLoss);
    assert FramesConserved(t) by {
      assert t.pending.frames == s.pending.frames + s.thread.l.frames;
      FramesSnoc([], s.thread.l);
    }
    assert EachOnce(t) by {
      forall l
        ensures Count(t.folded, l) == Count(s.folded, l) + Count(Owed(s), l) && Count(Owed(t), l) == 0
      {
        CountSnoc(s.folded, s.thread.l, l);
      }
    }
  }

  lemma TaskRunConserves(s: State)
    requires Accounted(s) && Conserved(s) && Enabled(s, TaskRun)
    ensures Conserved(Apply(s, TaskRun))
  {
  }

  lemma TaskPublishConserves(s: State)
    requires Accounted(s) && Conserved(s) && Enabled(s, TaskPublish)
    ensures Conserved(Apply(s, TaskPublish))
  {
    var t := Apply(s, TaskPublish);
    PublishMovesBatch(s.log, s.task);
    assert FramesConserved(t);
    forall l
      ensures Count(t.all, l) == Count(Published(t.log), l) + Count(t.folded, l) + Count(HeldBy(t.task), l)
                                 + Count(HeldByApi(t), l) + Count(Owed(t), l)
    {
      assert Count(Published(t.log), l) == Count(Published(s.log), l) + Count(HeldBy(s.task), l);
      assert Count(HeldBy(t.task), l) == 0;
    }
  }

  lemma StepConserves(s: State, step: Step)
    requires Accounted(s) && Conserved(s) && Enabled(s, step)
    ensures Conserved(Apply(s, step))
  {
    match step
    case ShortRefill(_, _) => SufferConserves(s, Apply(s, step).thread.l);
    case FifoError(_) => SufferConserves(s, Apply(s, step).thread.l);
    case FoldLoss => FoldConserves(s);
    case TaskRun => TaskRunConserves(s);
    case TaskPublish => TaskPublishConserves(s);
    case EndGate => EndStepConserves(s, step);
    case EndPublish => EndStepConserves(s, step);
    case _ => QuietStepConserves(s, step);
  }

  // ------------------------------------------------------------------------------------
  // Whole runs.
  // ------------------------------------------------------------------------------------

  ghost predicate Inv(s: State) {
    Grammar(s) && Accounted(s) && Conserved(s) && Measured(s)
  }

  lemma StepKeepsInv(s: State, step: Step)
    requires Inv(s) && Enabled(s, step)
    ensures Inv(Apply(s, step))
  {
    StepKeepsGrammar(s, step);
    StepKeepsAccounted(s, step);
    StepConserves(s, step);
    StepKeepsMeasured(s, step);
  }

  predicate Legal(s: State, steps: seq<Step>)
    decreases |steps|
  {
    steps == [] || (Enabled(s, steps[0]) && Legal(Apply(s, steps[0]), steps[1..]))
  }

  function Run(s: State, steps: seq<Step>): State
    requires Legal(s, steps)
    decreases |steps|
  {
    if steps == [] then s else Run(Apply(s, steps[0]), steps[1..])
  }

  lemma {:induction false} RunKeepsInv(s: State, steps: seq<Step>)
    requires Inv(s) && Legal(s, steps)
    ensures Inv(Run(s, steps))
    decreases |steps|
  {
    if steps != [] {
      StepKeepsInv(s, steps[0]);
      RunKeepsInv(Apply(s, steps[0]), steps[1..]);
    }
  }

  lemma {:induction false} RunConcat(s: State, a: seq<Step>, b: seq<Step>)
    requires Legal(s, a) && Legal(Run(s, a), b)
    ensures Legal(s, a + b) && Run(s, a + b) == Run(Run(s, a), b)
    decreases |a|
  {
    if a == [] {
      assert a + b == b;
    } else {
      assert (a + b)[0] == a[0] && (a + b)[1..] == a[1..] + b;
      RunConcat(Apply(s, a[0]), a[1..], b);
    }
  }

  ghost predicate Reachable(s: State) {
    exists steps :: Legal(INIT, steps) && Run(INIT, steps) == s
  }

  lemma ReachInit()
    ensures Reachable(INIT)
  {
    assert Legal(INIT, []) && Run(INIT, []) == INIT;
  }

  lemma RunOne(s: State, step: Step)
    requires Enabled(s, step)
    ensures Legal(s, [step]) && Run(s, [step]) == Apply(s, step)
  {
    assert [step][1..] == [];
    assert Legal(Apply(s, step), []);
  }

  lemma ReachStep(s: State, step: Step)
    requires Reachable(s) && Enabled(s, step)
    ensures Reachable(Apply(s, step))
  {
    var steps :| Legal(INIT, steps) && Run(INIT, steps) == s;
    RunOne(s, step);
    RunConcat(INIT, steps, [step]);
  }

  lemma InitAccounts()
    ensures Grammar(INIT) && Accounted(INIT) && Measured(INIT)
  {
  }

  lemma InitConserves()
    ensures Conserved(INIT)
  {
  }

  lemma InitHoldsInv()
    ensures Inv(INIT)
  {
    InitAccounts();
    InitConserves();
  }

  lemma ReachableIsSound(s: State)
    requires Reachable(s)
    ensures Inv(s)
  {
    var steps :| Legal(INIT, steps) && Run(INIT, steps) == s;
    InitHoldsInv();
    RunKeepsInv(INIT, steps);
  }

  /** Every interleaving leaves a log that is (BEGIN (XRUN | FORMAT_CHANGE)* END)*, possibly cut short. */
  lemma LogIsWellFormed(s: State)
    requires Reachable(s)
    ensures Recognise(s.log) != Broken
    ensures s.active ==> Recognise(s.log) == Open
  {
    ReachableIsSound(s);
  }

  /**
   Every interleaving accounts for every underrun exactly once, to the frame: what was
   published, what is pending and what someone holds add up to the frames of silence written
   plus one fragment per FIFO error.
   */
  lemma UnderrunsConserved(s: State)
    requires Reachable(s)
    ensures EachOnce(s)
    ensures 4 * (Announced(s.log) + s.pending.frames + Frames(HeldBy(s.task)) + Frames(HeldByApi(s)) + Frames(Owed(s)))
         == s.zeroBytes + FRAG_BYTES * s.fifoErrors
    ensures forall e | e in s.log :: Exact(e)
  {
    ReachableIsSound(s);
  }

  // ------------------------------------------------------------------------------------
  // Which stream an underrun is published in.
  // ------------------------------------------------------------------------------------

  /** How many streams the log has begun. */
  function Begins(log: seq<Event>): nat {
    if log == [] then 0 else Begins(log[..|log| - 1]) + if log[|log| - 1].Begin? then 1 else 0
  }

  predicate AllOf(losses: seq<Loss>, stream: nat) {
    forall i | 0 <= i < |losses| :: losses[i].stream == stream
  }

  /** Every XRUN carries only losses of the stream between whose BEGIN and END it lies. */
  predicate OwnOnly(log: seq<Event>) {
    log == [] || (OwnOnly(log[..|log| - 1])
                  && (log[|log| - 1].Xrun? ==> AllOf(log[|log| - 1].losses, Begins(log[..|log| - 1]))))
  }

  lemma LogSnoc(log: seq<Event>, e: Event)
    ensures Begins(log + [e]) == Begins(log) + if e.Begin? then 1 else 0
    ensures OwnOnly(log + [e]) <==> OwnOnly(log) && (e.Xrun? ==> AllOf(e.losses, Begins(log)))
  {
    assert (log + [e])[..|log|] == log;
  }

  function ThreadStream(th: IThread): nat {
    match th
    case Outside => 0
    case Inside(k) => k
    case Owing(l) => l.stream
    case Enqueuing(k) => k
  }

  /** The interrupt thread serves a stream begun before, and one that is past its drain if another is beginning. */
  predicate Epochs(s: State) {
    && s.epoch == Begins(s.log)
    && ThreadStream(s.thread) <= s.epoch
    && (s.api.Beginning? && !s.thread.Outside? ==> ThreadStream(s.thread) < s.epoch)
    && (!s.active ==> |s.folded| == s.foldsSinceGate)
  }

  /** Everything on its way to the log belongs to the stream it will be logged in. */
  predicate Filed(s: State) {
    && OwnOnly(s.log)
    && AllOf(s.folded, s.epoch) && (s.folded != [] ==> s.active)
    && AllOf(HeldBy(s.task), s.epoch)
    && AllOf(HeldByApi(s), s.epoch)
  }

  /** Something was logged in another stream than its own, or is bound to be. */
  predicate Misfiled(s: State) {
    || !OwnOnly(s.log)
    || (exists i :: 0 <= i < |s.folded| && s.folded[i].stream < Due(s))
    || !AllOf(HeldBy(s.task), s.epoch)
    || !AllOf(HeldByApi(s), s.epoch)
  }

  ghost predicate Filing(s: State) {
    Epochs(s) && if s.straggled then Misfiled(s) else Filed(s)
  }

  lemma StepKeepsEpochs(s: State, step: Step)
    requires Grammar(s) && Epochs(s) && Enabled(s, step)
    ensures Epochs(Apply(s, step))
  {
    var t := Apply(s, step);
    if t.log != s.log {
      assert t.log == s.log + [t.log[|s.log|]];
      LogSnoc(s.log, t.log[|s.log|]);
    }
  }

  lemma PublishFilesBatch(log: seq<Event>, h: Holder)
    requires HolderOk(h)
    ensures Begins(PublishBatch(log, h)) == Begins(log)
    ensures OwnOnly(PublishBatch(log, h)) <==> OwnOnly(log) && AllOf(HeldBy(h), Begins(log))
  {
    if h.Batch? && h.p.frames > 0 {
      LogSnoc(log, Xrun(h.p.frames, h.p.gapPos, h.p.count > 1, h.losses));
    }
  }

  lemma StepLogs(s: State, step: Step)
    requires Accounted(s) && s.epoch == Begins(s.log) && Enabled(s, step)
    ensures var t := Apply(s, step);
            OwnOnly(t.log) <==>
              && OwnOnly(s.log)
              && (step.TaskPublish? ==> AllOf(HeldBy(s.task), s.epoch))
              && (step.EndPublish? ==> AllOf(HeldByApi(s), s.epoch))
  {
    match step
    case BeginPublish => LogSnoc(s.log, Begin);
    case EndPublish => PublishFilesBatch(s.log, s.api.h);
    case EndFinish => LogSnoc(s.log, End);
    case FormatChanged => LogSnoc(s.log, FormatChange);
    case TaskPublish => PublishFilesBatch(s.log, s.task);
    case _ =>
  }

  lemma StepKeepsFiled(s: State, step: Step)
    requires Grammar(s) && Accounted(s) && Epochs(s) && Filed(s) && Enabled(s, step)
    ensures !Apply(s, step).straggled ==> Filed(Apply(s, step))
  {
    StepLogs(s, step);
  }

  lemma StepKeepsMisfiled(s: State, step: Step)
    requires Grammar(s) && Accounted(s) && Epochs(s) && Misfiled(s) && Enabled(s, step)
    ensures Misfiled(Apply(s, step))
  {
    StepLogs(s, step);
    var t := Apply(s, step);
    if i :| 0 <= i < |s.folded| && s.folded[i].stream < Due(s) {
      assert step.EndGate? ==> HeldByApi(t)[i] == s.folded[i];
      assert step.TaskRun? && s.active ==> HeldBy(t.task)[i] == s.folded[i];
      assert !(step.EndGate? || (step.TaskRun? && s.active)) ==> t.folded[i] == s.folded[i];
    }
  }

  lemma LateFoldMisfiles(s: State)
    requires Enabled(s, FoldLoss) && s.thread.l.stream < Due(s)
    ensures Misfiled(Apply(s, FoldLoss))
  {
    assert Apply(s, FoldLoss).folded[|s.folded|].stream < Due(s);
  }

  lemma StepKeepsFiling(s: State, step: Step)
    requires Grammar(s) && Accounted(s) && Filing(s) && Enabled(s, step)
    ensures Filing(Apply(s, step))
  {
    StepKeepsEpochs(s, step);
    if s.straggled {
      StepKeepsMisfiled(s, step);
    } else if Apply(s, step).straggled {
      LateFoldMisfiles(s);
    } else {
      StepKeepsFiled(s, step);
    }
  }

  lemma {:induction false} RunKeepsFiling(s: State, steps: seq<Step>)
    requires Inv(s) && Filing(s) && Legal(s, steps)
    ensures Filing(Run(s, steps))
    decreases |steps|
  {
    if steps != [] {
      StepKeepsInv(s, steps[0]);
      StepKeepsFiling(s, steps[0]);
      RunKeepsFiling(Apply(s, steps[0]), steps[1..]);
    }
  }

  lemma InitIsFiled()
    ensures Filing(INIT)
  {
  }

  lemma ReachableIsFiled(s: State)
    requires Reachable(s)
    ensures Filing(s)
  {
    var steps :| Legal(INIT, steps) && Run(INIT, steps) == s;
    InitHoldsInv();
    InitIsFiled();
    RunKeepsFiling(INIT, steps);
  }

  /** Nobody is at work and the last stream has ended. */
  predicate AtRest(s: State) {
    s.thread.Outside? && s.task.Empty? && s.api.Ready? && !s.active
  }

  lemma PublishedAtRest(s: State)
    requires Inv(s) && AtRest(s)
    ensures multiset(Published(s.log)) == multiset(s.all) <==> s.folded == []
  {
    if s.folded == [] {
      forall l
        ensures multiset(Published(s.log))[l] == multiset(s.all)[l]
      {
        assert Count(s.all, l) == Count(Published(s.log), l);
      }
    } else {
      var l := s.folded[0];
      assert Count(s.folded, l) > 0;
      assert Count(s.all, l) > Count(Published(s.log), l);
    }
  }

  /** Once everyone is at rest, every underrun has been published exactly if none was folded after the last drain. */
  lemma AllPublishedAtRestIff(s: State)
    requires Reachable(s) && AtRest(s)
    ensures multiset(Published(s.log)) == multiset(s.all) <==> s.foldsSinceGate == 0
  {
    ReachableIsSound(s);
    ReachableIsFiled(s);
    PublishedAtRest(s);
  }

  /**
   Once everyone is at rest, every underrun has been published between the BEGIN and the END
   of its own stream exactly if no interrupt ever folded one after its stream was drained.
   */
  lemma EachStreamReportsItsOwnIff(s: State)
    requires Reachable(s) && AtRest(s)
    ensures OwnOnly(s.log) && multiset(Published(s.log)) == multiset(s.all) <==> !s.straggled
  {
    ReachableIsSound(s);
    ReachableIsFiled(s);
    PublishedAtRest(s);
  }

  lemma InterruptInside() returns (s: State)
    ensures Reachable(s) && s == INIT.(active := true, thread := Inside(1), log := [Begin], epoch := 1)
  {
    ReachInit();
    s := Play(INIT, BeginPublish);
    s := Play(s, BeginActivate);
    s := Play(s, Enter);
  }

  lemma EndedAroundAnInterrupt() returns (s: State)
    ensures Reachable(s) && s == INIT.(thread := Inside(1), log := [Begin, End], epoch := 1)
  {
    s := InterruptInside();
    s := Play(s, EndGate);
    s := Play(s, EndPublish);
    s := Play(s, EndDrained);
    s := Play(s, EndFinish);
  }

  lemma FoldedAfterTheDrain() returns (s: State)
    ensures Reachable(s) && !s.active && s.api.Ready? && s.task.Empty? && s.thread == Enqueuing(1)
    ensures s.log == [Begin, End] && s.all == s.folded == [Loss(7, 5, 1)] && s.pending == Pending(5, 1, 7)
  {
    s := EndedAroundAnInterrupt();
    s := Play(s, ShortRefill(7, 4076));
    s := Play(s, FoldLoss);
  }

  /** An interrupt that passed its guard before the drain and folds after it: its loss misses its own stream. */
  lemma StragglerMissesItsStream() returns (s: State)
    ensures Reachable(s) && AtRest(s) && !s.queued
    ensures s.log == [Begin, End] && s.all == s.folded == [Loss(7, 5, 1)] && s.pending == Pending(5, 1, 7)
  {
    s := FoldedAfterTheDrain();
    s := Play(s, Enqueue);
    s := Play(s, TaskRun);
    s := Play(s, Leave);
  }

  /** And is published in the next one, with a position that means nothing there. */
  lemma StragglerIsPublishedInTheNextStream() returns (s: State)
    ensures Reachable(s) && s.log == [Begin, End, Begin, Xrun(5, 7, false, [Loss(7, 5, 1)])]
    ensures !OwnOnly(s.log)
  {
    s := StragglerMissesItsStream();
    s := Play(s, BeginPublish);
    s := Play(s, BeginActivate);
    s := Play(s, EndGate);
    s := Play(s, EndPublish);
    XrunInSecondStream(Xrun(5, 7, false, [Loss(7, 5, 1)]));
  }

  lemma XrunInSecondStream(e: Event)
    requires e.Xrun? && !AllOf(e.losses, 2)
    ensures !OwnOnly([Begin, End, Begin, e])
  {
    LogSnoc([], Begin);
    LogSnoc([Begin], End);
    LogSnoc([Begin, End], Begin);
    LogSnoc([Begin, End, Begin], e);
    assert [Begin, End, Begin] + [e] == [Begin, End, Begin, e];
  }

  lemma Play(s: State, step: Step) returns (t: State)
    requires Reachable(s) && Enabled(s, step)
    ensures t == Apply(s, step) && Reachable(t)
  {
    t := Apply(s, step);
    ReachStep(s, step);
  }

  // ------------------------------------------------------------------------------------
  // Who may publish at the same time.
  // ------------------------------------------------------------------------------------

  /** The parties that have an event to publish in this state. */
  predicate Publishes(s: State, step: Step) {
    match step
    case BeginPublish => Enabled(s, step)
    case EndFinish => Enabled(s, step)
    case FormatChanged => Enabled(s, step)
    case EndPublish => Enabled(s, step) && s.api.h.Batch? && s.api.h.p.frames > 0
    case TaskPublish => Enabled(s, step) && s.task.p.frames > 0
    case _ => false
  }

  lemma GrammarSeparates(s: State, a: Step, b: Step)
    requires Grammar(s) && a != b && Publishes(s, a) && Publishes(s, b)
    ensures a.TaskPublish? || b.TaskPublish?
    ensures a in {TaskPublish, EndPublish, FormatChanged} && b in {TaskPublish, EndPublish, FormatChanged}
  {
  }

  /** Two parties are ready to publish together only if one is the deferred task, and never around a BEGIN or an END. */
  lemma BeginAndEndPublishAlone(s: State, a: Step, b: Step)
    requires Reachable(s) && a != b && Publishes(s, a) && Publishes(s, b)
    ensures a.TaskPublish? || b.TaskPublish?
    ensures a in {TaskPublish, EndPublish, FormatChanged} && b in {TaskPublish, EndPublish, FormatChanged}
  {
    ReachableIsSound(s);
    GrammarSeparates(s, a, b);
  }

  lemma TaskHoldsABatch() returns (s: State)
    ensures Reachable(s) && s.active && s.api.Ready? && s.thread == Inside(1) && s.folded == [] && s.pending == CLEAR
    ensures s.task == Batch(Pending(5, 1, 7), [Loss(7, 5, 1)])
  {
    s := InterruptInside();
    s := Play(s, ShortRefill(7, 4076));
    s := Play(s, FoldLoss);
    s := Play(s, Enqueue);
    s := Play(s, TaskRun);
  }

  /** The task and stream_end can both be ready, and neither takes the lock that serialises publishing. */
  lemma TaskAndEndPublishTogether() returns (s: State)
    ensures Reachable(s) && Publishes(s, TaskPublish) && Publishes(s, EndPublish)
  {
    s := TaskHoldsABatch();
    s := Play(s, FifoError(7));
    s := Play(s, FoldLoss);
    s := Play(s, EndGate);
  }
}
