/**
 The audiofs event ring with several publishers. BEGIN, END and FORMAT_CHANGE are published
 under the state lock, but the deferred XRUN task and the XRUN of stream_end are not, so
 publishes may overlap. Drawing a number, each store and each load is a step of its own.
 `serial` says whether a publish may only start when no other is under way.
 */
module SharedRing {
  import opened Bytes
  import opened EventSlots
  import EventRing

  /** A publisher between two stores; `done` counts the body cells written. */
  datatype Publisher =
    | Drawn(seqno: nat, event: Body)
    | Storing(seqno: nat, event: Body, done: nat)
    | Sealed(seqno: nat)
    | Counted(seqno: nat)

  /** An event and the number it was given. */
  datatype Numbered = Numbered(seqno: nat, event: Body)

  /**
   `drawn` lists every publish with its number, `published` those whose number was stored.
   `last` is the publisher that drew last; `overlapped` is set once a number is drawn before
   another publisher has stored its own in writer_seq.
   */
  datatype State = State(slots: seq<Slot>, writerSeq: nat, earliest: nat, publishers: map<nat, Publisher>,
                         readers: map<nat, EventRing.Reader>, accepted: seq<EventRing.Taken>,
                         drawn: seq<Numbered>, published: seq<Body>, last: nat, overlapped: bool)

  datatype Step =
    | Draw(p: nat, event: Body) | Invalidate(p: nat) | Store(p: nat) | Publish(p: nat) | CountUp(p: nat) | Expire(p: nat)
    | Look(reader: nat, slot: nat) | Copy(reader: nat, cell: nat) | Check(reader: nat)

  function Init(n: nat): State {
    State(EmptySlots(n), 0, 1, map[], map[], [], [], [], 0, false)
  }

  predicate Uncounted(p: Publisher) {
    !p.Counted?
  }

  predicate Enabled(serial: bool, s: State, step: Step) {
    match step
    case Draw(p, _) => p !in s.publishers && (serial ==> s.publishers == map[])
    case Invalidate(p) => p in s.publishers && s.publishers[p].Drawn?
    case Store(p) => p in s.publishers && s.publishers[p].Storing? && s.publishers[p].done < BODY
    case Publish(p) => p in s.publishers && s.publishers[p].Storing? && s.publishers[p].done == BODY
    case CountUp(p) => p in s.publishers && s.publishers[p].Sealed?
    case Expire(p) => p in s.publishers && s.publishers[p].Counted?
    case Look(r, slot) => r !in s.readers && slot < |s.slots|
    case Copy(r, cell) => r in s.readers && s.readers[r].slot < |s.slots| && cell < BODY
    case Check(r) => r in s.readers && s.readers[r].slot < |s.slots| && EventRing.Complete(s.readers[r])
  }

  function Become(s: State, p: nat, next: Publisher): State {
    s.(publishers := s.publishers[p := next])
  }

  function SetSeqno(slots: seq<Slot>, k: nat, seqno: nat): seq<Slot>
    requires k < |slots|
  {
    slots[k := slots[k].(seqno := seqno)]
  }

  function SetCell(slots: seq<Slot>, k: nat, cell: nat, value: Byte): seq<Slot>
    requires k < |slots| && cell < BODY
  {
    slots[k := slots[k].(body := slots[k].body[cell := value])]
  }

  function Apply(s: State, step: Step): State
    requires s.slots != [] && Enabled(false, s, step)
  {
    var n := |s.slots|;
    match step
    case Draw(p, e) =>
      Become(s, p, Drawn(s.writerSeq + 1, e))
        .(drawn := s.drawn + [Numbered(s.writerSeq + 1, e)], last := p,
          overlapped := s.overlapped || exists q :: q in s.publishers && Uncounted(s.publishers[q]))
    case Invalidate(p) =>
      var d := s.publishers[p];
      Become(s, p, Storing(d.seqno, d.event, 0)).(slots := SetSeqno(s.slots, SlotOf(d.seqno, n), 0))
    case Store(p) =>
      var d := s.publishers[p];
      Become(s, p, d.(done := d.done + 1)).(slots := SetCell(s.slots, SlotOf(d.seqno, n), d.done, d.event[d.done]))
    case Publish(p) =>
      var d := s.publishers[p];
      Become(s, p, Sealed(d.seqno)).(slots := SetSeqno(s.slots, SlotOf(d.seqno, n), d.seqno), published := s.published + [d.event])
    case CountUp(p) => Become(s, p, Counted(s.publishers[p].seqno)).(writerSeq := s.publishers[p].seqno)
    case Expire(p) =>
      var q := s.publishers[p].seqno;
      s.(publishers := s.publishers - {p}, earliest := if q >= n then q - n + 1 else s.earliest)
    case Look(r, slot) =>
      if s.slots[slot].seqno == 0 then s
      else s.(readers := s.readers[r := EventRing.Reader(slot, s.slots[slot].seqno, map[])])
    case Copy(r, cell) =>
      var d := s.readers[r];
      s.(readers := s.readers[r := d.(copied := d.copied[cell := s.slots[d.slot].body[cell]])])
    case Check(r) =>
      var d := s.readers[r];
      s.(readers := s.readers - {r},
         accepted := if s.slots[d.slot].seqno == d.seqno then s.accepted + [EventRing.Taken(d.seqno, EventRing.CopiedBody(d))]
                     else s.accepted)
  }

  // ------------------------------------------------------------------------------------
  // Runs.
  // ------------------------------------------------------------------------------------

  ghost predicate Legal(serial: bool, s: State, steps: seq<Step>)
    decreases |steps|
  {
    steps == [] || (s.slots != [] && Enabled(serial, s, steps[0]) && Legal(serial, Apply(s, steps[0]), steps[1..]))
  }

  ghost function Run(serial: bool, s: State, steps: seq<Step>): State
    requires Legal(serial, s, steps)
    decreases |steps|
  {
    if steps == [] then s else Run(serial, Apply(s, steps[0]), steps[1..])
  }

  lemma {:induction false} RunConcat(serial: bool, s: State, a: seq<Step>, b: seq<Step>)
    requires Legal(serial, s, a) && Legal(serial, Run(serial, s, a), b)
    ensures Legal(serial, s, a + b) && Run(serial, s, a + b) == Run(serial, Run(serial, s, a), b)
    decreases |a|
  {
    if a == [] {
      assert a + b == b;
    } else {
      assert (a + b)[0] == a[0] && (a + b)[1..] == a[1..] + b;
      RunConcat(serial, Apply(s, a[0]), a[1..], b);
    }
  }

  ghost predicate Reachable(serial: bool, n: nat, s: State) {
    exists steps :: Legal(serial, Init(n), steps) && Run(serial, Init(n), steps) == s
  }

  lemma ReachInit(serial: bool, n: nat)
    ensures Reachable(serial, n, Init(n))
  {
    assert Legal(serial, Init(n), []) && Run(serial, Init(n), []) == Init(n);
  }

  lemma RunOne(serial: bool, s: State, step: Step)
    requires s.slots != [] && Enabled(serial, s, step)
    ensures Legal(serial, s, [step]) && Run(serial, s, [step]) == Apply(s, step)
  {
    assert [step][1..] == [];
    assert Legal(serial, Apply(s, step), []);
  }

  lemma Play(n: nat, s: State, step: Step) returns (t: State)
    requires Reachable(false, n, s) && s.slots != [] && Enabled(false, s, step)
    ensures t == Apply(s, step) && Reachable(false, n, t)
  {
    t := Apply(s, step);
    var steps :| Legal(false, Init(n), steps) && Run(false, Init(n), steps) == s;
    RunOne(false, s, step);
    RunConcat(false, Init(n), steps, [step]);
  }

  // ------------------------------------------------------------------------------------
  // Each event has its own number exactly if no publish started too early.
  // ------------------------------------------------------------------------------------

  predicate Distinct(drawn: seq<Numbered>) {
    forall i, j | 0 <= i < j < |drawn| :: drawn[i].seqno != drawn[j].seqno
  }

  ghost predicate Consecutive(s: State) {
    && (forall i | 0 <= i < |s.drawn| :: s.drawn[i].seqno == i + 1)
    && (forall p | p in s.publishers && Uncounted(s.publishers[p]) ::
          s.publishers[p].seqno == |s.drawn| == s.writerSeq + 1)
    && (forall p | p in s.publishers :: s.publishers[p].seqno <= |s.drawn|)
    && (forall p, q | p in s.publishers && q in s.publishers && Uncounted(s.publishers[p]) && Uncounted(s.publishers[q]) :: p == q)
    && ((forall p | p in s.publishers :: !Uncounted(s.publishers[p])) ==> s.writerSeq == |s.drawn|)
  }

  /** The counter is behind the events, and nobody is about to catch it up. */
  ghost predicate Lagging(s: State) {
    s.writerSeq < |s.drawn| && forall p | p in s.publishers :: s.publishers[p].seqno < |s.drawn|
  }

  ghost predicate Numbering(s: State) {
    if s.overlapped then !Distinct(s.drawn) && Lagging(s) else Consecutive(s)
  }

  lemma DrawKeepsNumbering(s: State, p: nat, e: Body)
    requires Numbering(s) && s.slots != [] && Enabled(false, s, Draw(p, e))
    ensures Numbering(Apply(s, Draw(p, e)))
  {
    var t := Apply(s, Draw(p, e));
    if s.overlapped {
      var i, j :| 0 <= i < j < |s.drawn| && s.drawn[i].seqno == s.drawn[j].seqno;
      assert t.drawn[i].seqno == t.drawn[j].seqno;
    } else if t.overlapped {
      assert t.drawn[|s.drawn| - 1].seqno == t.drawn[|s.drawn|].seqno;
    } else {
      assert Uncounted(t.publishers[p]);
    }
  }

  lemma ExpireKeepsNumbering(s: State, p: nat)
    requires Numbering(s) && s.slots != [] && Enabled(false, s, Expire(p))
    ensures Numbering(Apply(s, Expire(p)))
  {
    var t := Apply(s, Expire(p));
    assert forall q | q in s.publishers :: q == p || (q in t.publishers && t.publishers[q] == s.publishers[q]);
    assert !Uncounted(s.publishers[p]);
  }

  lemma CountKeepsNumbering(s: State, p: nat)
    requires Numbering(s) && s.slots != [] && Enabled(false, s, CountUp(p))
    ensures Numbering(Apply(s, CountUp(p)))
  {
  }

  lemma StepKeepsNumbering(s: State, step: Step)
    requires Numbering(s) && s.slots != [] && Enabled(false, s, step)
    ensures Numbering(Apply(s, step))
  {
    match step
    case Draw(p, e) => DrawKeepsNumbering(s, p, e);
    case CountUp(p) => CountKeepsNumbering(s, p);
    case Invalidate(p) => QuietKeepsNumbering(s, step, p);
    case Store(p) => QuietKeepsNumbering(s, step, p);
    case Publish(p) => QuietKeepsNumbering(s, step, p);
    case Expire(p) => ExpireKeepsNumbering(s, p);
    case _ =>
  }

  lemma QuietKeepsNumbering(s: State, step: Step, p: nat)
    requires Numbering(s) && s.slots != [] && Enabled(false, s, step)
    requires step in {Invalidate(p), Store(p), Publish(p)}
    ensures Numbering(Apply(s, step))
  {
    var t := Apply(s, step);
    assert t.drawn == s.drawn && t.writerSeq == s.writerSeq && t.overlapped == s.overlapped;
    assert Uncounted(s.publishers[p]) && Uncounted(t.publishers[p]) && t.publishers[p].seqno == s.publishers[p].seqno;
    assert forall q | q != p :: (q in t.publishers <==> q in s.publishers) && (q in s.publishers ==> t.publishers[q] == s.publishers[q]);
  }

  lemma {:induction false} RunKeepsNumbering(serial: bool, s: State, steps: seq<Step>)
    requires Numbering(s) && Legal(serial, s, steps)
    ensures Numbering(Run(serial, s, steps))
    decreases |steps|
  {
    if steps != [] {
      StepKeepsNumbering(s, steps[0]);
      RunKeepsNumbering(serial, Apply(s, steps[0]), steps[1..]);
    }
  }

  /** Over every run: all events carry different numbers exactly if no number was drawn while another publisher had yet to count its own. */
  lemma NumbersDistinctIffNoOverlap(n: nat, s: State)
    requires Reachable(false, n, s)
    ensures Distinct(s.drawn) <==> !s.overlapped
  {
    var steps :| Legal(false, Init(n), steps) && Run(false, Init(n), steps) == s;
    RunKeepsNumbering(false, Init(n), steps);
  }

  /** Once every publish is complete, writer_seq counts the events exactly under the same condition; otherwise some were overwritten. */
  lemma CounterCountsEventsIffNoOverlap(n: nat, s: State)
    requires Reachable(false, n, s) && s.publishers == map[]
    ensures s.writerSeq == |s.drawn| <==> !s.overlapped
  {
    var steps :| Legal(false, Init(n), steps) && Run(false, Init(n), steps) == s;
    RunKeepsNumbering(false, Init(n), steps);
  }

  // ------------------------------------------------------------------------------------
  // One publish at a time is the single-producer ring.
  // ------------------------------------------------------------------------------------

  function WriterOf(s: State): EventRing.Writer {
    if s.last !in s.publishers then EventRing.Idle
    else match s.publishers[s.last]
      case Drawn(_, _) => EventRing.Idle
      case Storing(q, e, _) => EventRing.Writer.Storing(q, e)
      case Sealed(_) => EventRing.Writer.Sealed
      case Counted(_) => EventRing.Writer.Counted
  }

  function Abs(s: State): EventRing.State {
    EventRing.State(s.slots, s.writerSeq, s.earliest, WriterOf(s), s.published, s.readers, s.accepted)
  }

  /** What the one publisher under way has done so far. */
  predicate PublisherOk(s: State, d: Publisher)
    requires s.slots != []
  {
    match d
    case Drawn(q, e) => q == s.writerSeq + 1 && s.drawn == Numbers(s.published) + [Numbered(q, e)]
    case Storing(q, e, done) =>
      && q == s.writerSeq + 1 && s.drawn == Numbers(s.published) + [Numbered(q, e)] && done <= BODY
      && s.slots[SlotOf(q, |s.slots|)].body[..done] == e[..done]
    case Sealed(q) => q == s.writerSeq + 1 && s.drawn == Numbers(s.published)
    case Counted(q) => q == s.writerSeq && s.drawn == Numbers(s.published)
  }

  function Numbers(published: seq<Body>): seq<Numbered> {
    seq(|published|, i requires 0 <= i < |published| => Numbered(i + 1, published[i]))
  }

  predicate Solo(s: State) {
    && s.slots != []
    && (forall p | p in s.publishers :: p == s.last)
    && (if s.last in s.publishers then PublisherOk(s, s.publishers[s.last]) else s.drawn == Numbers(s.published))
  }

  ghost predicate SerialInv(s: State) {
    Solo(s) && EventRing.Inv(Abs(s))
  }

  /** The step of the single-producer ring that a step amounts to. */
  function StepOf(s: State, step: Step): EventRing.Step
    requires s.slots != [] && Enabled(true, s, step) && !step.Draw?
  {
    match step
    case Invalidate(p) => EventRing.Step.Invalidate(s.publishers[p].event)
    case Store(p) => EventRing.Step.Store(s.publishers[p].done, s.publishers[p].event[s.publishers[p].done])
    case Publish(_) => EventRing.Step.Publish
    case CountUp(_) => EventRing.Step.CountUp
    case Expire(_) => EventRing.Step.Expire
    case Look(r, slot) => EventRing.Step.Look(r, slot)
    case Copy(r, cell) => EventRing.Step.Copy(r, cell)
    case Check(r) => EventRing.Step.Check(r)
  }

  lemma DrawKeepsSolo(s: State, p: nat, e: Body)
    requires Solo(s) && EventRing.CountersOk(Abs(s)) && Enabled(true, s, Draw(p, e))
    ensures Solo(Apply(s, Draw(p, e))) && Abs(Apply(s, Draw(p, e))) == Abs(s)
  {
  }

  lemma StepIsRingStep(s: State, step: Step)
    requires Solo(s) && EventRing.CountersOk(Abs(s)) && Enabled(true, s, step) && !step.Draw?
    ensures EventRing.Enabled(Abs(s), StepOf(s, step))
    ensures Abs(Apply(s, step)) == EventRing.Apply(Abs(s), StepOf(s, step))
  {
  }

  lemma StepKeepsSolo(s: State, step: Step)
    requires Solo(s) && EventRing.CountersOk(Abs(s)) && Enabled(true, s, step) && !step.Draw?
    ensures Solo(Apply(s, step))
  {
  }

  lemma SerialStepKeepsInv(s: State, step: Step)
    requires SerialInv(s) && Enabled(true, s, step)
    ensures SerialInv(Apply(s, step))
  {
    if step.Draw? {
      DrawKeepsSolo(s, step.p, step.event);
    } else {
      StepIsRingStep(s, step);
      StepKeepsSolo(s, step);
      EventRing.StepKeepsInv(Abs(s), StepOf(s, step));
    }
  }

  lemma {:induction false} SerialRunKeepsInv(s: State, steps: seq<Step>)
    requires SerialInv(s) && Legal(true, s, steps)
    ensures SerialInv(Run(true, s, steps)) && |Run(true, s, steps).slots| == |s.slots|
    decreases |steps|
  {
    if steps != [] {
      SerialStepKeepsInv(s, steps[0]);
      SerialRunKeepsInv(Apply(s, steps[0]), steps[1..]);
    }
  }

  lemma SerialReachable(n: nat, s: State)
    requires n > 0 && Reachable(true, n, s)
    ensures SerialInv(s) && |s.slots| == n
  {
    var steps :| Legal(true, Init(n), steps) && Run(true, Init(n), steps) == s;
    SerialRunKeepsInv(Init(n), steps);
  }

  /** The copy is an event that was given this number. */
  predicate Genuine(drawn: seq<Numbered>, t: EventRing.Taken) {
    exists i :: 0 <= i < |drawn| && drawn[i].seqno == t.seqno && drawn[i].event == t.body
  }

  predicate AllGenuine(s: State) {
    forall t | t in s.accepted :: Genuine(s.drawn, t)
  }

  lemma SerialReadersAreSafe(n: nat, s: State)
    requires n > 0 && Reachable(true, n, s)
    ensures AllGenuine(s)
  {
    SerialReachable(n, s);
    forall t | t in s.accepted
      ensures Genuine(s.drawn, t)
    {
      assert EventRing.Genuine(Abs(s), t);
      assert s.drawn[t.seqno - 1] == Numbered(t.seqno, s.published[t.seqno - 1]);
    }
  }

  /** Between serialised publishes header and slots agree: exactly the last n events are in place. */
  lemma SerialRingHoldsTheLastEvents(n: nat, s: State)
    requires n > 0 && Reachable(true, n, s) && s.publishers == map[]
    ensures |s.slots| == n && s.writerSeq == |s.published| == |s.drawn|
    ensures s.earliest == if s.writerSeq > n then s.writerSeq - n + 1 else 1
    ensures forall q | s.earliest <= q <= s.writerSeq :: s.slots[SlotOf(q, n)] == Slot(q, s.published[q - 1])
  {
    SerialReachable(n, s);
    forall q | s.earliest <= q <= s.writerSeq
      ensures s.slots[SlotOf(q, n)] == Slot(q, s.published[q - 1])
    {
      EventRing.RetainedEventInPlace(Abs(s), q);
    }
  }

  // ------------------------------------------------------------------------------------
  // Two publishes at a time: a reader can accept what nobody published.
  // ------------------------------------------------------------------------------------

  /** Publisher `p` is storing `e` under number 1, in a ring where nobody reads yet. */
  predicate StoringAt(n: nat, s: State, p: nat, e: Body, done: nat) {
    |s.slots| == n > 0 && p in s.publishers && s.publishers[p] == Storing(1, e, done) && done <= BODY
  }

  lemma {:induction false} StoreUpTo(n: nat, s: State, p: nat, e: Body, done: nat, upTo: nat) returns (t: State)
    requires Reachable(false, n, s) && StoringAt(n, s, p, e, done) && done <= upTo <= BODY
    ensures Reachable(false, n, t) && StoringAt(n, t, p, e, upTo)
    ensures t == s.(slots := t.slots, publishers := s.publishers[p := Storing(1, e, upTo)])
    ensures t.slots[SlotOf(1, n)].body == Splice(s.slots[SlotOf(1, n)].body, done, e[done..upTo])
    decreases upTo - done
  {
    var k := SlotOf(1, n);
    if done < upTo {
      var u := Play(n, s, Store(p));
      t := StoreUpTo(n, u, p, e, done + 1, upTo);
      assert u.slots[k].body == s.slots[k].body[done := e[done]];
      SpliceFirst(s.slots[k].body, done, e, upTo);
      assert u.publishers[p := Storing(1, e, upTo)] == s.publishers[p := Storing(1, e, upTo)];
    } else {
      t := s;
      assert s.publishers[p := Storing(1, e, upTo)] == s.publishers;
    }
  }

  lemma SpliceFirst(body: Body, done: nat, e: Body, upTo: nat)
    requires done < upTo <= BODY
    ensures Splice(body[done := e[done]], done + 1, e[done + 1..upTo]) == Splice(body, done, e[done..upTo])
  {
  }

  predicate CopiesOf(r: EventRing.Reader, body: Body, upTo: nat) {
    upTo <= BODY && forall i | 0 <= i < upTo :: i in r.copied && r.copied[i] == body[i]
  }

  lemma {:induction false} CopyUpTo(n: nat, s: State, r: nat, done: nat) returns (t: State)
    requires Reachable(false, n, s) && r in s.readers && s.readers[r].slot < |s.slots| && done <= BODY
    requires CopiesOf(s.readers[r], s.slots[s.readers[r].slot].body, done)
    ensures Reachable(false, n, t) && t == s.(readers := t.readers) && r in t.readers
    ensures t.readers[r].slot == s.readers[r].slot && t.readers[r].seqno == s.readers[r].seqno
    ensures CopiesOf(t.readers[r], s.slots[s.readers[r].slot].body, BODY)
    decreases BODY - done
  {
    t := s;
    if done < BODY {
      var u := Play(n, s, Copy(r, done));
      t := CopyUpTo(n, u, r, done + 1);
    }
  }

  /** A reader that comes and goes undisturbed accepts what is in the slot. */
  lemma ReadSlot(n: nat, s: State, slot: nat) returns (t: State)
    requires Reachable(false, n, s) && s.readers == map[] && slot < |s.slots| && s.slots[slot].seqno != 0
    ensures Reachable(false, n, t) && t.drawn == s.drawn
    ensures t.accepted == s.accepted + [EventRing.Taken(s.slots[slot].seqno, s.slots[slot].body)]
  {
    var u := Play(n, s, Look(0, slot));
    u := CopyUpTo(n, u, 0, 0);
    t := Play(n, u, Check(0));
    assert EventRing.CopiedBody(u.readers[0]) == s.slots[slot].body;
  }

  lemma TwoStart(n: nat, a: Body, b: Body) returns (s: State)
    requires n > 0
    ensures Reachable(false, n, s) && StoringAt(n, s, 0, a, 0) && StoringAt(n, s, 1, b, 0)
    ensures s.drawn == [Numbered(1, a), Numbered(1, b)] && s.readers == map[] && s.accepted == []
  {
    ReachInit(false, n);
    s := Play(n, Init(n), Draw(0, a));
    s := Play(n, s, Draw(1, b));
    s := Play(n, s, Invalidate(0));
    s := Play(n, s, Invalidate(1));
  }

  lemma BothStored(n: nat, a: Body, b: Body, cut: nat) returns (s: State)
    requires n > 0 && cut <= BODY
    ensures Reachable(false, n, s) && StoringAt(n, s, 0, a, BODY)
    ensures s.drawn == [Numbered(1, a), Numbered(1, b)] && s.readers == map[] && s.accepted == []
    ensures s.slots[SlotOf(1, n)].body == b[..cut] + a[cut..]
  {
    var start := TwoStart(n, a, b);
    var first := StoreUpTo(n, start, 0, a, 0, BODY);
    var k := SlotOf(1, n);
    assert first.slots[k].body == a;
    s := StoreUpTo(n, first, 1, b, 0, cut);
  }

  /**
   Two publishers that overlap: the first has written all of `a` and stores the number while
   the second has written `cut` cells of `b` over it. A reader sees the same number before and
   after, and accepts the mixture.
   */
  lemma OverlapMixesBodies(n: nat, a: Body, b: Body, cut: nat) returns (s: State)
    requires n > 0 && cut <= BODY
    ensures Reachable(false, n, s) && s.drawn == [Numbered(1, a), Numbered(1, b)]
    ensures s.accepted == [EventRing.Taken(1, b[..cut] + a[cut..])]
  {
    s := BothStored(n, a, b, cut);
    s := Play(n, s, Publish(0));
    s := ReadSlot(n, s, SlotOf(1, n));
  }

  /** Two events that differ on both sides of the cut: the mixture is neither. */
  lemma MixtureIsNotGenuine(n: nat, a: Body, b: Body, cut: nat) returns (s: State)
    requires n > 0 && cut <= BODY && a[..cut] != b[..cut] && a[cut..] != b[cut..]
    ensures Reachable(false, n, s) && !AllGenuine(s)
  {
    s := OverlapMixesBodies(n, a, b, cut);
    var mixed := b[..cut] + a[cut..];
    assert mixed[..cut] == b[..cut] && mixed[cut..] == a[cut..];
    assert mixed != a && mixed != b;
    assert EventRing.Taken(1, mixed) in s.accepted;
  }

  /** Readers only ever accept genuine events exactly if publishes are serialised. */
  lemma ReadersSafeIffSerial(n: nat, serial: bool)
    requires n > 0
    ensures (forall s :: Reachable(serial, n, s) ==> AllGenuine(s)) <==> serial
  {
    if serial {
      forall s | Reachable(serial, n, s)
        ensures AllGenuine(s)
      {
        SerialReadersAreSafe(n, s);
      }
    } else {
      var a, b := Zeros(BODY), seq(BODY, _ => 1);
      assert a[..1][0] != b[..1][0] && a[1..][0] != b[1..][0];
      var s := MixtureIsNotGenuine(n, a, b, 1);
    }
  }
}
