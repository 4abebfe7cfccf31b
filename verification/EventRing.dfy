/**
 The lock-free event rings of inputfs (1024 slots) and audiofs (256 slots): one producer
 that invalidates a slot, writes its body and publishes its sequence number, and any number
 of readers that look at the number, copy the body and look again. Every store and every
 load is a step of its own; the ring size is a parameter.
 */
module EventRing {
  import opened Bytes
  import opened EventSlots

  /** The producer between two stores: `Storing` after seq = 0, `Sealed` after the new seq, `Counted` after writer_seq. */
  datatype Writer = Idle | Storing(seqno: nat, event: Body) | Sealed | Counted

  /** A reader that saw `seqno` in `slot` and has copied the cells in `copied` since. */
  datatype Reader = Reader(slot: nat, seqno: nat, copied: map<nat, Byte>)

  datatype Taken = Taken(seqno: nat, body: seq<Byte>)

  /** `events[s - 1]` is event s; `accepted` records what readers took for valid. */
  datatype State = State(slots: seq<Slot>, writerSeq: nat, earliest: nat, writer: Writer,
                         events: seq<Body>, readers: map<nat, Reader>, accepted: seq<Taken>)

  datatype Step =
    | Invalidate(event: Body) | Store(cell: nat, value: Byte) | Publish | CountUp | Expire
    | Look(reader: nat, slot: nat) | Copy(reader: nat, cell: nat) | Check(reader: nat)

  function Init(n: nat): State {
    State(EmptySlots(n), 0, 1, Idle, [], map[], [])
  }

  /** The oldest event a ring of `n` slots still holds. */
  function Oldest(writerSeq: nat, n: nat): nat {
    if writerSeq > n then writerSeq - n + 1 else 1
  }

  predicate Complete(r: Reader) {
    forall i | 0 <= i < BODY :: i in r.copied
  }

  predicate Enabled(s: State, step: Step) {
    match step
    case Invalidate(_) => s.writer.Idle?
    case Store(cell, _) => s.writer.Storing? && cell < BODY
    case Publish => s.writer.Storing? && s.slots != [] && s.slots[SlotOf(s.writer.seqno, |s.slots|)].body == s.writer.event
    case CountUp => s.writer.Sealed?
    case Expire => s.writer.Counted?
    case Look(r, slot) => r !in s.readers && slot < |s.slots|
    case Copy(r, cell) => r in s.readers && s.readers[r].slot < |s.slots| && cell < BODY
    case Check(r) => r in s.readers && s.readers[r].slot < |s.slots| && Complete(s.readers[r])
  }

  function CopiedBody(r: Reader): seq<Byte>
    requires Complete(r)
  {
    seq(BODY, i requires 0 <= i < BODY => r.copied[i])
  }

  function Apply(s: State, step: Step): State
    requires s.slots != [] && Enabled(s, step)
  {
    var n := |s.slots|;
    match step
    case Invalidate(e) =>
      var k := SlotOf(s.writerSeq + 1, n);
      s.(slots := s.slots[k := s.slots[k].(seqno := 0)], writer := Storing(s.writerSeq + 1, e))
    case Store(cell, value) =>
      var k := SlotOf(s.writer.seqno, n);
      s.(slots := s.slots[k := s.slots[k].(body := s.slots[k].body[cell := value])])
    case Publish =>
      var k := SlotOf(s.writer.seqno, n);
      s.(slots := s.slots[k := s.slots[k].(seqno := s.writer.seqno)], writer := Sealed,
         events := s.events + [s.writer.event])
    case CountUp => s.(writerSeq := s.writerSeq + 1, writer := Counted)
    case Expire => s.(earliest := if s.writerSeq > n then s.writerSeq - n + 1 else s.earliest, writer := Idle)
    case Look(r, slot) =>
      if s.slots[slot].seqno == 0 then s
      else s.(readers := s.readers[r := Reader(slot, s.slots[slot].seqno, map[])])
    case Copy(r, cell) =>
      var d := s.readers[r];
      s.(readers := s.readers[r := d.(copied := d.copied[cell := s.slots[d.slot].body[cell]])])
    case Check(r) =>
      var d := s.readers[r];
      s.(readers := s.readers - {r},
         accepted := if s.slots[d.slot].seqno == d.seqno then s.accepted + [Taken(d.seqno, CopiedBody(d))]
                     else s.accepted)
  }

  // ------------------------------------------------------------------------------------
  // What every step keeps.
  // ------------------------------------------------------------------------------------

  /** A slot at rest holds the latest event whose number maps to it, or nothing if there is none yet. */
  ghost predicate Holds(s: State, k: nat)
    requires k < |s.slots|
  {
    var slot, n, last := s.slots[k], |s.slots|, |s.events|;
    if slot.seqno == 0
    then forall q | 1 <= q <= last :: SlotOf(q, n) != k
    else slot.seqno <= last < slot.seqno + n && SlotOf(slot.seqno, n) == k && slot.body == s.events[slot.seqno - 1]
  }

  predicate BeingStored(s: State, k: nat)
    requires s.slots != []
  {
    s.writer.Storing? && SlotOf(s.writer.seqno, |s.slots|) == k
  }

  ghost predicate SlotsOk(s: State) {
    && s.slots != []
    && (forall k | 0 <= k < |s.slots| ::
          if BeingStored(s, k) then s.slots[k].seqno == 0 else Holds(s, k))
  }

  predicate CountersOk(s: State) {
    && |s.events| == s.writerSeq + (if s.writer.Sealed? then 1 else 0)
    && (s.writer.Storing? ==> s.writer.seqno == s.writerSeq + 1)
    && (s.writer.Counted? ==> s.writerSeq > 0)
    && s.earliest == Oldest(if s.writer.Counted? then s.writerSeq - 1 else s.writerSeq, |s.slots|)
  }

  /** While the number a reader saw is still in place, every cell it copied belongs to that event. */
  ghost predicate ReaderOk(s: State, r: Reader) {
    && r.slot < |s.slots|
    && 1 <= r.seqno <= |s.events|
    && (s.slots[r.slot].seqno == r.seqno ==>
          forall i | i in r.copied :: i < BODY && r.copied[i] == s.events[r.seqno - 1][i])
  }

  ghost predicate Genuine(s: State, t: Taken) {
    1 <= t.seqno <= |s.events| && t.body == s.events[t.seqno - 1]
  }

  ghost predicate Inv(s: State) {
    && SlotsOk(s)
    && CountersOk(s)
    && (forall r | r in s.readers :: ReaderOk(s, s.readers[r]))
    && (forall t | t in s.accepted :: Genuine(s, t))
  }

  lemma InvalidateKeepsSlots(s: State, e: Body)
    requires Inv(s) && Enabled(s, Invalidate(e))
    ensures SlotsOk(Apply(s, Invalidate(e)))
  {
    var t := Apply(s, Invalidate(e));
    forall k | 0 <= k < |t.slots| && !BeingStored(t, k)
      ensures Holds(t, k)
    {
      assert Holds(s, k) && t.slots[k] == s.slots[k];
    }
  }

  lemma PublishKeepsSlots(s: State)
    requires Inv(s) && Enabled(s, Publish)
    ensures SlotsOk(Apply(s, Publish))
  {
    var t := Apply(s, Publish);
    var q, n := s.writer.seqno, |s.slots|;
    forall k | 0 <= k < n
      ensures Holds(t, k)
    {
      if k != SlotOf(q, n) {
        assert Holds(s, k);
        assert s.slots[k].seqno + n == q ==> SlotOf(q, n) == SlotOf(s.slots[k].seqno, n);
      }
    }
  }

  lemma WriterStepKeepsSlots(s: State, step: Step)
    requires Inv(s) && Enabled(s, step)
    ensures SlotsOk(Apply(s, step))
  {
    var t := Apply(s, step);
    if step.Invalidate? {
      InvalidateKeepsSlots(s, step.event);
    } else if step.Publish? {
      PublishKeepsSlots(s);
    } else {
      assert t.events == s.events && |t.slots| == |s.slots|;
      forall k | 0 <= k < |t.slots|
        ensures if BeingStored(t, k) then t.slots[k].seqno == 0 else Holds(t, k)
      {
        assert BeingStored(t, k) == BeingStored(s, k);
        assert !BeingStored(s, k) ==> Holds(s, k) && t.slots[k] == s.slots[k];
      }
    }
  }

  lemma WriterStepKeepsReader(s: State, step: Step, r: Reader)
    requires Inv(s) && Enabled(s, step) && ReaderOk(s, r)
    ensures ReaderOk(Apply(s, step), r)
  {
  }

  lemma CopyKeepsReader(s: State, r: nat, cell: nat)
    requires Inv(s) && Enabled(s, Copy(r, cell))
    ensures ReaderOk(s, Apply(s, Copy(r, cell)).readers[r])
  {
    var d := s.readers[r];
    assert ReaderOk(s, d);
    if s.slots[d.slot].seqno == d.seqno {
      assert !BeingStored(s, d.slot) && Holds(s, d.slot);
    }
  }

  lemma LookMakesReader(s: State, r: nat, slot: nat)
    requires Inv(s) && Enabled(s, Look(r, slot)) && s.slots[slot].seqno != 0
    ensures ReaderOk(s, Apply(s, Look(r, slot)).readers[r])
  {
    assert Holds(s, slot);
  }

  /** The heart of the protocol: an unchanged number on both sides of the copy certifies the copy. */
  lemma CheckAcceptsGenuine(s: State, r: nat)
    requires Inv(s) && Enabled(s, Check(r)) && s.slots[s.readers[r].slot].seqno == s.readers[r].seqno
    ensures Genuine(s, Taken(s.readers[r].seqno, CopiedBody(s.readers[r])))
  {
    assert ReaderOk(s, s.readers[r]);
  }

  lemma StepKeepsReaders(s: State, step: Step)
    requires Inv(s) && Enabled(s, step)
    ensures var t := Apply(s, step); forall r | r in t.readers :: ReaderOk(t, t.readers[r])
  {
    var t := Apply(s, step);
    forall r | r in t.readers
      ensures ReaderOk(t, t.readers[r])
    {
      if step.Copy? && r == step.reader {
        CopyKeepsReader(s, r, step.cell);
      } else if step.Look? && r == step.reader {
        LookMakesReader(s, r, step.slot);
      } else {
        WriterStepKeepsReader(s, step, s.readers[r]);
      }
    }
  }

  lemma StepKeepsAccepted(s: State, step: Step)
    requires Inv(s) && Enabled(s, step)
    ensures var t := Apply(s, step); forall x | x in t.accepted :: Genuine(t, x)
  {
    var t := Apply(s, step);
    if step.Check? && t.accepted != s.accepted {
      CheckAcceptsGenuine(s, step.reader);
    }
    forall x | x in t.accepted
      ensures Genuine(t, x)
    {
      assert Genuine(s, x);
    }
  }

  lemma StepKeepsInv(s: State, step: Step)
    requires Inv(s) && Enabled(s, step)
    ensures Inv(Apply(s, step))
  {
    WriterStepKeepsSlots(s, step);
    StepKeepsReaders(s, step);
    StepKeepsAccepted(s, step);
  }

  // ------------------------------------------------------------------------------------
  // Whole runs.
  // ------------------------------------------------------------------------------------

  ghost predicate Legal(s: State, steps: seq<Step>)
    decreases |steps|
  {
    steps == [] || (s.slots != [] && Enabled(s, steps[0]) && Legal(Apply(s, steps[0]), steps[1..]))
  }

  ghost function Run(s: State, steps: seq<Step>): State
    requires Legal(s, steps)
    decreases |steps|
  {
    if steps == [] then s else Run(Apply(s, steps[0]), steps[1..])
  }

  lemma {:induction false} RunKeepsInv(s: State, steps: seq<Step>)
    requires Inv(s) && Legal(s, steps)
    ensures Inv(Run(s, steps)) && |Run(s, steps).slots| == |s.slots|
    decreases |steps|
  {
    if steps != [] {
      StepKeepsInv(s, steps[0]);
      RunKeepsInv(Apply(s, steps[0]), steps[1..]);
    }
  }

  // ------------------------------------------------------------------------------------
  // One publish, undisturbed.
  // ------------------------------------------------------------------------------------

  ghost predicate Reaches(s: State, t: State) {
    exists steps :: Legal(s, steps) && Run(s, steps) == t
  }

  lemma {:induction false} RunSnoc(s: State, steps: seq<Step>, step: Step)
    requires Legal(s, steps) && Run(s, steps).slots != [] && Enabled(Run(s, steps), step)
    ensures Legal(s, steps + [step]) && Run(s, steps + [step]) == Apply(Run(s, steps), step)
    decreases |steps|
  {
    if steps == [] {
      assert steps + [step] == [step] && [step][1..] == [];
      assert Legal(Apply(s, step), []);
    } else {
      assert (steps + [step])[0] == steps[0] && (steps + [step])[1..] == steps[1..] + [step];
      RunSnoc(Apply(s, steps[0]), steps[1..], step);
    }
  }

  lemma Play(r: State, s: State, step: Step) returns (t: State)
    requires Reaches(r, s) && s.slots != [] && Enabled(s, step)
    ensures t == Apply(s, step) && Reaches(r, t)
  {
    t := Apply(s, step);
    var steps :| Legal(r, steps) && Run(r, steps) == s;
    RunSnoc(r, steps, step);
  }

  lemma {:induction false} StoreFrom(r: State, s: State, k: nat, done: nat) returns (t: State)
    requires Reaches(r, s) && s.slots != [] && s.writer.Storing? && k == SlotOf(s.writer.seqno, |s.slots|) && done <= BODY
    requires s.slots[k].body[..done] == s.writer.event[..done]
    ensures Reaches(r, t) && t == s.(slots := s.slots[k := s.slots[k].(body := s.writer.event)])
    decreases BODY - done
  {
    if done == BODY {
      t := s;
      assert s.slots[k].body == s.writer.event;
      assert s.slots[k := s.slots[k].(body := s.writer.event)] == s.slots;
    } else {
      var u := Play(r, s, Store(done, s.writer.event[done]));
      assert u.slots[k].body[..done + 1] == s.writer.event[..done + 1];
      t := StoreFrom(r, u, k, done + 1);
      assert u.slots[k := u.slots[k].(body := s.writer.event)] == s.slots[k := s.slots[k].(body := s.writer.event)];
    }
  }

  /** The single stores of one publish put the event in its slot under the next number and leave all else alone. */
  lemma UndisturbedPublish(r: State, event: Body) returns (t: State)
    requires r.slots != [] && r.writer.Idle?
    ensures Reaches(r, t) && t.writer.Idle? && t.writerSeq == r.writerSeq + 1 && t.events == r.events + [event]
    ensures t.slots == r.slots[SlotOf(r.writerSeq + 1, |r.slots|) := Slot(r.writerSeq + 1, event)]
    ensures t.readers == r.readers && t.accepted == r.accepted
  {
    assert Legal(r, []) && Run(r, []) == r;
    var k := SlotOf(r.writerSeq + 1, |r.slots|);
    var s := Play(r, r, Invalidate(event));
    s := StoreFrom(r, s, k, 0);
    s := Play(r, s, Publish);
    s := Play(r, s, CountUp);
    t := Play(r, s, Expire);
    assert t.slots == r.slots[k := Slot(r.writerSeq + 1, event)];
  }

  /** In every interleaving, whatever a reader accepted as event s is event s. */
  lemma ReadersOnlyAcceptGenuineEvents(n: nat, steps: seq<Step>)
    requires n > 0 && Legal(Init(n), steps)
    ensures var s := Run(Init(n), steps);
            forall t | t in s.accepted :: 1 <= t.seqno <= |s.events| && t.body == s.events[t.seqno - 1]
  {
    RunKeepsInv(Init(n), steps);
    var s := Run(Init(n), steps);
    forall t | t in s.accepted
      ensures 1 <= t.seqno <= |s.events| && t.body == s.events[t.seqno - 1]
    {
      assert Genuine(s, t);
    }
  }

  lemma RetainedEventInPlace(s: State, q: nat)
    requires Inv(s) && s.writer.Idle? && s.earliest <= q <= s.writerSeq
    ensures s.slots[SlotOf(q, |s.slots|)] == Slot(q, s.events[q - 1])
  {
    var k, n := SlotOf(q, |s.slots|), |s.slots|;
    assert Holds(s, k);
    var held := s.slots[k].seqno;
    if held <= q {
      SameSlotSameEvent(held, q, n);
    } else {
      SameSlotSameEvent(q, held, n);
    }
  }

  /** Whenever the producer is idle, the header and the slots agree: exactly the last n events are in place. */
  lemma QuiescentRingHoldsTheLastEvents(n: nat, steps: seq<Step>)
    requires n > 0 && Legal(Init(n), steps)
    requires Run(Init(n), steps).writer.Idle?
    ensures var s := Run(Init(n), steps);
            && |s.slots| == n
            && s.writerSeq == |s.events|
            && s.earliest == (if s.writerSeq > n then s.writerSeq - n + 1 else 1)
            && forall q | s.earliest <= q <= s.writerSeq :: s.slots[SlotOf(q, n)] == Slot(q, s.events[q - 1])
  {
    RunKeepsInv(Init(n), steps);
    var s := Run(Init(n), steps);
    forall q | s.earliest <= q <= s.writerSeq
      ensures s.slots[SlotOf(q, n)] == Slot(q, s.events[q - 1])
    {
      RetainedEventInPlace(s, q);
    }
  }
}
