/**
 The inputfs event buffer and its worker as the driver runs them: one slot array and one
 file written in place. Publishing and mirroring are tied to the step machines of the ring
 and of the mirror.
 */
module InputEvents {
  import opened Bytes
  import opened EventSlots
  import FileMirror
  import EventRing

  const SLOT_COUNT: nat := 1024
  const FIELD_BYTES: nat := 24
  const PAYLOAD_BYTES: nat := 32

  /** Timestamps, ids and flags, then the payload cut or zero-padded to its 32 bytes. */
  function MakeBody(fields: seq<Byte>, payload: seq<Byte>): (b: Body)
    requires |fields| == FIELD_BYTES
    ensures b[..FIELD_BYTES] == fields
    ensures forall i | 0 <= i < PAYLOAD_BYTES :: b[FIELD_BYTES + i] == if i < |payload| then payload[i] else 0
  {
    var kept := payload[..Min(|payload|, PAYLOAD_BYTES)];
    fields + kept + Zeros(PAYLOAD_BYTES - |kept|)
  }

  // ------------------------------------------------------------------------------------
  // One uninterrupted pass of the mirror, in which the first `good` slot writes succeed.
  // ------------------------------------------------------------------------------------

  function WriteSlots(s: FileMirror.State, good: nat): (t: FileMirror.State)
    requires FileMirror.Shaped(s) && s.worker.Copying?
    ensures FileMirror.Shaped(t)
    decreases if s.worker.Copying? then s.worker.toWrite - s.worker.done else 0
  {
    if s.worker.done >= s.worker.toWrite then s
    else if good == 0 then FileMirror.Apply(s, FileMirror.WriteSlot(false))
    else WriteSlots(FileMirror.Apply(s, FileMirror.WriteSlot(true)), good - 1)
  }

  function Pass(s: FileMirror.State, good: nat, headerOk: bool): (t: FileMirror.State)
    requires FileMirror.Shaped(s) && s.worker.Woken?
    ensures FileMirror.Shaped(t)
  {
    var captured := FileMirror.Apply(s, FileMirror.Capture);
    if captured.worker.Asleep? then captured
    else
      var written := WriteSlots(captured, good);
      if written.worker.Copying? && written.worker.done == written.worker.toWrite
      then FileMirror.Apply(written, FileMirror.WriteHeader(headerOk))
      else written
  }

  lemma {:induction false} WriteSlotsKeepsInv(s: FileMirror.State, good: nat)
    requires FileMirror.Inv(s) && s.worker.Copying?
    ensures FileMirror.Inv(WriteSlots(s, good))
    decreases s.worker.toWrite - s.worker.done
  {
    if s.worker.done < s.worker.toWrite {
      FileMirror.StepKeepsInv(s, FileMirror.WriteSlot(good > 0));
      if good > 0 {
        WriteSlotsKeepsInv(FileMirror.Apply(s, FileMirror.WriteSlot(true)), good - 1);
      }
    }
  }

  lemma PassKeepsInv(s: FileMirror.State, good: nat, headerOk: bool)
    requires FileMirror.Inv(s) && s.worker.Woken?
    ensures FileMirror.Inv(Pass(s, good, headerOk))
  {
    FileMirror.StepKeepsInv(s, FileMirror.Capture);
    var captured := FileMirror.Apply(s, FileMirror.Capture);
    if captured.worker.Copying? {
      WriteSlotsKeepsInv(captured, good);
      var written := WriteSlots(captured, good);
      if written.worker.Copying? && written.worker.done == written.worker.toWrite {
        FileMirror.StepKeepsInv(written, FileMirror.WriteHeader(headerOk));
      }
    }
  }

  lemma {:induction false} UnbrokenWriteSlots(s: FileMirror.State, good: nat)
    requires FileMirror.Inv(s) && s.worker.Copying? && good >= s.worker.toWrite - s.worker.done
    ensures var t := WriteSlots(s, good);
            && t.worker.Copying? && t.worker.done == t.worker.toWrite == s.worker.toWrite
            && t.live == s.live && t.dirty == s.dirty && t.stale == s.stale && t.synced == s.synced
    decreases s.worker.toWrite - s.worker.done
  {
    if s.worker.done < s.worker.toWrite {
      FileMirror.StepKeepsInv(s, FileMirror.WriteSlot(true));
      UnbrokenWriteSlots(FileMirror.Apply(s, FileMirror.WriteSlot(true)), good - 1);
    }
  }

  lemma {:induction false} WriteSlotsEnds(s: FileMirror.State, good: nat)
    requires FileMirror.Shaped(s) && s.worker.Copying? && s.worker.done <= s.worker.toWrite
    ensures var t := WriteSlots(s, good);
            && (t.worker.Asleep? || (t.worker.Copying? && t.worker.done == t.worker.toWrite))
            && t.live == s.live && t.dirty == s.dirty
    decreases s.worker.toWrite - s.worker.done
  {
    if s.worker.done < s.worker.toWrite && good > 0 {
      WriteSlotsEnds(FileMirror.Apply(s, FileMirror.WriteSlot(true)), good - 1);
    }
  }

  lemma PassEndsAsleep(s: FileMirror.State, good: nat, headerOk: bool)
    requires FileMirror.Inv(s) && s.worker.Woken?
    ensures var t := Pass(s, good, headerOk); t.worker.Asleep? && t.live == s.live && t.dirty == s.dirty
  {
    var captured := FileMirror.Apply(s, FileMirror.Capture);
    if captured.worker.Copying? {
      WriteSlotsEnds(captured, good);
    }
  }

  /** A pass that nothing interrupts and no write fails leaves the file equal to the ring, however long the backlog. */
  lemma UnbrokenPassMirrors(s: FileMirror.State, good: nat)
    requires FileMirror.Inv(s) && s.worker.Woken? && !s.dirty && good >= |s.live|
    ensures Pass(s, good, true).file == s.live
  {
    FileMirror.StepKeepsInv(s, FileMirror.Capture);
    var captured := FileMirror.Apply(s, FileMirror.Capture);
    if captured.worker.Copying? {
      UnbrokenWriteSlots(captured, good);
    }
    PassKeepsInv(s, good, true);
    var t := Pass(s, good, true);
    forall k | 0 <= k < |t.live|
      ensures t.file[k] == t.live[k]
    {
      assert FileMirror.Mirrored(t, k);
    }
  }

  /** The mirror's atomic event is what the single stores of one undisturbed publish amount to. */
  lemma EventIsRingPublish(s: FileMirror.State, r: EventRing.State, body: Body) returns (t: EventRing.State)
    requires FileMirror.Shaped(s) && r.writer.Idle? && r.slots == s.live && r.writerSeq == s.writerSeq
    ensures EventRing.Reaches(r, t) && t.writer.Idle? && t.events == r.events + [body]
    ensures var u := FileMirror.Apply(s, FileMirror.Event(body)); t.slots == u.live && t.writerSeq == u.writerSeq
  {
    t := EventRing.UndisturbedPublish(r, body);
  }

  /** A pass without failures moves `synced` on by the backlog, but never by more than the ring; writes wait for it. */
  lemma UnbrokenPassAdvances(s: FileMirror.State, good: nat)
    requires FileMirror.Inv(s) && s.worker.Woken? && good >= |s.live|
    ensures var t, backlog := Pass(s, good, true), s.writerSeq - s.synced;
            t.synced == s.synced + Min(backlog, |s.live|) && t.worker.Asleep? && t.live == s.live && t.dirty == s.dirty
  {
    FileMirror.StepKeepsInv(s, FileMirror.Capture);
    var captured := FileMirror.Apply(s, FileMirror.Capture);
    if captured.worker.Copying? {
      UnbrokenWriteSlots(captured, good);
    }
  }

  class Buffer {
    const live: array<Slot>
    const file: array<Slot>
    var writerSeq: nat
    var earliest: nat
    var synced: nat
    var dirty: bool
    ghost var worker: FileMirror.Worker
    ghost var stale: bool

    ghost function Abs(): FileMirror.State
      reads this, live, file
    {
      FileMirror.State(live[..], writerSeq, file[..], synced, dirty, worker, stale)
    }

    ghost predicate Shaped()
      reads this
    {
      live != file && live.Length == file.Length == SLOT_COUNT
    }

    ghost predicate Valid()
      reads this, live, file
    {
      && Shaped()
      && FileMirror.Inv(Abs())
      && earliest == EventRing.Oldest(writerSeq, SLOT_COUNT)
    }

    constructor ()
      ensures Valid() && Abs() == FileMirror.Init(SLOT_COUNT) && fresh(live) && fresh(file)
    {
      live := new Slot[SLOT_COUNT](_ => Slot(0, Zeros(BODY)));
      file := new Slot[SLOT_COUNT](_ => Slot(0, Zeros(BODY)));
      writerSeq, earliest, synced, dirty := 0, 1, 0, false;
      worker, stale := FileMirror.Asleep, false;
      new;
      assert live[..] == EmptySlots(SLOT_COUNT) && file[..] == EmptySlots(SLOT_COUNT);
    }

    /** inputfs_events_publish: invalidate, write the body, publish, advance the header, mark dirty. */
    method Publish(fields: seq<Byte>, payload: seq<Byte>)
      requires Valid() && |fields| == FIELD_BYTES
      modifies this`writerSeq, this`earliest, this`dirty, live
      ensures Valid()
      ensures Abs() == FileMirror.Apply(old(Abs()), FileMirror.Event(MakeBody(fields, payload)))
      ensures writerSeq == old(writerSeq) + 1 && live[writerSeq % SLOT_COUNT] == Slot(writerSeq, MakeBody(fields, payload))
      ensures forall k | 0 <= k < SLOT_COUNT && k != writerSeq % SLOT_COUNT :: live[k] == old(live[k])
    {
      FileMirror.StepKeepsInv(Abs(), FileMirror.Event(MakeBody(fields, payload)));
      var newSeq := writerSeq + 1;
      SlotIsMask(newSeq);
      var k := newSeq % SLOT_COUNT;
      live[k] := live[k].(seqno := 0);
      live[k] := live[k].(body := MakeBody(fields, payload));
      live[k] := live[k].(seqno := newSeq);
      writerSeq := newSeq;
      if newSeq > SLOT_COUNT {
        earliest := newSeq - SLOT_COUNT + 1;
      }
      dirty := true;
      assert Abs() == FileMirror.Apply(old(Abs()), FileMirror.Event(MakeBody(fields, payload)));
    }

    /** One slot write. */
    method WriteOneSlot(i: nat)
      requires Shaped() && worker.Copying? && worker.done == i < worker.toWrite
      modifies this`worker, file
      ensures Abs() == FileMirror.Apply(old(Abs()), FileMirror.WriteSlot(true))
    {
      var seqno := synced + 1 + i;
      SlotIsMask(seqno);
      file[seqno % SLOT_COUNT] := live[seqno % SLOT_COUNT];
      worker := worker.(done := i + 1);
    }

    /** The slot-writing loop of one pass. */
    method WriteSlotsToFile(toWrite: nat, good: nat) returns (ok: bool)
      requires Shaped() && worker.Copying? && worker.done == 0 && worker.toWrite == toWrite
      modifies this`worker, this`stale, file
      ensures Abs() == WriteSlots(old(Abs()), good)
      ensures ok <==> worker.Copying? && worker.done == worker.toWrite
      ensures ok ==> worker.toWrite == toWrite
    {
      ghost var goal := WriteSlots(Abs(), good);
      var i := 0;
      while i < toWrite
        invariant worker.Copying? && worker.done == i <= toWrite == worker.toWrite && i <= good
        invariant WriteSlots(Abs(), good - i) == goal
      {
        if i == good {
          worker, stale := FileMirror.Asleep, true;
          return false;
        }
        WriteOneSlot(i);
        i := i + 1;
      }
      return true;
    }

    /** inputfs_events_sync_to_file, once the worker has taken the dirty flag. */
    method SyncToFile(good: nat, headerOk: bool)
      requires Valid() && worker.Woken?
      modifies this`worker, this`stale, this`synced, file
      ensures Valid() && Abs() == Pass(old(Abs()), good, headerOk)
    {
      PassKeepsInv(Abs(), good, headerOk);
      RunPass(good, headerOk);
    }

    /**
     One turn of inputfs_state_worker: take the dirty flag, and mirror if it was set. With no
     failure the ring is on file afterwards.
     */
    method WorkerTurn(good: nat, headerOk: bool)
      requires Valid() && worker.Asleep?
      modifies this`worker, this`stale, this`synced, this`dirty, file
      ensures Valid() && worker.Asleep? && !dirty
      ensures !old(dirty) ==> synced == old(synced) && file[..] == old(file[..])
      ensures old(dirty) && good >= SLOT_COUNT && headerOk ==> file[..] == live[..]
    {
      ghost var before := Abs();
      FileMirror.StepKeepsInv(before, FileMirror.Wake);
      var doEvents := dirty;
      dirty := false;
      if doEvents {
        worker := FileMirror.Woken;
        assert Abs() == FileMirror.Apply(before, FileMirror.Wake);
        PassEndsAsleep(Abs(), good, headerOk);
        if good >= SLOT_COUNT && headerOk {
          UnbrokenPassMirrors(Abs(), good);
        }
        SyncToFile(good, headerOk);
      } else {
        assert Abs() == FileMirror.Apply(before, FileMirror.Wake);
      }
    }

    method RunPass(good: nat, headerOk: bool)
      requires Shaped() && worker.Woken?
      modifies this`worker, this`stale, this`synced, file
      ensures Abs() == Pass(old(Abs()), good, headerOk)
    {
      stale := false;
      if synced >= writerSeq {
        worker := FileMirror.Asleep;
        return;
      }
      var toWrite := writerSeq - synced;
      if toWrite > SLOT_COUNT {
        toWrite := SLOT_COUNT;
      }
      worker := FileMirror.Copying(writerSeq, toWrite, 0);
      var ok := WriteSlotsToFile(toWrite, good);
      if ok {
        WriteHeader(toWrite, headerOk);
      }
    }

    /** The header write that ends a pass. */
    method WriteHeader(toWrite: nat, ok: bool)
      requires Shaped() && worker.Copying? && worker.done == worker.toWrite == toWrite
      modifies this`worker, this`stale, this`synced
      ensures Abs() == FileMirror.Apply(old(Abs()), FileMirror.WriteHeader(ok))
    {
      if ok {
        synced := synced + toWrite;
      } else {
        stale := true;
      }
      worker := FileMirror.Asleep;
    }
  }
}
