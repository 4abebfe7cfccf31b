/**
 The inputfs worker that mirrors the event ring to a file. Interrupts publish at any
 moment, also between two slot writes of one pass; file writes may fail; a backlog may be
 longer than the ring. A publish and a slot write are atomic here.
 */
module FileMirror {
  import opened EventSlots

  /** How far one worker iteration has come. `Copying` holds the captured counters and the slots written. */
  datatype Worker = Asleep | Woken | Copying(latest: nat, toWrite: nat, done: nat)

  /** `stale` is set by a failed write and cleared when the next pass starts. */
  datatype State = State(live: seq<Slot>, writerSeq: nat, file: seq<Slot>, synced: nat, dirty: bool,
                         worker: Worker, stale: bool)

  datatype Step = Event(body: Body) | Wake | Capture | WriteSlot(ok: bool) | WriteHeader(ok: bool)

  function Init(n: nat): State {
    State(EmptySlots(n), 0, EmptySlots(n), 0, false, Asleep, false)
  }

  function PassLength(synced: nat, latest: nat, n: nat): nat
    requires synced <= latest
  {
    if latest - synced > n then n else latest - synced
  }

  predicate Shaped(s: State) {
    s.live != [] && |s.live| == |s.file|
  }

  predicate Enabled(s: State, step: Step) {
    match step
    case Event(_) => true
    case Wake => s.worker.Asleep?
    case Capture => s.worker.Woken?
    case WriteSlot(_) => s.worker.Copying? && s.worker.done < s.worker.toWrite
    case WriteHeader(_) => s.worker.Copying? && s.worker.done == s.worker.toWrite
  }

  function Apply(s: State, step: Step): State
    requires Shaped(s) && Enabled(s, step)
  {
    var n := |s.live|;
    match step
    case Event(body) =>
      s.(live := s.live[SlotOf(s.writerSeq + 1, n) := Slot(s.writerSeq + 1, body)],
         writerSeq := s.writerSeq + 1, dirty := true)
    case Wake => s.(dirty := false, worker := if s.dirty then Woken else Asleep)
    case Capture =>
      if s.synced >= s.writerSeq then s.(worker := Asleep, stale := false)
      else s.(worker := Copying(s.writerSeq, PassLength(s.synced, s.writerSeq, n), 0), stale := false)
    case WriteSlot(ok) =>
      var k := SlotOf(s.synced + 1 + s.worker.done, n);
      if ok then s.(file := s.file[k := s.live[k]], worker := s.worker.(done := s.worker.done + 1))
      else s.(worker := Asleep, stale := true)
    case WriteHeader(ok) =>
      if ok then s.(synced := s.synced + s.worker.toWrite, worker := Asleep)
      else s.(worker := Asleep, stale := true)
  }

  // ------------------------------------------------------------------------------------
  // What every step keeps, whatever fails.
  // ------------------------------------------------------------------------------------

  predicate Mirrored(s: State, k: nat)
    requires k < |s.live| == |s.file|
  {
    s.file[k] == s.live[k]
  }

  ghost predicate LiveOk(s: State) {
    && Shaped(s) && s.synced <= s.writerSeq
    && forall k | 0 <= k < |s.live| ::
         && s.live[k].seqno <= s.writerSeq
         && (s.live[k].seqno > 0 ==> SlotOf(s.live[k].seqno, |s.live|) == k)
  }

  /** Every slot whose live number is covered by `synced` is on file as it is live. */
  ghost predicate SyncedOk(s: State)
    requires LiveOk(s)
  {
    forall k | 0 <= k < |s.live| :: s.live[k].seqno <= s.synced ==> Mirrored(s, k)
  }

  /** So is every slot this pass has written, unless it was overwritten after the capture. */
  ghost predicate PassOk(s: State)
    requires LiveOk(s)
  {
    var w, n := s.worker, |s.live|;
    w.Copying? ==>
      && s.synced + w.toWrite <= w.latest <= s.writerSeq
      && w.toWrite == PassLength(s.synced, w.latest, n)
      && w.done <= w.toWrite
      && forall q | s.synced < q <= s.synced + w.done ::
           s.live[SlotOf(q, n)].seqno <= w.latest ==> Mirrored(s, SlotOf(q, n))
  }

  /** The slot is still ahead of this pass. */
  predicate Ahead(s: State, k: nat)
    requires s.live != [] && s.worker.Copying?
  {
    exists q | s.synced + s.worker.done < q <= s.synced + s.worker.toWrite :: SlotOf(q, |s.live|) == k
  }

  /** Nothing is forgotten: a slot that differs on file is dirty again, still ahead, or owed by a failure. */
  ghost predicate Remembered(s: State)
    requires LiveOk(s)
  {
    s.stale || s.dirty || s.worker.Woken? ||
    forall k | 0 <= k < |s.live| :: Mirrored(s, k) || (s.worker.Copying? && Ahead(s, k))
  }

  ghost predicate Inv(s: State) {
    LiveOk(s) && SyncedOk(s) && PassOk(s) && Remembered(s)
  }

  lemma EventKeepsInv(s: State, body: Body)
    requires Inv(s)
    ensures Inv(Apply(s, Event(body)))
  {
  }

  /** Any n consecutive numbers visit every slot. */
  lemma {:induction false} FullLapVisits(from: nat, n: nat, k: nat) returns (j: nat)
    requires k < n
    ensures j < n && SlotOf(from + j, n) == k
    decreases from
  {
    if from >= n {
      j := FullLapVisits(from - n, n, k);
    } else if k >= from {
      j := k - from;
    } else {
      j := k + n - from;
      assert SlotOf(k + n, n) == SlotOf(k, n);
    }
  }

  lemma CaptureCovers(s: State, k: nat)
    requires LiveOk(s) && SyncedOk(s) && s.worker.Woken? && s.synced < s.writerSeq
    requires k < |s.live| && !Mirrored(s, k)
    ensures Ahead(Apply(s, Capture), k)
  {
    var t, n := Apply(s, Capture), |s.live|;
    var q := s.live[k].seqno;
    if t.worker.toWrite == n {
      var j := FullLapVisits(s.synced + 1, n, k);
      assert SlotOf(s.synced + 1 + j, n) == k;
    } else {
      assert SlotOf(q, n) == k;
    }
  }

  lemma CaptureKeepsInv(s: State)
    requires Inv(s) && Enabled(s, Capture)
    ensures Inv(Apply(s, Capture))
  {
    if s.synced < s.writerSeq {
      forall k | 0 <= k < |s.live| && !Mirrored(s, k)
        ensures Ahead(Apply(s, Capture), k)
      {
        CaptureCovers(s, k);
      }
    }
  }

  lemma WriteSlotKeepsRemembered(s: State)
    requires Inv(s) && Enabled(s, WriteSlot(true))
    ensures LiveOk(Apply(s, WriteSlot(true))) && Remembered(Apply(s, WriteSlot(true)))
  {
    var t, n := Apply(s, WriteSlot(true)), |s.live|;
    if !(s.stale || s.dirty) {
      forall k | 0 <= k < n
        ensures Mirrored(t, k) || Ahead(t, k)
      {
        if k != SlotOf(s.synced + 1 + s.worker.done, n) && !Mirrored(s, k) {
          assert Ahead(s, k);
          var q :| s.synced + s.worker.done < q <= s.synced + s.worker.toWrite && SlotOf(q, n) == k;
          assert t.synced + t.worker.done < q && SlotOf(q, n) == k;
        }
      }
    }
  }

  lemma WriteSlotKeepsInv(s: State, ok: bool)
    requires Inv(s) && Enabled(s, WriteSlot(ok))
    ensures Inv(Apply(s, WriteSlot(ok)))
  {
    if ok {
      WriteSlotKeepsRemembered(s);
    }
  }

  lemma HeaderKeepsSynced(s: State)
    requires Inv(s) && Enabled(s, WriteHeader(true))
    ensures LiveOk(Apply(s, WriteHeader(true))) && SyncedOk(Apply(s, WriteHeader(true)))
  {
    var t := Apply(s, WriteHeader(true));
    forall k | 0 <= k < |t.live| && t.live[k].seqno <= t.synced
      ensures Mirrored(t, k)
    {
      var q := s.live[k].seqno;
      assert q > s.synced ==> SlotOf(q, |s.live|) == k;
    }
  }

  lemma HeaderKeepsRemembered(s: State)
    requires Inv(s) && Enabled(s, WriteHeader(true))
    ensures LiveOk(Apply(s, WriteHeader(true))) && Remembered(Apply(s, WriteHeader(true)))
  {
    var t := Apply(s, WriteHeader(true));
    if !(s.stale || s.dirty) {
      forall k | 0 <= k < |t.live|
        ensures Mirrored(t, k)
      {
        assert Mirrored(s, k) || Ahead(s, k);
      }
    }
  }

  lemma StepKeepsInv(s: State, step: Step)
    requires Inv(s) && Enabled(s, step)
    ensures Inv(Apply(s, step))
  {
    match step
    case Event(body) => EventKeepsInv(s, body);
    case Wake =>
    case Capture => CaptureKeepsInv(s);
    case WriteSlot(ok) => WriteSlotKeepsInv(s, ok);
    case WriteHeader(ok) =>
      if ok {
        HeaderKeepsSynced(s);
        HeaderKeepsRemembered(s);
      }
  }

  ghost predicate Legal(s: State, steps: seq<Step>)
    decreases |steps|
  {
    steps == [] || (Shaped(s) && Enabled(s, steps[0]) && Legal(Apply(s, steps[0]), steps[1..]))
  }

  ghost function Run(s: State, steps: seq<Step>): State
    requires Legal(s, steps)
    decreases |steps|
  {
    if steps == [] then s else Run(Apply(s, steps[0]), steps[1..])
  }

  lemma {:induction false} RunKeepsInv(s: State, steps: seq<Step>)
    requires Inv(s) && Legal(s, steps)
    ensures Inv(Run(s, steps))
    decreases |steps|
  {
    if steps != [] {
      StepKeepsInv(s, steps[0]);
      RunKeepsInv(Apply(s, steps[0]), steps[1..]);
    }
  }

  /** With failures and any backlog: a slot whose live number is at most `synced` is on file exactly. */
  lemma SyncedSlotsAreOnFile(n: nat, steps: seq<Step>, k: nat)
    requires n > 0 && Legal(Init(n), steps)
    ensures var s := Run(Init(n), steps);
            && |s.live| == |s.file|
            && (k < |s.live| && s.live[k].seqno <= s.synced ==> s.file[k] == s.live[k])
  {
    RunKeepsInv(Init(n), steps);
    var s := Run(Init(n), steps);
    if k < |s.live| && s.live[k].seqno <= s.synced {
      assert Mirrored(s, k);
    }
  }

  /** No lost wakeup: when the worker may sleep and its last pass did not fail, the file is the ring. */
  lemma SleepingWorkerHasMirroredEverything(n: nat, steps: seq<Step>)
    requires n > 0 && Legal(Init(n), steps)
    ensures var s := Run(Init(n), steps);
            s.worker.Asleep? && !s.dirty && !s.stale ==> s.file == s.live
  {
    RunKeepsInv(Init(n), steps);
    var s := Run(Init(n), steps);
    if s.worker.Asleep? && !s.dirty && !s.stale {
      forall k | 0 <= k < |s.live|
        ensures s.file[k] == s.live[k]
      {
        assert Mirrored(s, k);
      }
    }
  }
}
