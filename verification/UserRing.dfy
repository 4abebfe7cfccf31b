/**
 The 32 KiB byte ring between write(2) and the interrupt thread: the writer reserves
 space under the ring lock, copies with the lock dropped, and commits under the lock
 again, while the interrupt thread drains fragments at any moment in between.
 */
module UserRing {
  import opened AudioGeometry
  import opened Bytes

  /** The ring as the lock protects it. The cursors only grow; a byte lives in the cell of its cursor. */
  datatype Ring = Ring(mem: seq<Byte>, head: nat, tail: nat) {

    predicate Valid() {
      && |mem| == RING_BYTES
      && tail <= head <= tail + RING_BYTES
      && head % 4 == 0
      && tail % 4 == 0
    }

    function Contents(): (s: seq<Byte>)
      requires Valid()
      ensures |s| == head - tail
    {
      seq(head - tail, i requires 0 <= i < head - tail => mem[Cell(tail + i)])
    }

    function Space(): nat
      requires Valid()
    {
      RING_BYTES - (head - tail)
    }

    /** How many bytes the next refill takes. */
    function Take(): (n: nat)
      requires Valid()
      ensures n <= FRAG_BYTES && n <= head - tail
      ensures n % 4 == 0
      ensures n == FRAG_BYTES || n == head - tail
    {
      Min(head - tail, FRAG_BYTES)
    }

    /** The fragment a refill produces: what the ring has, then silence. */
    function Fragment(): (f: seq<Byte>)
      requires Valid()
      ensures |f| == FRAG_BYTES
    {
      Contents()[..Take()] + Zeros(FRAG_BYTES - Take())
    }

    function Drain(): (r: Ring)
      requires Valid()
      ensures r.Valid()
    {
      this.(tail := tail + Take())
    }

    /** A write(2) chunk: as much as fits, in whole stereo frames. */
    function Want(offered: nat): (n: nat)
      requires Valid()
      ensures n <= offered && n <= Space() && n % 4 == 0
      ensures offered < n + 4 || Space() < n + 4
    {
      WholeFrames(Min(offered, Space()))
    }

    function Append(data: seq<Byte>): Ring
      requires |mem| == RING_BYTES
    {
      Ring(Poke(mem, head, data), head + |data|, tail)
    }
  }

  /** How far cell `i` lies behind cell `from`, going round. */
  function Behind(i: nat, from: nat): nat
    requires i < RING_BYTES && from < RING_BYTES
  {
    if i >= from then i - from else i + RING_BYTES - from
  }

  /** Memory after `data` is stored at cursor `at`, wrapping at the ring end. */
  function Poke(mem: seq<Byte>, at: nat, data: seq<Byte>): (m: seq<Byte>)
    requires |mem| == RING_BYTES
    ensures |m| == RING_BYTES
  {
    seq(RING_BYTES, i requires 0 <= i < RING_BYTES =>
      if Behind(i, Cell(at)) < |data| then data[Behind(i, Cell(at))] else mem[i])
  }

  lemma PokeAt(mem: seq<Byte>, at: nat, data: seq<Byte>, k: nat)
    requires |mem| == RING_BYTES && k < RING_BYTES
    ensures Poke(mem, at, data)[Cell(at + k)] == if k < |data| then data[k] else mem[Cell(at + k)]
  {
    CellAdd(at, k);
  }

  /** A refill that leaves anything in the ring has drained a full fragment; a shorter one has drained it all. */
  lemma RefillDrainsAllItCan(s: State)
    requires s.ring.Valid()
    ensures var t := Apply(s, Refill);
            && t.ring.Valid()
            && |t.drained| - |s.drained| == |s.ring.Contents()| - |t.ring.Contents()| <= FRAG_BYTES
            && (t.ring.Contents() == [] || |t.drained| - |s.drained| == FRAG_BYTES)
  {
  }

  /** Draining and appending are the two ends of one queue. */
  lemma DrainTakesFromTheFront(r: Ring)
    requires r.Valid()
    ensures r.Drain().Valid()
    ensures r.Contents() == r.Contents()[..r.Take()] + r.Drain().Contents()
  {
  }

  lemma AppendedByte(mem: seq<Byte>, head: nat, tail: nat, data: seq<Byte>, i: nat)
    requires |mem| == RING_BYTES && tail <= head && head + |data| <= tail + RING_BYTES && i < head + |data| - tail
    ensures Poke(mem, head, data)[Cell(tail + i)]
         == if i < head - tail then mem[Cell(tail + i)] else data[i - (head - tail)]
  {
    if i < head - tail {
      var k := RING_BYTES - (head - tail) + i;
      assert head + k == tail + i + RING_BYTES;
      PokeAt(mem, head, data, k);
    } else {
      PokeAt(mem, head, data, i - (head - tail));
    }
  }

  lemma AppendIsValid(r: Ring, data: seq<Byte>)
    requires r.Valid() && |data| <= r.Space() && |data| % 4 == 0
    ensures r.Append(data).Valid()
  {
  }

  lemma AppendAddsAtTheBack(r: Ring, data: seq<Byte>)
    requires r.Valid() && |data| <= r.Space() && |data| % 4 == 0
    ensures r.Append(data).Valid()
    ensures r.Append(data).Contents() == r.Contents() + data
  {
    AppendIsValid(r, data);
    var q := r.Append(data);
    forall i | 0 <= i < |q.Contents()|
      ensures q.Contents()[i] == (r.Contents() + data)[i]
    {
      AppendedByte(r.mem, r.head, r.tail, data, i);
    }
  }

  // ------------------------------------------------------------------------------------
  // The protocol: one writer thread and the interrupt thread, interleaved at every byte
  // of the unlocked copy.
  // ------------------------------------------------------------------------------------

  /** `Copying` holds the reservation: the head seen under the lock, the chunk, the bytes copied so far. */
  datatype Writer = Idle | Copying(start: nat, data: seq<Byte>, done: nat)

  /** `committed` and `drained` record what was committed and drained since the last reset. */
  datatype State = State(ring: Ring, writer: Writer, committed: seq<Byte>, drained: seq<Byte>)

  datatype Step =
    | Reserve(user: seq<Byte>)
    | CopyByte
    | Abort
    | Commit
    | Refill
    | Flush
    | Reopen

  function Init(mem: seq<Byte>): State {
    State(Ring(mem, 0, 0), Idle, [], [])
  }

  /** Resets are taken when no reservation is outstanding, or when they do not move the head. */
  predicate Enabled(s: State, step: Step)
    requires s.ring.Valid()
  {
    match step
    case Reserve(user) => s.writer.Idle? && |user| >= 4 && s.ring.Space() >= 4
    case CopyByte => s.writer.Copying? && s.writer.done < |s.writer.data|
    case Abort => s.writer.Copying?
    case Commit => s.writer.Copying? && s.writer.done == |s.writer.data|
    case Refill => true
    case Flush => s.writer.Idle? || s.ring.head == s.ring.tail
    case Reopen => s.writer.Idle?
  }

  /** What each lock hold, and each byte of the unlocked copy, does. */
  function Apply(s: State, step: Step): State
    requires s.ring.Valid()
    requires Enabled(s, step) || step.Flush?
  {
    match step
    case Reserve(user) =>
      s.(writer := Copying(s.ring.head, user[..s.ring.Want(|user|)], 0))
    case CopyByte =>
      var w := s.writer;
      s.(ring := s.ring.(mem := s.ring.mem[Cell(w.start + w.done) := w.data[w.done]]),
         writer := w.(done := w.done + 1))
    case Abort =>
      s.(writer := Idle)
    case Commit =>
      s.(ring := s.ring.(head := s.ring.head + |s.writer.data|),
         committed := s.committed + s.writer.data, writer := Idle)
    case Refill =>
      s.(ring := s.ring.Drain(), drained := s.drained + s.ring.Contents()[..s.ring.Take()])
    case Flush =>
      s.(ring := s.ring.(head := s.ring.tail), committed := [], drained := [])
    case Reopen =>
      s.(ring := s.ring.(head := 0, tail := 0), committed := [], drained := [])
  }

  /** What every step keeps. */
  ghost predicate Inv(s: State) {
    && s.ring.Valid()
    && s.drained + s.ring.Contents() == s.committed
    && (s.writer.Copying? ==>
          && s.writer.start == s.ring.head
          && s.writer.done <= |s.writer.data| <= s.ring.Space()
          && |s.writer.data| % 4 == 0
          && forall k | 0 <= k < s.writer.done :: s.ring.mem[Cell(s.ring.head + k)] == s.writer.data[k])
  }

  /** The cells the unlocked copy may touch are disjoint from the cells a refill may read. */
  lemma CopyNeverOverlapsReadable(s: State, k: nat, i: nat)
    requires Inv(s) && s.writer.Copying?
    requires k < |s.writer.data| && i < |s.ring.Contents()|
    ensures Cell(s.writer.start + k) != Cell(s.ring.tail + i)
  {
    DistinctCells(s.ring.tail + i, s.writer.start + k);
  }

  lemma CopyByteKeepsContents(s: State)
    requires Inv(s) && Enabled(s, CopyByte)
    ensures Apply(s, CopyByte).ring.Contents() == s.ring.Contents()
  {
    forall i | 0 <= i < |s.ring.Contents()|
      ensures Apply(s, CopyByte).ring.Contents()[i] == s.ring.Contents()[i]
    {
      CopyNeverOverlapsReadable(s, s.writer.done, i);
    }
  }

  lemma CopyByteKeepsInv(s: State)
    requires Inv(s) && Enabled(s, CopyByte)
    ensures Inv(Apply(s, CopyByte))
  {
    CopyByteKeepsContents(s);
    forall k | 0 <= k < s.writer.done
      ensures Apply(s, CopyByte).ring.mem[Cell(s.ring.head + k)] == s.writer.data[k]
    {
      DistinctCells(s.ring.head + k, s.ring.head + s.writer.done);
    }
  }

  lemma CommitKeepsInv(s: State)
    requires Inv(s) && Enabled(s, Commit)
    ensures Inv(Apply(s, Commit))
  {
    var t := Apply(s, Commit);
    var old_ := s.ring.Contents();
    forall i | 0 <= i < |t.ring.Contents()|
      ensures t.ring.Contents()[i] == (old_ + s.writer.data)[i]
    {
      if i >= |old_| {
        assert s.ring.tail + i == s.ring.head + (i - |old_|);
      }
    }
    assert t.ring.Contents() == old_ + s.writer.data;
  }

  lemma RefillKeepsInv(s: State)
    requires Inv(s)
    ensures Inv(Apply(s, Refill))
  {
    DrainTakesFromTheFront(s.ring);
    var taken, rest := s.ring.Contents()[..s.ring.Take()], s.ring.Drain().Contents();
    assert s.drained + (taken + rest) == (s.drained + taken) + rest;
  }

  lemma ResetKeepsInv(s: State, step: Step)
    requires Inv(s) && Enabled(s, step) && (step.Flush? || step.Reopen?)
    ensures Inv(Apply(s, step))
  {
    var t := Apply(s, step);
    assert t.ring.Contents() == [];
  }

  lemma StepKeepsInv(s: State, step: Step)
    requires Inv(s) && Enabled(s, step)
    ensures Inv(Apply(s, step))
  {
    match step
    case Reserve(_) =>
    case CopyByte => CopyByteKeepsInv(s);
    case Abort =>
    case Commit => CommitKeepsInv(s);
    case Refill => RefillKeepsInv(s);
    case Flush => ResetKeepsInv(s, step);
    case Reopen => ResetKeepsInv(s, step);
  }

  ghost predicate Legal(s: State, steps: seq<Step>)
    decreases |steps|
  {
    steps == [] || (s.ring.Valid() && Enabled(s, steps[0]) && Legal(Apply(s, steps[0]), steps[1..]))
  }

  ghost function Run(s: State, steps: seq<Step>): State
    requires Legal(s, steps)
    decreases |steps|
  {
    if steps == [] then s else Run(Apply(s, steps[0]), steps[1..])
  }

  lemma {:induction false} RunKeepsInv(s: State, steps: seq<Step>)
    requires Inv(s) && Legal(s, steps)
    ensures Inv(Run(s, steps))
    decreases |steps|
  {
    if steps != [] {
      StepKeepsInv(s, steps[0]);
      RunKeepsInv(Apply(s, steps[0]), steps[1..]);
    }
  }

  /** FIFO over every run: nothing is lost, duplicated or reordered between commit and drain. */
  lemma FifoOverEveryRun(mem: seq<Byte>, steps: seq<Step>)
    requires |mem| == RING_BYTES
    requires Legal(Init(mem), steps)
    ensures var s := Run(Init(mem), steps);
            && s.ring.Valid()
            && s.drained + s.ring.Contents() == s.committed
            && 0 <= s.ring.head - s.ring.tail <= RING_BYTES
            && s.ring.head % 4 == 0 && s.ring.tail % 4 == 0
  {
    RunKeepsInv(Init(mem), steps);
  }

  // ------------------------------------------------------------------------------------
  // A flush inside the unlocked window. SET_FORMAT sets head to tail under the lock, while
  // the writer goes on copying to where the head was and then advances the new head.
  // ------------------------------------------------------------------------------------

  predicate Stores(mem: seq<Byte>, at: nat, data: seq<Byte>)
    requires |mem| == RING_BYTES
  {
    forall k | 0 <= k < |data| :: mem[Cell(at + k)] == data[k]
  }

  /** The ring is empty, `lost` is what was flushed, and the writer copies `data` behind it. */
  predicate Stranded(s: State, lost: seq<Byte>, data: seq<Byte>) {
    && s.ring.Valid() && s.ring.head == s.ring.tail && s.committed == [] && s.drained == []
    && s.writer.Copying? && s.writer.data == data && s.writer.done <= |data|
    && |data| % 4 == 0 && |lost| + |data| <= RING_BYTES
    && s.writer.start == s.ring.head + |lost|
    && Stores(s.ring.mem, s.ring.tail, lost)
    && Stores(s.ring.mem, s.writer.start, data[..s.writer.done])
  }

  lemma FlushStrands(s: State)
    requires Inv(s) && s.writer.Copying?
    ensures Stranded(Apply(s, Flush), s.ring.Contents(), s.writer.data)
  {
  }

  lemma CopyKeepsStranded(s: State, lost: seq<Byte>, data: seq<Byte>)
    requires Stranded(s, lost, data) && Enabled(s, CopyByte)
    ensures Stranded(Apply(s, CopyByte), lost, data)
  {
    var at := s.writer.start + s.writer.done;
    var t := Apply(s, CopyByte);
    forall k | 0 <= k < |lost|
      ensures t.ring.mem[Cell(s.ring.tail + k)] == lost[k]
    {
      DistinctCells(s.ring.tail + k, at);
    }
    forall k | 0 <= k < s.writer.done
      ensures t.ring.mem[Cell(s.writer.start + k)] == data[k]
    {
      DistinctCells(s.writer.start + k, at);
      assert data[..s.writer.done][k] == data[k];
    }
  }

  lemma RefillKeepsStranded(s: State, lost: seq<Byte>, data: seq<Byte>)
    requires Stranded(s, lost, data)
    ensures Apply(s, Refill) == s
  {
    assert s.ring.Take() == 0;
    assert s.drained + s.ring.Contents()[..0] == s.drained;
  }

  /** What happens between the flush and the commit: the rest of the copy, and any refills. */
  predicate InWindow(steps: seq<Step>) {
    forall i | 0 <= i < |steps| :: steps[i].CopyByte? || steps[i].Refill?
  }

  lemma {:induction false} RunKeepsStranded(s: State, lost: seq<Byte>, data: seq<Byte>, steps: seq<Step>)
    requires Stranded(s, lost, data) && InWindow(steps) && Legal(s, steps)
    ensures Stranded(Run(s, steps), lost, data)
    decreases |steps|
  {
    if steps != [] {
      if steps[0].CopyByte? {
        CopyKeepsStranded(s, lost, data);
      } else {
        RefillKeepsStranded(s, lost, data);
      }
      RunKeepsStranded(Apply(s, steps[0]), lost, data, steps[1..]);
    }
  }

  lemma StoresConcat(mem: seq<Byte>, at: nat, a: seq<Byte>, b: seq<Byte>)
    requires |mem| == RING_BYTES && Stores(mem, at, a) && Stores(mem, at + |a|, b)
    ensures Stores(mem, at, a + b)
  {
    forall k | 0 <= k < |a + b|
      ensures mem[Cell(at + k)] == (a + b)[k]
    {
      if k >= |a| {
        assert at + k == at + |a| + (k - |a|);
        assert mem[Cell(at + |a| + (k - |a|))] == b[k - |a|];
      }
    }
  }

  lemma CommitReadsLostBytes(s: State, lost: seq<Byte>, data: seq<Byte>)
    requires Stranded(s, lost, data) && s.writer.done == |data|
    ensures var t := Apply(s, Commit);
            t.ring.Valid() && t.ring.Contents() == (lost + data)[..|data|] && t.drained == [] && t.committed == data
  {
    var t := Apply(s, Commit);
    assert data[..s.writer.done] == data;
    StoresConcat(s.ring.mem, s.ring.tail, lost, data);
  }

  /**
   A flush at any point of the unlocked copy, then the rest of the copy and any refills, then
   the commit: the ring holds the flushed bytes and only after them the chunk, cut to the
   chunk's length. So the FIFO law survives exactly when the chunk starts with what was flushed
   and repeats from there; in particular when nothing was flushed.
   */
  lemma FlushInWindowKeepsFifoIff(s: State, steps: seq<Step>)
    requires Inv(s) && s.writer.Copying? && InWindow(steps) && Legal(Apply(s, Flush), steps)
    requires Run(Apply(s, Flush), steps).writer == s.writer.(done := |s.writer.data|)
    ensures Run(Apply(s, Flush), steps).ring.Valid()
    ensures var t := Apply(Run(Apply(s, Flush), steps), Commit);
            var lost, data := s.ring.Contents(), s.writer.data;
            && t.ring.Valid() && t.ring.Contents() == (lost + data)[..|data|]
            && (t.drained + t.ring.Contents() == t.committed <==> data == (lost + data)[..|data|])
  {
    FlushStrands(s);
    RunKeepsStranded(Apply(s, Flush), s.ring.Contents(), s.writer.data, steps);
    CommitReadsLostBytes(Run(Apply(s, Flush), steps), s.ring.Contents(), s.writer.data);
  }

  lemma {:induction false} RunConcat(s: State, a: seq<Step>, b: seq<Step>)
    requires Legal(s, a) && Legal(Run(s, a), b)
    ensures Legal(s, a + b) && Run(s, a + b) == Run(Run(s, a), b)
    decreases |a|
  {
    if a == [] {
      assert a + b == b;
    } else {
      assert (a + b)[0] == a[0] && (a + b)[1..] == a[1..] + b;
      RunConcat(Apply(s, a[0]), a[1..], b);
    }
  }

  ghost predicate Reachable(s: State) {
    exists mem, steps :: |mem| == RING_BYTES && Legal(Init(mem), steps) && Run(Init(mem), steps) == s
  }

  lemma RunOne(s: State, step: Step)
    requires s.ring.Valid() && Enabled(s, step)
    ensures Legal(s, [step]) && Run(s, [step]) == Apply(s, step)
  {
    assert [step][1..] == [];
    assert Legal(Apply(s, step), []);
  }

  lemma Play(s: State, step: Step) returns (t: State)
    requires Reachable(s) && s.ring.Valid() && Enabled(s, step)
    ensures t == Apply(s, step) && Reachable(t)
  {
    t := Apply(s, step);
    var mem, steps :| |mem| == RING_BYTES && Legal(Init(mem), steps) && Run(Init(mem), steps) == s;
    RunOne(s, step);
    RunConcat(Init(mem), steps, [step]);
  }

  lemma ReachableIsSound(s: State)
    requires Reachable(s)
    ensures Inv(s)
  {
    var mem, steps :| |mem| == RING_BYTES && Legal(Init(mem), steps) && Run(Init(mem), steps) == s;
    RunKeepsInv(Init(mem), steps);
  }

  /** The writer finishes copying the four bytes of its reservation. */
  lemma CopyFour(s: State) returns (t: State)
    requires Reachable(s) && s.writer.Copying? && |s.writer.data| == 4 && s.writer.done == 0
    ensures Reachable(t) && t.ring.Valid() && t.ring.head == s.ring.head && t.ring.tail == s.ring.tail
    ensures t.committed == s.committed && t.drained == s.drained && t.writer == s.writer.(done := 4)
  {
    ReachableIsSound(s);
    t := Play(s, CopyByte);
    t := Play(t, CopyByte);
    t := Play(t, CopyByte);
    t := Play(t, CopyByte);
  }

  lemma TwoWrites() returns (s: State)
    ensures Reachable(s) && Inv(s) && s.writer.Copying? && s.writer.data == [5, 6, 7, 8] && s.writer.done == 4
    ensures s.ring.Contents() == [1, 2, 3, 4]
  {
    var mem := Zeros(RING_BYTES);
    assert Legal(Init(mem), []) && Run(Init(mem), []) == Init(mem);
    assert [1, 2, 3, 4][..4] == [1, 2, 3, 4] && [5, 6, 7, 8][..4] == [5, 6, 7, 8];
    s := Play(Init(mem), Reserve([1, 2, 3, 4]));
    s := CopyFour(s);
    s := Play(s, Commit);
    s := Play(s, Reserve([5, 6, 7, 8]));
    s := CopyFour(s);
    ReachableIsSound(s);
    assert [] + s.ring.Contents() == s.ring.Contents();
    assert s.committed == [1, 2, 3, 4];
  }

  /** A reachable state in which the flush breaks FIFO: 1 2 3 4 is flushed, 5 6 7 8 committed, and 1 2 3 4 plays. */
  lemma FlushInWindowBreaksFifo() returns (s: State)
    ensures Reachable(s) && s.ring.Valid() && s.writer.Copying? && Enabled(s, Commit)
    ensures var t := Apply(Apply(s, Flush), Commit);
            t.ring.Valid() && t.committed == [5, 6, 7, 8] && t.drained == [] && t.ring.Contents() == [1, 2, 3, 4]
  {
    s := TwoWrites();
    FlushInWindowKeepsFifoIff(s, []);
    assert ([1, 2, 3, 4] + [5, 6, 7, 8])[..4] == [1, 2, 3, 4];
  }
}
