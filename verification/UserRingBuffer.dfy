/** The ring as the driver stores it: one buffer and two cursors, updated in place. */
module UserRingBuffer {
  import opened AudioGeometry
  import opened Bytes
  import opened UserRing

  /** memcpy between distinct buffers. */
  method CopySpan(src: array<Byte>, from: nat, dst: array<Byte>, to: nat, n: nat)
    requires src != dst
    requires from + n <= src.Length && to + n <= dst.Length
    modifies dst
    ensures dst[..] == Splice(old(dst[..]), to, src[..][from..from + n])
  {
    for i := 0 to n
      invariant forall k | 0 <= k < dst.Length ::
                  dst[k] == if to <= k < to + i then src[from + k - to] else old(dst[k])
    {
      dst[to + i] := src[from + i];
    }
  }

  /** uiomove into the ring: the span [to, to + |data|) of the buffer. */
  method StoreSpan(dst: array<Byte>, to: nat, data: seq<Byte>)
    requires to + |data| <= dst.Length
    modifies dst
    ensures dst[..] == Splice(old(dst[..]), to, data)
  {
    for i := 0 to |data|
      invariant forall k | 0 <= k < dst.Length ::
                  dst[k] == if to <= k < to + i then data[k - to] else old(dst[k])
    {
      dst[to + i] := data[i];
    }
  }

  method FillZero(dst: array<Byte>, to: nat, n: nat)
    requires to + n <= dst.Length
    modifies dst
    ensures dst[..] == Splice(old(dst[..]), to, Zeros(n))
  {
    for i := 0 to n
      invariant forall k | 0 <= k < dst.Length ::
                  dst[k] == if to <= k < to + i then 0 else old(dst[k])
    {
      dst[to + i] := 0;
    }
  }

  /** `n` bytes of a ring buffer from index `at`, in reading order. */
  function Span(mem: seq<Byte>, at: nat, n: nat): seq<Byte>
    requires at < |mem| && n <= |mem|
  {
    if at + n <= |mem| then mem[at..at + n] else mem[at..] + mem[..n - (|mem| - at)]
  }

  /** The two-span copy out of the ring. */
  method CopyWrapped(src: array<Byte>, at: nat, dst: array<Byte>, to: nat, n: nat)
    requires src != dst && at < src.Length
    requires n <= src.Length && to + n <= dst.Length
    modifies dst
    ensures dst[..] == Splice(old(dst[..]), to, Span(src[..], at, n))
  {
    if at + n <= src.Length {
      CopySpan(src, at, dst, to, n);
    } else {
      var first := src.Length - at;
      CopySpan(src, at, dst, to, first);
      CopySpan(src, 0, dst, to + first, n - first);
      SpliceTwice(old(dst[..]), to, src[..][at..at + first], src[..][0..n - first]);
      assert Span(src[..], at, n) == src[..][at..at + first] + src[..][0..n - first];
    }
  }

  /** The readable bytes are one span of the buffer, or two when the run crosses the ring end. */
  lemma ReadableSpans(r: Ring, n: nat)
    requires r.Valid() && n <= |r.Contents()|
    ensures r.Contents()[..n] == Span(r.mem, Cell(r.tail), n)
  {
    forall i | 0 <= i < n
      ensures r.Contents()[i] == Span(r.mem, Cell(r.tail), n)[i]
    {
      CellAdd(r.tail, i);
    }
  }

  /** So are the cells a chunk is stored to. */
  lemma WritableSpans(mem: seq<Byte>, at: nat, data: seq<Byte>)
    requires |mem| == RING_BYTES && |data| <= RING_BYTES
    ensures var i := Cell(at);
            Poke(mem, at, data) ==
              if i + |data| <= RING_BYTES then Splice(mem, i, data)
              else var first := RING_BYTES - i; Splice(Splice(mem, i, data[..first]), 0, data[first..])
  {
  }

  lemma TakeMore(front: seq<Byte>, user: seq<Byte>, sent: nat, n: nat)
    requires sent + n <= |user|
    ensures front + user[..sent] + user[sent..][..n] == front + user[..sent + n]
  {
  }

  class RingBuffer {
    const mem: array<Byte>
    var head: nat
    var tail: nat

    ghost predicate Valid()
      reads this, mem
    {
      mem.Length == RING_BYTES && Abs().Valid()
    }

    ghost function Abs(): Ring
      reads this, mem
    {
      Ring(mem[..], head, tail)
    }

    constructor ()
      ensures Valid() && fresh(mem) && Abs().Contents() == []
    {
      mem := new Byte[RING_BYTES](_ => 0);
      head, tail := 0, 0;
    }

    /** Move the readable bytes a fragment takes into `dst`, and advance the tail. */
    method CopyOut(dst: array<Byte>, off: nat) returns (copied: nat)
      requires Valid() && dst != mem && off + FRAG_BYTES <= dst.Length
      modifies this`tail, dst
      ensures Valid() && copied == old(Abs().Take())
      ensures copied <= FRAG_BYTES && tail == old(tail) + copied && (copied == FRAG_BYTES || head == tail)
      ensures Abs() == old(Abs().Drain())
      ensures dst[..] == Splice(old(dst[..]), off, old(Abs().Contents())[..copied])
    {
      var available := head - tail;
      copied := if available > FRAG_BYTES then FRAG_BYTES else available;
      CopyFirst(dst, off, copied);
      tail := tail + copied;
    }

    method CopyFirst(dst: array<Byte>, off: nat, n: nat)
      requires Valid() && dst != mem && n <= head - tail && off + n <= dst.Length
      modifies dst
      ensures dst[..] == Splice(old(dst[..]), off, old(Abs().Contents())[..n])
    {
      ReadableSpans(Abs(), n);
      CellIsMask(tail);
      CopyWrapped(mem, tail % RING_BYTES, dst, off, n);
    }

    /** audiofs_refill_user_fragment: one fragment from the ring, silence for what is missing. */
    method RefillFragment(dst: array<Byte>, off: nat) returns (gapFrames: nat)
      requires Valid() && dst != mem && off + FRAG_BYTES <= dst.Length
      modifies this`tail, dst
      ensures Valid() && Abs() == old(Abs().Drain())
      ensures dst[..] == Splice(old(dst[..]), off, old(Abs().Fragment()))
      ensures 4 * gapFrames == FRAG_BYTES - (tail - old(tail))
      ensures gapFrames > 0 ==> head == tail
      ensures dst[off..off + FRAG_BYTES] == old(Abs().Contents())[..tail - old(tail)] + Zeros(4 * gapFrames)
    {
      var copied := CopyOut(dst, off);
      FillZero(dst, off + copied, FRAG_BYTES - copied);
      SpliceTwice(old(dst[..]), off, old(Abs().Contents())[..copied], Zeros(FRAG_BYTES - copied));
      gapFrames := (FRAG_BYTES - copied) / 4;
      assert dst[off..off + FRAG_BYTES] == dst[..][off..off + FRAG_BYTES] == old(Abs().Fragment());
    }

    /** The unlocked copy of one chunk: stored past the head, in one span or two; nothing is published. */
    method CopyIn(data: seq<Byte>)
      requires Valid() && |data| <= Abs().Space()
      modifies mem
      ensures mem[..] == old(Poke(mem[..], head, data))
    {
      CellIsMask(head);
      var at := head % RING_BYTES;
      WritableSpans(mem[..], head, data);
      if at + |data| <= RING_BYTES {
        StoreSpan(mem, at, data);
      } else {
        var first := RING_BYTES - at;
        StoreSpan(mem, at, data[..first]);
        StoreSpan(mem, 0, data[first..]);
      }
    }

    /** One reserve, copy, commit round of write(2): as much of `user` as fits, in whole frames. */
    method WriteChunk(user: seq<Byte>) returns (sent: nat)
      requires Valid()
      modifies this`head, mem
      ensures Valid() && tail == old(tail)
      ensures sent == old(Abs().Want(|user|)) && head == old(head) + sent
      ensures Abs().Contents() == old(Abs().Contents()) + user[..sent]
    {
      var space := RING_BYTES - (head - tail);
      sent := WholeFrames(if |user| > space then space else |user|);
      AppendAddsAtTheBack(Abs(), user[..sent]);
      CopyIn(user[..sent]);
      head := head + sent;
    }

    /** audiofs_cdev_write on a non-blocking descriptor, with no refill in between; `again` is EAGAIN. */
    method Write(user: seq<Byte>) returns (sent: nat, again: bool)
      requires Valid()
      modifies this`head, mem
      ensures Valid() && sent == old(Abs().Want(|user|))
      ensures again <==> |user| - sent >= 4
      ensures Abs().Contents() == old(Abs().Contents()) + user[..sent]
    {
      sent, again := 0, false;
      ghost var before := Abs();
      while |user| - sent >= 4
        invariant Valid() && tail == before.tail
        invariant sent <= |user| && head == before.head + sent && !again
        invariant Abs().Contents() == before.Contents() + user[..sent]
      {
        if RING_BYTES - (head - tail) < 4 {
          again := true;
          break;
        }
        var n := WriteChunk(user[sent..]);
        TakeMore(before.Contents(), user, sent, n);
        sent := sent + n;
      }
      WholeFramesBetween(before.head, head, Min(|user|, before.Space()));
    }
  }
}
