/** The slots of an event ring, and which slot a sequence number uses. */
module EventSlots {
  import opened Bytes

  /** A 64-byte slot is an 8-byte sequence number and 56 bytes of body. */
  const BODY: nat := 56

  type Body = b: seq<Byte> | |b| == BODY witness Zeros(BODY)

  datatype Slot = Slot(seqno: nat, body: Body)

  function EmptySlots(n: nat): seq<Slot> {
    seq(n, _ => Slot(0, Zeros(BODY)))
  }

  /** The slot of a sequence number: its remainder by the ring size. */
  function SlotOf(seqno: nat, n: nat): (k: nat)
    requires n > 0
    ensures k < n
  {
    if seqno < n then seqno else SlotOf(seqno - n, n)
  }

  /** For the two ring sizes this is the mask the drivers use. */
  lemma {:induction false} SlotIsMask(seqno: nat)
    ensures SlotOf(seqno, 1024) == seqno % 1024
    ensures SlotOf(seqno, 256) == seqno % 256
  {
    if seqno >= 1024 {
      SlotIsMask(seqno - 1024);
      assert SlotOf(seqno, 256) == SlotOf(seqno - 256, 256) == SlotOf(seqno - 512, 256)
          == SlotOf(seqno - 768, 256) == SlotOf(seqno - 1024, 256);
    } else if seqno >= 256 {
      SlotIsMask(seqno - 256);
    }
  }

  /** Two numbers less than one lap apart share a slot only if they are equal. */
  lemma {:induction false} SameSlotSameEvent(a: nat, b: nat, n: nat)
    requires n > 0 && SlotOf(a, n) == SlotOf(b, n)
    requires a <= b < a + n
    ensures a == b
    decreases a
  {
    if a >= n {
      SameSlotSameEvent(a - n, b - n, n);
    }
  }
}
