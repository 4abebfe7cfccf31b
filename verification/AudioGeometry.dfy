/** The sizes of the audio path: one 32 KiB byte ring in front of four 4 KiB DMA fragments. */
module AudioGeometry {

  const RING_BYTES: nat := 32768
  const FRAG_BYTES: nat := 4096
  const FRAGS: nat := 4
  const BUF_BYTES: nat := 16384
  const FRAG_FRAMES: nat := 1024

  /** A byte offset into the cyclic DMA buffer. */
  type Offset = n: nat | n < BUF_BYTES

  /** The LPIB register (section 3.3.37 of HDA 1.0a): bytes into the cyclic buffer. */
  function Lpib(pos: nat): Offset {
    pos % BUF_BYTES
  }

  /** How far a fragment cursor is behind the fragment being played, going round the buffer. */
  function Turns(next: nat, curr: nat): nat
    requires next < FRAGS && curr < FRAGS
  {
    if next <= curr then curr - next else curr + FRAGS - next
  }

  lemma CursorAdvances(next: nat, curr: nat)
    requires next < FRAGS && curr < FRAGS && next != curr
    ensures Turns((next + 1) % FRAGS, curr) == Turns(next, curr) - 1
  {
  }

  /** The cell of the byte ring that a cursor names: its remainder by the ring size. */
  function Cell(cursor: nat): (c: nat)
    ensures c < RING_BYTES
  {
    if cursor < RING_BYTES then cursor else Cell(cursor - RING_BYTES)
  }

  /** This is the mask the driver uses. */
  lemma {:induction false} CellIsMask(cursor: nat)
    ensures Cell(cursor) == cursor % RING_BYTES
  {
    if cursor >= RING_BYTES {
      CellIsMask(cursor - RING_BYTES);
    }
  }

  /** Moving on by at most a lap wraps at most once. */
  lemma {:induction false} CellAdd(cursor: nat, k: nat)
    requires k <= RING_BYTES
    ensures Cell(cursor + k) == if Cell(cursor) + k < RING_BYTES then Cell(cursor) + k else Cell(cursor) + k - RING_BYTES
    decreases cursor
  {
    if cursor >= RING_BYTES {
      CellAdd(cursor - RING_BYTES, k);
    }
  }

  /** Cursors less than one lap apart name different cells. */
  lemma DistinctCells(a: nat, b: nat)
    requires a < b < a + RING_BYTES
    ensures Cell(a) != Cell(b)
  {
    CellAdd(a, b - a);
  }

  /** `n` bytes rounded down to whole 4-byte stereo frames. */
  function WholeFrames(n: nat): (m: nat)
    ensures m <= n < m + 4 && m % 4 == 0
  {
    n / 4 * 4
  }

  lemma WholeFramesBetween(from: nat, to: nat, n: nat)
    requires from % 4 == 0 && to % 4 == 0
    requires from <= to && to - from <= n < to - from + 4
    ensures to - from == WholeFrames(n)
  {
  }
}
