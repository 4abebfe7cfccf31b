/**
 The connection list of an HDA widget (section 7.1.2 of the High Definition Audio
 specification 1.0a). Each response packs four 8-bit or two 16-bit entries; the top bit of
 an entry makes it the end of a range that starts after the previous entry.
 */
module HdaConns {

  const CONN_MAX: nat := 16
  const HDA_INVALID: nat := 0xFFFF_FFFF

  datatype Entry = Entry(nid: nat, range: bool)

  // ------------------------------------------------------------------------------------
  // The packed form.
  // ------------------------------------------------------------------------------------

  function PerResponse(long: bool): nat {
    if long then 2 else 4
  }

  function Pow2(n: nat): (p: nat)
    ensures p > 0
  {
    if n == 0 then 1 else 2 * Pow2(n - 1)
  }

  /** Entry `j` of a response, by the driver's shifts and masks. */
  function Slot(long: bool, res: nat, j: nat): Entry
    requires j < PerResponse(long)
  {
    var width := 32 / PerResponse(long);
    var shift := width * j;
    Entry(res / Pow2(shift) % Pow2(width - 1), res / Pow2(shift + width - 1) % 2 == 1)
  }

  function Slots(long: bool, res: nat): seq<Entry> {
    seq(PerResponse(long), j requires 0 <= j < PerResponse(long) => Slot(long, res, j))
  }

  /** What the hardware sends for an entry. */
  function Field(long: bool, e: Entry): nat {
    e.nid + if e.range then Half(long) else 0
  }

  predicate Packable(long: bool, e: Entry) {
    e.nid < Half(long)
  }

  function PackLong(a: Entry, b: Entry): nat {
    Field(true, a) + 0x1_0000 * Field(true, b)
  }

  function PackShort(a: Entry, b: Entry, c: Entry, d: Entry): nat {
    Field(false, a) + 0x100 * Field(false, b) + 0x1_0000 * Field(false, c) + 0x100_0000 * Field(false, d)
  }

  lemma Powers()
    ensures Pow2(0) == 1 && Pow2(7) == 0x80 && Pow2(8) == 0x100 && Pow2(15) == 0x8000 && Pow2(16) == 0x1_0000
    ensures Pow2(23) == 0x80_0000 && Pow2(24) == 0x100_0000 && Pow2(31) == 0x8000_0000
  {
    assert Pow2(3) == 8;
    assert Pow2(7) == 0x80;
    assert Pow2(11) == 0x800;
    assert Pow2(15) == 0x8000;
    assert Pow2(19) == 0x8_0000;
    assert Pow2(23) == 0x80_0000;
    assert Pow2(27) == 0x800_0000;
  }

  function Half(long: bool): nat {
    if long then 0x8000 else 0x80
  }

  lemma WidthPowers(long: bool)
    ensures var width := 32 / PerResponse(long); Pow2(width - 1) == Half(long) && Pow2(width) == 2 * Half(long)
  {
    Powers();
  }

  lemma FieldSplits(half: nat, nid: nat, top: nat, high: nat)
    requires nid < half && top < 2
    ensures (nid + half * top + 2 * half * high) % half == nid
    ensures (nid + half * top + 2 * half * high) / half % 2 == top
  {
    assert nid + half * top + 2 * half * high == nid + half * (top + 2 * high);
    DropLow(nid, half, top + 2 * high);
    DropLow(top, 2, high);
  }

  /** Entry `j` is recovered from a word that holds its field above `low` and below `high`. */
  lemma SlotReadsField(long: bool, res: nat, j: nat, at: nat, low: nat, e: Entry, high: nat)
    requires j < PerResponse(long) && Packable(long, e) && at == Pow2(32 / PerResponse(long) * j)
    requires low < at && res == low + at * (Field(long, e) + 2 * Half(long) * high)
    ensures Slot(long, res, j) == e
  {
    var width, top := 32 / PerResponse(long), if e.range then 1 else 0;
    WidthPowers(long);
    FieldSplits(Half(long), e.nid, top, high);
    DropLow(low, at, Field(long, e) + 2 * Half(long) * high);
    PowSplit(width * j, width - 1);
    DivTwice(res, Pow2(width * j), Pow2(width - 1));
  }

  lemma DropLow(low: nat, m: nat, x: nat)
    requires low < m
    ensures (low + m * x) / m == x
  {
    var q := (low + m * x) / m;
    assert m * (q - x) == low - (low + m * x) % m;
    if q > x { MulMonotone(m, q - x); }
    if q < x { MulMonotone(m, x - q); }
  }

  lemma MulMonotone(m: nat, k: nat)
    requires k >= 1
    ensures m * k >= m
  {
    assert m * k == m * (k - 1) + m;
  }

  lemma DivTwice(x: nat, a: nat, b: nat)
    requires a > 0 && b > 0
    ensures a * b > 0 && x / (a * b) == x / a / b
  {
    var q, r := x / a, x % a;
    var q2, r2 := q / b, q % b;
    assert x == a * q + r && q == b * q2 + r2;
    assert x == (a * r2 + r) + a * b * q2;
    assert a * r2 + r < a * b by {
      assert a * b == a * r2 + a * (b - r2);
      MulMonotone(a, b - r2);
    }
    DropLow(a * r2 + r, a * b, q2);
  }

  lemma {:induction false} PowSplit(m: nat, n: nat)
    ensures Pow2(m + n) == Pow2(m) * Pow2(n)
    decreases n
  {
    if n > 0 {
      PowSplit(m, n - 1);
      assert m + n - 1 == m + (n - 1);
    }
  }

  /** A long entry with `at` standing for its bit position. */
  lemma LongSlot(res: nat, j: nat, at: nat, low: nat, e: Entry, high: nat)
    requires (j, at) in {(0, 1), (1, 0x1_0000)} && Packable(true, e)
    requires low < at && res == low + at * (Field(true, e) + 0x1_0000 * high)
    ensures Slot(true, res, j) == e
  {
    Powers();
    SlotReadsField(true, res, j, at, low, e, high);
  }

  /** The shifts and masks recover two packed long entries. */
  lemma LongSlotsRoundTrip(a: Entry, b: Entry)
    requires Packable(true, a) && Packable(true, b)
    ensures Slots(true, PackLong(a, b)) == [a, b]
  {
    var res := PackLong(a, b);
    LongSlot(res, 0, 1, 0, a, Field(true, b));
    LongSlot(res, 1, 0x1_0000, Field(true, a), b, 0);
  }

  /** A short entry with `at` standing for its bit position. */
  lemma ShortSlot(res: nat, j: nat, at: nat, low: nat, e: Entry, high: nat)
    requires (j, at) in {(0, 1), (1, 0x100), (2, 0x1_0000), (3, 0x100_0000)} && Packable(false, e)
    requires low < at && res == low + at * (Field(false, e) + 0x100 * high)
    ensures Slot(false, res, j) == e
  {
    Powers();
    SlotReadsField(false, res, j, at, low, e, high);
  }

  /** The shifts and masks recover four packed short entries. */
  lemma ShortSlotsRoundTrip(a: Entry, b: Entry, c: Entry, d: Entry)
    requires Packable(false, a) && Packable(false, b) && Packable(false, c) && Packable(false, d)
    ensures Slots(false, PackShort(a, b, c, d)) == [a, b, c, d]
  {
    var res := PackShort(a, b, c, d);
    var fa, fb, fc, fd := Field(false, a), Field(false, b), Field(false, c), Field(false, d);
    ShortSlot(res, 0, 1, 0, a, fb + 0x100 * fc + 0x1_0000 * fd);
    ShortSlot(res, 1, 0x100, fa, b, fc + 0x100 * fd);
    ShortSlot(res, 2, 0x1_0000, fa + 0x100 * fb, c, fd);
    ShortSlot(res, 3, 0x100_0000, fa + 0x100 * fb + 0x1_0000 * fc, d, 0);
  }

  /** All entries fetched, in order, up to a response that timed out. */
  function AllSlots(long: bool, responses: seq<nat>): seq<Entry> {
    if responses == [] || responses[0] == HDA_INVALID then []
    else Slots(long, responses[0]) + AllSlots(long, responses[1..])
  }

  // ------------------------------------------------------------------------------------
  // The expansion.
  // ------------------------------------------------------------------------------------

  /** The first node an entry stands for, given the entry before it. A range that cannot be one is a single node. */
  function FirstNid(e: Entry, prev: nat): nat {
    if !e.range || prev == 0 || prev >= e.nid then e.nid else prev + 1
  }

  function Span(lo: nat, hi: nat): seq<nat>
    requires lo <= hi + 1
  {
    seq(hi + 1 - lo, k => lo + k)
  }

  function Expand(entries: seq<Entry>, prev: nat): seq<nat> {
    if entries == [] || entries[0].nid == 0 then []
    else Span(FirstNid(entries[0], prev), entries[0].nid) + Expand(entries[1..], entries[0].nid)
  }

  function Prev(entries: seq<Entry>, prev: nat, k: nat): nat
    requires k < |entries|
  {
    if k == 0 then prev else entries[k - 1].nid
  }

  /** `n` is a node of entry `k`, which comes before any zero entry. */
  predicate Names(entries: seq<Entry>, prev: nat, k: nat, n: nat) {
    && k < |entries|
    && (forall l | 0 <= l <= k :: entries[l].nid != 0)
    && (n == entries[k].nid
        || (entries[k].range && Prev(entries, prev, k) != 0 && Prev(entries, prev, k) < n < entries[k].nid))
  }

  /** A node is in the expansion exactly when some entry before the first zero names it, alone or within its range. */
  lemma {:induction false} ExpansionMembers(entries: seq<Entry>, prev: nat, n: nat)
    ensures n in Expand(entries, prev) <==> exists k :: Names(entries, prev, k, n)
    decreases |entries|
  {
    if entries == [] || entries[0].nid == 0 {
      assert forall k :: !Names(entries, prev, k, n);
      return;
    }
    var rest, nid := entries[1..], entries[0].nid;
    ExpansionMembers(rest, nid, n);
    SpanMembers(FirstNid(entries[0], prev), nid, n);
    assert Names(entries, prev, 0, n) <==> FirstNid(entries[0], prev) <= n <= nid;
    if k: nat :| Names(rest, nid, k, n) {
      assert Prev(entries, prev, k + 1) == Prev(rest, nid, k);
      assert forall l | 0 < l <= k + 1 :: entries[l] == rest[l - 1];
      assert Names(entries, prev, k + 1, n);
    }
    if k: nat :| Names(entries, prev, k, n) && k > 0 {
      assert Prev(rest, nid, k - 1) == Prev(entries, prev, k);
      assert forall l | 0 <= l <= k - 1 :: rest[l] == entries[l + 1];
      assert Names(rest, nid, k - 1, n);
    }
  }

  lemma SpanMembers(lo: nat, hi: nat, n: nat)
    requires lo <= hi + 1
    ensures n in Span(lo, hi) <==> lo <= n <= hi
  {
    if lo <= n <= hi {
      assert Span(lo, hi)[n - lo] == n;
    }
  }

  /** The loop reads whole responses. Entries past the announced length are harmless exactly when a zero stops it first. */
  lemma {:induction false} PaddingIsHarmlessIff(entries: seq<Entry>, ents: nat, prev: nat)
    requires ents <= |entries|
    ensures Expand(entries, prev) == Expand(entries[..ents], prev)
            <==> (ents == |entries| || exists k :: 0 <= k <= ents && entries[k].nid == 0)
    decreases |entries|
  {
    if ents == |entries| {
      assert entries[..ents] == entries;
    } else if entries[0].nid == 0 {
    } else if ents == 0 {
      assert Expand(entries, prev) != [];
    } else {
      var rest, nid := entries[1..], entries[0].nid;
      PaddingIsHarmlessIff(rest, ents - 1, nid);
      assert entries[..ents][1..] == rest[..ents - 1];
      var span := Span(FirstNid(entries[0], prev), nid);
      SamePrefix(span, Expand(rest, nid), Expand(rest[..ents - 1], nid));
      if k :| 0 <= k <= ents && entries[k].nid == 0 {
        assert rest[k - 1].nid == 0;
      }
      if k :| 0 <= k <= ents - 1 && rest[k].nid == 0 {
        assert entries[k + 1].nid == 0;
      }
    }
  }

  /** A list of announced length one in short form whose response holds four entries: all four are taken. */
  lemma UnpaddedResponseIsTakenWhole()
    ensures AllSlots(false, [0x0403_0201]) == [Entry(1, false), Entry(2, false), Entry(3, false), Entry(4, false)]
    ensures Expand(AllSlots(false, [0x0403_0201]), 0) != Expand(AllSlots(false, [0x0403_0201])[..1], 0)
  {
    var a, b, c, d := Entry(1, false), Entry(2, false), Entry(3, false), Entry(4, false);
    assert PackShort(a, b, c, d) == 0x0403_0201;
    ShortSlotsRoundTrip(a, b, c, d);
    assert [0x0403_0201][1..] == [];
    PaddingIsHarmlessIff([a, b, c, d], 1, 0);
  }

  lemma SamePrefix(a: seq<nat>, b: seq<nat>, c: seq<nat>)
    ensures a + b == a + c <==> b == c
  {
    if a + b == a + c {
      assert b == (a + b)[|a|..] == (a + c)[|a|..] == c;
    }
  }

  // ------------------------------------------------------------------------------------
  // The driver's loops.
  // ------------------------------------------------------------------------------------

  function Take(s: seq<nat>): seq<nat> {
    if |s| <= CONN_MAX then s else s[..CONN_MAX]
  }

  /** So far everything fits, and what is left to read completes the target. */
  predicate OnTrack(conns: seq<nat>, overflow: bool, rest: seq<Entry>, prev: nat, target: seq<nat>) {
    |conns| <= CONN_MAX && !overflow && target == conns + Expand(rest, prev)
  }

  /** The table holds what it can of the target, and says whether that is all. */
  predicate Read(conns: seq<nat>, overflow: bool, target: seq<nat>) {
    conns == Take(target) && (overflow <==> |target| > CONN_MAX)
  }

  /** The entries a widget's responses stand for. */
  function Fetched(hasList: bool, lengthRes: nat, responses: seq<nat>): seq<Entry> {
    if !hasList || lengthRes == HDA_INVALID then [] else AllSlots(LongForm(lengthRes), responses)
  }

  function Ents(lengthRes: nat): nat { lengthRes % 0x80 }

  predicate LongForm(lengthRes: nat) { lengthRes / 0x80 % 2 == 1 }

  /** How many responses are asked for. */
  function Fetches(lengthRes: nat): nat {
    (Ents(lengthRes) + PerResponse(LongForm(lengthRes)) - 1) / PerResponse(LongForm(lengthRes))
  }

  /** The length response: the count in the low seven bits, the long form in the eighth, whatever stands above. */
  lemma LengthResponseDecodes(ents: nat, long: bool, above: nat)
    requires ents < 0x80
    ensures var res := ents + (if long then 0x80 else 0) + 0x100 * above; Ents(res) == ents && (LongForm(res) <==> long)
  {
    DropLow(ents, 0x80, (if long then 1 else 0) + 2 * above);
    DropLow(if long then 1 else 0, 2, above);
  }

  class Widget {
    const conns: array<nat>
    var nconns: nat
    var overflow: bool

    ghost predicate Valid()
      reads this
    {
      conns.Length == CONN_MAX && nconns <= CONN_MAX
    }

    ghost function Contents(): seq<nat>
      requires Valid()
      reads this, conns
    {
      conns[..nconns]
    }

    constructor ()
      ensures Valid() && Contents() == [] && !overflow && fresh(conns)
    {
      conns := new nat[CONN_MAX];
      nconns, overflow := 0, false;
    }

    /** The inner while loop: append the nodes `lo` to `hi`, stopping at a full table. */
    method AddSpan(lo: nat, hi: nat) returns (full: bool)
      requires Valid() && !overflow && lo <= hi + 1
      modifies this, conns
      ensures Valid() && Read(Contents(), overflow, old(Contents()) + Span(lo, hi)) && full == overflow
    {
      ghost var was, span := Contents(), Span(lo, hi);
      var nid := lo;
      while nid <= hi
        invariant lo <= nid <= hi + 1 && Valid() && !overflow
        invariant Contents() == was + span[..nid - lo]
      {
        if nconns >= CONN_MAX {
          overflow := true;
          assert (was + span)[..CONN_MAX] == was + span[..nid - lo];
          return true;
        }
        conns[nconns] := nid;
        nconns := nconns + 1;
        assert span[..nid + 1 - lo] == span[..nid - lo] + [nid];
        nid := nid + 1;
      }
      assert span[..hi + 1 - lo] == span;
      return false;
    }

    /** One entry: `stop` at a zero entry or a full table. */
    method AddEntry(e: Entry, prev: nat, ghost rest: seq<Entry>, ghost target: seq<nat>) returns (stop: bool)
      requires Valid() && OnTrack(Contents(), overflow, [e] + rest, prev, target)
      modifies this, conns
      ensures Valid()
      ensures stop ==> Read(Contents(), overflow, target)
      ensures !stop ==> OnTrack(Contents(), overflow, rest, e.nid, target)
    {
      if e.nid == 0 {
        return true;
      }
      ghost var was, tail := Contents(), Expand(rest, e.nid);
      var lo := if !e.range then e.nid else if prev == 0 || prev >= e.nid then e.nid else prev + 1;
      assert ([e] + rest)[1..] == rest;
      stop := AddSpan(lo, e.nid);
      ghost var added := was + Span(lo, e.nid);
      assert target == added + tail;
      assert stop ==> target[..CONN_MAX] == added[..CONN_MAX];
    }

    /** The entries of one response. */
    method AddResponse(long: bool, res: nat, prev0: nat, ghost rest: seq<Entry>, ghost target: seq<nat>)
      returns (stop: bool, prev: nat)
      requires Valid() && OnTrack(Contents(), overflow, Slots(long, res) + rest, prev0, target)
      modifies this, conns
      ensures Valid()
      ensures stop ==> Read(Contents(), overflow, target)
      ensures !stop ==> OnTrack(Contents(), overflow, rest, prev, target)
    {
      prev := prev0;
      ghost var slots := Slots(long, res);
      var j := 0;
      assert slots[0..] == slots;
      while j < PerResponse(long)
        invariant j <= PerResponse(long) && Valid()
        invariant OnTrack(Contents(), overflow, slots[j..] + rest, prev, target)
      {
        var e := Slot(long, res, j);
        assert slots[j..] + rest == [e] + (slots[j + 1..] + rest);
        stop := AddEntry(e, prev, slots[j + 1..] + rest, target);
        if stop {
          return;
        }
        prev := e.nid;
        j := j + 1;
      }
      assert slots[j..] + rest == rest;
      stop := false;
    }

    /** audiofs_widget_read_conns. `lengthRes` and `responses` are what the codec answers. */
    method ReadConns(hasList: bool, lengthRes: nat, responses: seq<nat>)
      requires Valid() && |responses| == Fetches(lengthRes)
      modifies this, conns
      ensures Valid()
      ensures Read(Contents(), overflow, Expand(Fetched(hasList, lengthRes, responses), 0))
      ensures overflow <==> |Expand(Fetched(hasList, lengthRes, responses), 0)| > 16
    {
      nconns, overflow := 0, false;
      if !hasList || lengthRes == HDA_INVALID {
        return;
      }
      var long := LongForm(lengthRes);
      var n := 0;
      var prev, stop := 0, false;
      ghost var target := Expand(AllSlots(long, responses), 0);
      while n * PerResponse(long) < Ents(lengthRes)
        invariant n <= |responses| && Valid()
        invariant OnTrack(Contents(), overflow, AllSlots(long, responses[n..]), prev, target)
      {
        if responses[n] == HDA_INVALID {
          return;
        }
        assert responses[n..][1..] == responses[n + 1..];
        stop, prev := AddResponse(long, responses[n], prev, AllSlots(long, responses[n + 1..]), target);
        if stop {
          return;
        }
        n := n + 1;
      }
    }
  }
}
