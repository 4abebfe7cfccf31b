/**
 The outbound event queue of a drawfs session: bounded in bytes, first in first out, with
 SURFACE_PRESENTED events coalesced in place by rewriting the cookie bytes of the one that
 is already queued. Events are the built frames themselves.
 */
module EventQueue {
  import opened Bytes
  import opened Wire

  const EVT_PRESENTED: nat := 0x9002
  const MAX_EVENT_BYTES: nat := 65536
  const PRESENTED_BYTES: nat := 48
  const KIND_AT: nat := 16
  const SURFACE_AT: nat := 32
  const COOKIE_AT: nat := 40
  const U64: nat := 0x1_0000_0000_0000_0000

  type Event = seq<Byte>

  // ------------------------------------------------------------------------------------
  // PRESENTED events at the byte level.
  // ------------------------------------------------------------------------------------

  predicate IsPresented(e: Event) {
    |e| >= PRESENTED_BYTES && Get16(e, KIND_AT) == EVT_PRESENTED
  }

  predicate Presents(e: Event, surface: nat) {
    IsPresented(e) && Get32(e, SURFACE_AT) == surface
  }

  function Le64(n: nat): (b: seq<Byte>)
    requires n < U64
    ensures |b| == 8
  {
    Le32(n % U32) + Le32(n / U32)
  }

  function CookieOf(e: Event): nat
    requires |e| >= PRESENTED_BYTES
  {
    Get32(e, COOKIE_AT) + U32 * Get32(e, COOKIE_AT + 4)
  }

  function SetCookie(e: Event, cookie: nat): Event
    requires |e| >= PRESENTED_BYTES && cookie < U64
  {
    Splice(e, COOKIE_AT, Le64(cookie))
  }

  /** An event with its cookie masked out: what coalescing leaves alone. */
  function Erase(e: Event): Event {
    if IsPresented(e) then Splice(e, COOKIE_AT, Zeros(8)) else e
  }

  function EraseAll(s: seq<Event>): seq<Event> {
    seq(|s|, i requires 0 <= i < |s| => Erase(s[i]))
  }

  lemma SetCookieIsLocal(e: Event, cookie: nat)
    requires IsPresented(e) && cookie < U64
    ensures IsPresented(SetCookie(e, cookie)) && |SetCookie(e, cookie)| == |e|
    ensures Get32(SetCookie(e, cookie), SURFACE_AT) == Get32(e, SURFACE_AT)
    ensures Erase(SetCookie(e, cookie)) == Erase(e)
  {
    assert SetCookie(e, cookie)[KIND_AT] == e[KIND_AT] && SetCookie(e, cookie)[KIND_AT + 1] == e[KIND_AT + 1];
  }

  lemma CookieReadsBack(e: Event, cookie: nat)
    requires |e| >= PRESENTED_BYTES && cookie < U64
    ensures CookieOf(SetCookie(e, cookie)) == cookie
  {
    var f := SetCookie(e, cookie);
    assert f[COOKIE_AT..COOKIE_AT + 4] == Le64(cookie)[..4] == Le32(cookie % U32);
    assert f[COOKIE_AT + 4..COOKIE_AT + 8] == Le64(cookie)[4..] == Le32(cookie / U32);
    Get32Field(f, COOKIE_AT, cookie % U32);
    Get32Field(f, COOKIE_AT + 4, cookie / U32);
  }

  predicate Announceable(frameId: nat, surface: nat, cookie: nat) {
    frameId < U32 && surface < U32 && cookie < U64
  }

  /** The PRESENTED event frame for a surface. */
  function Announce(frameId: nat, surface: nat, cookie: nat): Event
    requires Announceable(frameId, surface, cookie)
  {
    Build(frameId, EVT_PRESENTED, 0, Le32(surface) + Le32(0) + Le64(cookie))
  }

  /** The offsets the coalescer reads are where the builder put the fields. */
  lemma AnnounceIsRecognised(frameId: nat, surface: nat, cookie: nat)
    requires Announceable(frameId, surface, cookie)
    ensures var e := Announce(frameId, surface, cookie);
            && |e| == PRESENTED_BYTES && Presents(e, surface) && CookieOf(e) == cookie
            && Get32(e, 40) == cookie % U32 && Get32(e, 44) == cookie / U32
  {
    var payload := Le32(surface) + Le32(0) + Le64(cookie);
    var e := Announce(frameId, surface, cookie);
    BuildHoldsMessage(frameId, EVT_PRESENTED, 0, payload);
    assert GetMsgHdr(e, KIND_AT).msgType == EVT_PRESENTED;
    assert e[SURFACE_AT..SURFACE_AT + 16] == payload;
    assert e[SURFACE_AT..SURFACE_AT + 4] == e[SURFACE_AT..SURFACE_AT + 16][..4] == Le32(surface);
    assert e[COOKIE_AT..COOKIE_AT + 4] == e[SURFACE_AT..SURFACE_AT + 16][8..12] == Le32(cookie % U32);
    assert e[COOKIE_AT + 4..COOKIE_AT + 8] == e[SURFACE_AT..SURFACE_AT + 16][12..16] == Le32(cookie / U32);
    Get32Field(e, SURFACE_AT, surface);
    Get32Field(e, COOKIE_AT, cookie % U32);
    Get32Field(e, COOKIE_AT + 4, cookie / U32);
  }

  // ------------------------------------------------------------------------------------
  // The queue.
  // ------------------------------------------------------------------------------------

  /** An event offered to the queue: the bytes queued and the closing flag at that moment, and whether it was taken. */
  datatype Offer = Offer(e: Event, queued: nat, closed: bool, taken: bool)

  /** `accepted`, `refused`, `dequeued` and `offers` record the history, `acked` the last acknowledged present of each surface. */
  datatype Queue = Queue(evq: seq<Event>, evqBytes: nat, limit: nat, closing: bool, eventsEnqueued: nat,
                         eventsDropped: nat, bytesOut: nat, accepted: seq<Event>, refused: seq<Event>,
                         dequeued: seq<Event>, acked: map<nat, nat>, offers: seq<Offer>)

  function Fresh(limit: nat): Queue {
    Queue([], 0, limit, false, 0, 0, 0, [], [], [], map[], [])
  }

  datatype Outcome = Sent | TooBig | NoSpace | Gone

  function Offered(q: Queue, e: Event, taken: bool): seq<Offer> {
    q.offers + [Offer(e, Total(q.evq), q.closing, taken)]
  }

  function Drop(q: Queue, e: Event): Queue {
    q.(eventsDropped := q.eventsDropped + 1, refused := q.refused + [e], offers := Offered(q, e, false))
  }

  function Enqueue(q: Queue, e: Event): (Queue, Outcome) {
    if |e| == 0 then (q, Sent)
    else if |e| > MAX_EVENT_BYTES then (q.(refused := q.refused + [e], offers := Offered(q, e, false)), TooBig)
    else if q.evqBytes + |e| > q.limit then (Drop(q, e), NoSpace)
    else if q.closing then (Drop(q, e), Gone)
    else (q.(evq := q.evq + [e], evqBytes := q.evqBytes + |e|, eventsEnqueued := q.eventsEnqueued + 1,
             bytesOut := q.bytesOut + |e|, accepted := q.accepted + [e], offers := Offered(q, e, true)), Sent)
  }

  function FirstPresents(evq: seq<Event>, surface: nat, from: nat): (i: nat)
    requires from <= |evq|
    ensures from <= i <= |evq|
    ensures i < |evq| ==> Presents(evq[i], surface)
    ensures forall k | from <= k < i :: !Presents(evq[k], surface)
    decreases |evq| - from
  {
    if from == |evq| || Presents(evq[from], surface) then from else FirstPresents(evq, surface, from + 1)
  }

  /** Coalesce into the queued event of the same surface, or queue a new one. */
  function Notify(q: Queue, frameId: nat, surface: nat, cookie: nat): Queue
    requires Announceable(frameId, surface, cookie)
  {
    var i := FirstPresents(q.evq, surface, 0);
    if i < |q.evq| then q.(evq := q.evq[i := SetCookie(q.evq[i], cookie)])
    else Enqueue(q, Announce(frameId, surface, cookie)).0
  }

  /** SURFACE_PRESENT: the reply first; only a delivered reply counts and is followed by the event. */
  function Present(q: Queue, reply: Event, frameId: nat, surface: nat, cookie: nat): Queue
    requires Announceable(frameId, surface, cookie)
  {
    var (r, outcome) := Enqueue(q, reply);
    if !outcome.Sent? then r
    else Notify(r.(acked := r.acked[surface := cookie]), frameId, surface, cookie)
  }

  function Dequeue(q: Queue): Queue
    requires q.evq != []
  {
    q.(evq := q.evq[1..], evqBytes := if q.evqBytes >= |q.evq[0]| then q.evqBytes - |q.evq[0]| else 0,
       dequeued := q.dequeued + [q.evq[0]])
  }

  datatype Op =
    | Reply(e: Event)
    | PresentSurface(reply: Event, frameId: nat, surface: nat, cookie: nat)
    | Read
    | Close

  predicate Possible(q: Queue, op: Op) {
    match op
    case Reply(e) => !IsPresented(e)
    case PresentSurface(reply, frameId, surface, cookie) =>
      !IsPresented(reply) && reply != [] && Announceable(frameId, surface, cookie)
    case Read => q.evq != [] && !q.closing
    case Close => true
  }

  function Apply(q: Queue, op: Op): Queue
    requires Possible(q, op)
  {
    match op
    case Reply(e) => Enqueue(q, e).0
    case PresentSurface(reply, frameId, surface, cookie) => Present(q, reply, frameId, surface, cookie)
    case Read => Dequeue(q)
    case Close => q.(closing := true)
  }

  // ------------------------------------------------------------------------------------
  // What every operation keeps.
  // ------------------------------------------------------------------------------------

  function Total(s: seq<Event>): nat {
    if s == [] then 0 else Total(s[..|s| - 1]) + |s[|s| - 1]|
  }

  lemma TotalSnoc(s: seq<Event>, e: Event)
    ensures Total(s + [e]) == Total(s) + |e|
  {
    assert (s + [e])[..|s|] == s;
  }

  lemma {:induction false} TotalCons(s: seq<Event>)
    requires s != []
    ensures Total(s) == |s[0]| + Total(s[1..])
    decreases |s|
  {
    if |s| > 1 {
      var front, last := s[..|s| - 1], s[|s| - 1];
      TotalCons(front);
      assert s[1..] == front[1..] + [last];
      TotalSnoc(front[1..], last);
    } else {
      assert s[..0] == [] && s[1..] == [];
    }
  }

  lemma {:induction false} TotalSameLengths(s: seq<Event>, t: seq<Event>)
    requires |s| == |t| && forall i | 0 <= i < |s| :: |s[i]| == |t[i]|
    ensures Total(s) == Total(t)
    decreases |s|
  {
    if s != [] {
      TotalSameLengths(s[..|s| - 1], t[..|t| - 1]);
    }
  }

  /** How many events are within the size limit of a single event. */
  function Fitting(s: seq<Event>): nat {
    if s == [] then 0
    else Fitting(s[..|s| - 1]) + if |s[|s| - 1]| <= MAX_EVENT_BYTES then 1 else 0
  }

  lemma FittingSnoc(s: seq<Event>, e: Event)
    ensures Fitting(s + [e]) == Fitting(s) + if |e| <= MAX_EVENT_BYTES then 1 else 0
  {
    assert (s + [e])[..|s|] == s;
  }

  /** `Fitting` misses something exactly when some event is oversized. */
  lemma {:induction false} FittingIsAllIff(s: seq<Event>)
    ensures Fitting(s) <= |s|
    ensures Fitting(s) == |s| <==> forall i | 0 <= i < |s| :: |s[i]| <= MAX_EVENT_BYTES
    decreases |s|
  {
    if s != [] {
      FittingIsAllIff(s[..|s| - 1]);
      assert forall i | 0 <= i < |s| - 1 :: s[i] == s[..|s| - 1][i];
    }
  }

  predicate DropsCounted(q: Queue) {
    q.eventsDropped == Fitting(q.refused)
  }

  /** The counters agree with the contents. */
  predicate Counted(q: Queue) {
    && q.evqBytes == Total(q.evq) <= q.limit
    && q.bytesOut == Total(q.dequeued) + q.evqBytes
    && q.eventsEnqueued == |q.accepted|
    && DropsCounted(q)
  }

  /** First in, first out, up to cookie updates. */
  predicate Ordered(q: Queue) {
    EraseAll(q.dequeued) + EraseAll(q.evq) == EraseAll(q.accepted)
  }

  /** At most one PRESENTED event per surface is queued, with the cookie last acknowledged. */
  ghost predicate Coalesced(q: Queue) {
    && (forall i, j | 0 <= i < j < |q.evq| && IsPresented(q.evq[i]) && IsPresented(q.evq[j]) ::
          Get32(q.evq[i], SURFACE_AT) != Get32(q.evq[j], SURFACE_AT))
    && (forall i | 0 <= i < |q.evq| && IsPresented(q.evq[i]) ::
          var surface := Get32(q.evq[i], SURFACE_AT);
          surface in q.acked && q.acked[surface] == CookieOf(q.evq[i]))
  }

  /** The offers that were taken, or that were not, in order. */
  function Picked(offers: seq<Offer>, taken: bool): seq<Event> {
    if offers == [] then []
    else Picked(offers[..|offers| - 1], taken) + if offers[|offers| - 1].taken == taken then [offers[|offers| - 1].e] else []
  }

  /** An offer is taken exactly if it fits, by itself and on top of what is queued, and the session is not closing. */
  predicate Just(o: Offer, limit: nat) {
    o.taken <==> |o.e| <= MAX_EVENT_BYTES && o.queued + |o.e| <= limit && !o.closed
  }

  predicate Judged(q: Queue) {
    && (forall i | 0 <= i < |q.offers| :: Just(q.offers[i], q.limit))
    && q.accepted == Picked(q.offers, true) && q.refused == Picked(q.offers, false)
  }

  ghost predicate Inv(q: Queue) {
    Counted(q) && Ordered(q) && Coalesced(q) && Judged(q)
  }

  lemma PickedSnoc(offers: seq<Offer>, o: Offer, taken: bool)
    ensures Picked(offers + [o], taken) == Picked(offers, taken) + if o.taken == taken then [o.e] else []
  {
    assert (offers + [o])[..|offers|] == offers;
  }

  lemma EnqueueIsJust(q: Queue, e: Event)
    requires q.evqBytes == Total(q.evq) && Judged(q)
    ensures Judged(Enqueue(q, e).0)
  {
    var r := Enqueue(q, e).0;
    if e != [] {
      var o := r.offers[|q.offers|];
      assert r.offers == q.offers + [o] && Just(o, q.limit);
      PickedSnoc(q.offers, o, true);
      PickedSnoc(q.offers, o, false);
    }
  }

  /** The four answers to an offer, in the order they are decided. */
  lemma OutcomeIff(q: Queue, e: Event)
    requires Inv(q) && e != []
    ensures var outcome := Enqueue(q, e).1;
            && (outcome.TooBig? <==> |e| > 65536)
            && (outcome.NoSpace? <==> |e| <= 65536 && Total(q.evq) + |e| > q.limit)
            && (outcome.Gone? <==> |e| <= 65536 && Total(q.evq) + |e| <= q.limit && q.closing)
            && (outcome.Sent? <==> |e| <= 65536 && Total(q.evq) + |e| <= q.limit && !q.closing)
            && Enqueue(q, e).0.evq == (if outcome.Sent? then q.evq + [e] else q.evq)
  {
  }

  lemma EraseAllSnoc(s: seq<Event>, e: Event)
    ensures EraseAll(s + [e]) == EraseAll(s) + [Erase(e)]
  {
  }

  lemma EnqueueCountsDrops(q: Queue, e: Event)
    requires DropsCounted(q)
    ensures DropsCounted(Enqueue(q, e).0)
  {
    FittingSnoc(q.refused, e);
  }

  lemma EnqueueKeepsCounted(q: Queue, e: Event)
    requires Counted(q)
    ensures Counted(Enqueue(q, e).0)
  {
    EnqueueCountsDrops(q, e);
    var r := Enqueue(q, e).0;
    if 0 < |e| <= MAX_EVENT_BYTES && q.evqBytes + |e| <= q.limit && !q.closing {
      TotalSnoc(q.evq, e);
      assert r.evq == q.evq + [e] && r.dequeued == q.dequeued;
    } else {
      assert r.evq == q.evq && r.dequeued == q.dequeued;
    }
  }

  lemma EnqueueKeepsOrder(q: Queue, e: Event)
    requires Ordered(q)
    ensures Ordered(Enqueue(q, e).0)
  {
    EraseAllSnoc(q.evq, e);
    EraseAllSnoc(q.accepted, e);
    assert EraseAll(q.dequeued) + (EraseAll(q.evq) + [Erase(e)]) == EraseAll(q.dequeued) + EraseAll(q.evq) + [Erase(e)];
  }

  lemma EnqueueKeepsCounts(q: Queue, e: Event)
    requires Counted(q) && Ordered(q)
    ensures Counted(Enqueue(q, e).0) && Ordered(Enqueue(q, e).0)
  {
    EnqueueKeepsCounted(q, e);
    EnqueueKeepsOrder(q, e);
  }

  lemma EnqueueKeepsLaws(q: Queue, e: Event)
    requires Counted(q) && Ordered(q) && Judged(q)
    ensures var r := Enqueue(q, e).0; Counted(r) && Ordered(r) && Judged(r)
  {
    EnqueueKeepsCounts(q, e);
    EnqueueIsJust(q, e);
  }

  lemma DequeueKeepsCounts(q: Queue)
    requires Counted(q) && Ordered(q) && q.evq != []
    ensures Counted(Dequeue(q)) && Ordered(Dequeue(q))
  {
    var first, rest := q.evq[0], q.evq[1..];
    TotalCons(q.evq);
    TotalSnoc(q.dequeued, first);
    EraseAllSnoc(q.dequeued, first);
    assert EraseAll(q.evq) == [Erase(first)] + EraseAll(rest);
    assert EraseAll(q.dequeued) + ([Erase(first)] + EraseAll(rest)) == EraseAll(q.dequeued) + [Erase(first)] + EraseAll(rest);
  }

  lemma DequeueKeepsCoalesced(q: Queue)
    requires Coalesced(q) && q.evq != []
    ensures Coalesced(Dequeue(q))
  {
    var rest := Dequeue(q).evq;
    assert forall i | 0 <= i < |rest| :: rest[i] == q.evq[i + 1];
  }

  lemma DequeueKeepsInv(q: Queue)
    requires Inv(q) && q.evq != []
    ensures Inv(Dequeue(q))
  {
    DequeueKeepsCounts(q);
    DequeueKeepsCoalesced(q);
  }

  lemma CoalesceKeepsCounts(q: Queue, i: nat, cookie: nat)
    requires Counted(q) && Ordered(q) && i < |q.evq| && IsPresented(q.evq[i]) && cookie < U64
    ensures var r := q.(evq := q.evq[i := SetCookie(q.evq[i], cookie)]); Counted(r) && Ordered(r)
  {
    SetCookieIsLocal(q.evq[i], cookie);
    var evq := q.evq[i := SetCookie(q.evq[i], cookie)];
    TotalSameLengths(q.evq, evq);
    assert EraseAll(evq) == EraseAll(q.evq);
  }

  /** Everything as in `Coalesced`, except that one surface has a newer acknowledgement than its event. */
  ghost predicate CoalescedBut(q: Queue, surface: nat, cookie: nat) {
    && (forall i, j | 0 <= i < j < |q.evq| && IsPresented(q.evq[i]) && IsPresented(q.evq[j]) ::
          Get32(q.evq[i], SURFACE_AT) != Get32(q.evq[j], SURFACE_AT))
    && surface in q.acked && q.acked[surface] == cookie
    && (forall i | 0 <= i < |q.evq| && IsPresented(q.evq[i]) && Get32(q.evq[i], SURFACE_AT) != surface ::
          var other := Get32(q.evq[i], SURFACE_AT);
          other in q.acked && q.acked[other] == CookieOf(q.evq[i]))
  }

  lemma CoalesceRestores(q: Queue, i: nat, surface: nat, cookie: nat)
    requires CoalescedBut(q, surface, cookie) && cookie < U64
    requires i < |q.evq| && Presents(q.evq[i], surface)
    ensures Coalesced(q.(evq := q.evq[i := SetCookie(q.evq[i], cookie)]))
  {
    SetCookieIsLocal(q.evq[i], cookie);
    CookieReadsBack(q.evq[i], cookie);
  }

  lemma AnnounceRestores(q: Queue, frameId: nat, surface: nat, cookie: nat)
    requires CoalescedBut(q, surface, cookie) && Announceable(frameId, surface, cookie)
    requires forall i | 0 <= i < |q.evq| :: !Presents(q.evq[i], surface)
    ensures Coalesced(Enqueue(q, Announce(frameId, surface, cookie)).0)
  {
    AnnounceIsRecognised(frameId, surface, cookie);
  }

  lemma NotifyKeepsInv(q: Queue, frameId: nat, surface: nat, cookie: nat)
    requires Counted(q) && Ordered(q) && Judged(q) && CoalescedBut(q, surface, cookie) && Announceable(frameId, surface, cookie)
    ensures Inv(Notify(q, frameId, surface, cookie))
  {
    var i := FirstPresents(q.evq, surface, 0);
    if i < |q.evq| {
      CoalesceKeepsCounts(q, i, cookie);
      CoalesceRestores(q, i, surface, cookie);
    } else {
      EnqueueKeepsLaws(q, Announce(frameId, surface, cookie));
      AnnounceRestores(q, frameId, surface, cookie);
    }
  }

  lemma ReplyKeepsCoalesced(q: Queue, e: Event)
    requires Coalesced(q) && !IsPresented(e)
    ensures Coalesced(Enqueue(q, e).0)
  {
  }

  lemma OpKeepsInv(q: Queue, op: Op)
    requires Inv(q) && Possible(q, op)
    ensures Inv(Apply(q, op))
  {
    match op
    case Reply(e) =>
      EnqueueKeepsLaws(q, e);
      ReplyKeepsCoalesced(q, e);
    case PresentSurface(reply, frameId, surface, cookie) =>
      EnqueueKeepsLaws(q, reply);
      ReplyKeepsCoalesced(q, reply);
      var (r, outcome) := Enqueue(q, reply);
      if outcome.Sent? {
        NotifyKeepsInv(r.(acked := r.acked[surface := cookie]), frameId, surface, cookie);
      }
    case Read => DequeueKeepsInv(q);
    case Close =>
  }

  ghost predicate Legal(q: Queue, ops: seq<Op>)
    decreases |ops|
  {
    ops == [] || (Possible(q, ops[0]) && Legal(Apply(q, ops[0]), ops[1..]))
  }

  ghost function Run(q: Queue, ops: seq<Op>): Queue
    requires Legal(q, ops)
    decreases |ops|
  {
    if ops == [] then q else Run(Apply(q, ops[0]), ops[1..])
  }

  /** Whatever every possible operation keeps, every run keeps. */
  lemma {:induction false} RunKeeps(P: Queue -> bool, q: Queue, ops: seq<Op>)
    requires P(q) && Legal(q, ops)
    requires forall r, op | P(r) && Possible(r, op) :: P(Apply(r, op))
    ensures P(Run(q, ops))
    decreases |ops|
  {
    if ops != [] {
      RunKeeps(P, Apply(q, ops[0]), ops[1..]);
    }
  }

  lemma OpKeepsLimit(q: Queue, op: Op)
    requires Possible(q, op)
    ensures Apply(q, op).limit == q.limit
  {
  }

  lemma RunKeepsInv(q: Queue, ops: seq<Op>)
    requires Inv(q) && Legal(q, ops)
    ensures Inv(Run(q, ops)) && Run(q, ops).limit == q.limit
  {
    var limit := q.limit;
    var Good := r => Inv(r) && r.limit == limit;
    forall r, op | Good(r) && Possible(r, op)
      ensures Good(Apply(r, op))
    {
      OpKeepsInv(r, op);
      OpKeepsLimit(r, op);
    }
    RunKeeps(Good, q, ops);
  }

  /** Over every sequence of replies, presents and reads: order, byte accounting and coalescing all hold. */
  lemma QueueLaws(limit: nat, ops: seq<Op>)
    requires Legal(Fresh(limit), ops)
    ensures var q := Run(Fresh(limit), ops);
            && EraseAll(q.dequeued) + EraseAll(q.evq) == EraseAll(q.accepted)
            && q.evqBytes == Total(q.evq) <= limit
            && q.bytesOut == Total(q.dequeued) + q.evqBytes
            && Coalesced(q)
  {
    RunKeepsInv(Fresh(limit), ops);
  }

  /**
   Over every sequence of operations: what was refused is exactly what was over the event limit,
   did not fit on top of the bytes then queued, or came after the close; all else was accepted.
   */
  lemma RefusedExactlyWhatDidNotFit(limit: nat, ops: seq<Op>)
    requires Legal(Fresh(limit), ops)
    ensures var q := Run(Fresh(limit), ops);
            && q.accepted == Picked(q.offers, true) && q.refused == Picked(q.offers, false)
            && forall i | 0 <= i < |q.offers| :: Just(q.offers[i], limit)
  {
    RunKeepsInv(Fresh(limit), ops);
  }

  /** Exactly one queued event announces the surface, and with this cookie. */
  ghost predicate Announced(q: Queue, surface: nat, cookie: nat) {
    exists i :: 0 <= i < |q.evq| && Presents(q.evq[i], surface) && CookieOf(q.evq[i]) == cookie
                && forall j | 0 <= j < |q.evq| && j != i :: !Presents(q.evq[j], surface)
  }

  lemma SolePresented(q: Queue, i: nat, surface: nat)
    requires Coalesced(q) && i < |q.evq| && Presents(q.evq[i], surface) && surface in q.acked
    ensures Announced(q, surface, q.acked[surface])
  {
    assert forall j | 0 <= j < |q.evq| && j != i :: !Presents(q.evq[j], surface);
  }

  lemma NotifyAnnounces(q: Queue, frameId: nat, surface: nat, cookie: nat)
    requires Counted(q) && Ordered(q) && Judged(q) && CoalescedBut(q, surface, cookie) && Announceable(frameId, surface, cookie)
    requires !q.closing
    ensures var r, e := Notify(q, frameId, surface, cookie), Announce(frameId, surface, cookie);
            Announced(r, surface, cookie) || (r.evq == q.evq && r.refused == q.refused + [e] && Total(q.evq) + |e| > q.limit)
  {
    NotifyKeepsInv(q, frameId, surface, cookie);
    AnnounceIsRecognised(frameId, surface, cookie);
    var r, i := Notify(q, frameId, surface, cookie), FirstPresents(q.evq, surface, 0);
    if i < |q.evq| {
      SetCookieIsLocal(q.evq[i], cookie);
      SolePresented(r, i, surface);
    } else if r.evq != q.evq {
      assert r.evq[|q.evq|] == Announce(frameId, surface, cookie);
      SolePresented(r, |q.evq|, surface);
    }
  }

  /**
   A present whose reply was accepted ends with exactly one queued PRESENTED event of its surface,
   carrying its cookie, or with its announcement refused because it did not fit behind the reply.
   */
  lemma PresentAnnounces(q: Queue, reply: Event, frameId: nat, surface: nat, cookie: nat)
    requires Inv(q) && Possible(q, PresentSurface(reply, frameId, surface, cookie)) && Enqueue(q, reply).1.Sent?
    ensures var r, e := Present(q, reply, frameId, surface, cookie), Announce(frameId, surface, cookie);
            || Announced(r, surface, cookie)
            || (r.evq == q.evq + [reply] && r.refused == q.refused + [e] && Total(q.evq + [reply]) + |e| > q.limit)
  {
    EnqueueKeepsLaws(q, reply);
    ReplyKeepsCoalesced(q, reply);
    var r := Enqueue(q, reply).0;
    NotifyAnnounces(r.(acked := r.acked[surface := cookie]), frameId, surface, cookie);
  }

  /** The longest payload of a reply the driver sends is far below this. */
  const MAX_PAYLOAD: nat := 32768

  /** The reply is a frame the driver builds. */
  ghost predicate Built(e: Event) {
    exists frameId, msgType, msgId, payload ::
      Sendable(frameId, msgType, msgId, payload) && |payload| <= MAX_PAYLOAD && e == Build(frameId, msgType, msgId, payload)
  }

  ghost predicate FromDriver(op: Op) {
    match op
    case Reply(e) => Built(e)
    case PresentSurface(reply, _, _, _) => Built(reply)
    case Read => true
    case Close => true
  }

  lemma BuiltFits(e: Event)
    requires Built(e)
    ensures |e| <= MAX_EVENT_BYTES
  {
  }

  predicate AllFit(s: seq<Event>) {
    forall i | 0 <= i < |s| :: |s[i]| <= MAX_EVENT_BYTES
  }

  lemma EnqueueKeepsFit(q: Queue, e: Event)
    requires AllFit(q.refused) && |e| <= MAX_EVENT_BYTES
    ensures AllFit(Enqueue(q, e).0.refused)
  {
  }

  lemma OpKeepsFit(q: Queue, op: Op)
    requires AllFit(q.refused) && Possible(q, op) && FromDriver(op)
    ensures AllFit(Apply(q, op).refused)
  {
    match op
    case Reply(e) =>
      BuiltFits(e);
      EnqueueKeepsFit(q, e);
    case PresentSurface(reply, frameId, surface, cookie) =>
      BuiltFits(reply);
      EnqueueKeepsFit(q, reply);
      AnnounceIsRecognised(frameId, surface, cookie);
      var (r, _) := Enqueue(q, reply);
      EnqueueKeepsFit(r.(acked := r.acked[surface := cookie]), Announce(frameId, surface, cookie));
    case _ =>
  }

  lemma {:induction false} RunKeepsFit(q: Queue, ops: seq<Op>)
    requires AllFit(q.refused) && Legal(q, ops) && forall i | 0 <= i < |ops| :: FromDriver(ops[i])
    ensures AllFit(Run(q, ops).refused)
    decreases |ops|
  {
    if ops != [] {
      OpKeepsFit(q, ops[0]);
      RunKeepsFit(Apply(q, ops[0]), ops[1..]);
    }
  }

  /** Every event the driver refuses is counted in events_dropped: no frame it builds is over the single-event limit. */
  lemma EveryDropIsCounted(limit: nat, ops: seq<Op>)
    requires Legal(Fresh(limit), ops) && forall i | 0 <= i < |ops| :: FromDriver(ops[i])
    ensures Run(Fresh(limit), ops).eventsDropped == |Run(Fresh(limit), ops).refused|
  {
    DropsCountedIffNoneOversized(limit, ops);
    RunKeepsFit(Fresh(limit), ops);
  }

  /** For arbitrary events, events_dropped counts every refused one exactly when none was over the single-event size limit. */
  lemma DropsCountedIffNoneOversized(limit: nat, ops: seq<Op>)
    requires Legal(Fresh(limit), ops)
    ensures var q := Run(Fresh(limit), ops);
            q.eventsDropped == |q.refused| <==> forall i | 0 <= i < |q.refused| :: |q.refused[i]| <= MAX_EVENT_BYTES
  {
    RunKeepsInv(Fresh(limit), ops);
    FittingIsAllIff(Run(Fresh(limit), ops).refused);
  }

  /** One oversized event is refused without being counted. */
  lemma OversizedIsNotCounted(q: Queue)
    ensures var (r, outcome) := Enqueue(q, Zeros(MAX_EVENT_BYTES + 1));
            outcome.TooBig? && r.refused == q.refused + [Zeros(MAX_EVENT_BYTES + 1)] && r.eventsDropped == q.eventsDropped
  {
  }

  // ------------------------------------------------------------------------------------
  // The driver's own state.
  // ------------------------------------------------------------------------------------

  datatype ReadResult = Got(e: Event) | WouldBlock | Closing

  class Session {
    var evq: seq<Event>
    var evqBytes: nat
    const limit: nat
    var closing: bool
    var eventsEnqueued: nat
    var eventsDropped: nat
    var bytesOut: nat
    ghost var accepted: seq<Event>
    ghost var refused: seq<Event>
    ghost var dequeued: seq<Event>
    ghost var acked: map<nat, nat>
    ghost var offers: seq<Offer>

    ghost function Abs(): Queue
      reads this
    {
      Queue(evq, evqBytes, limit, closing, eventsEnqueued, eventsDropped, bytesOut, accepted, refused, dequeued, acked, offers)
    }

    ghost predicate Valid()
      reads this
    {
      Inv(Abs())
    }

    constructor (maxBytes: nat)
      ensures Valid() && Abs() == Fresh(maxBytes)
    {
      evq, evqBytes, limit, closing := [], 0, maxBytes, false;
      eventsEnqueued, eventsDropped, bytesOut := 0, 0, 0;
      accepted, refused, dequeued, acked, offers := [], [], [], map[], [];
    }

    /** drawfs_enqueue_event. */
    method EnqueueEvent(e: Event) returns (outcome: Outcome)
      modifies this
      ensures (Abs(), outcome) == Enqueue(old(Abs()), e)
      ensures outcome.TooBig? <==> |e| > 65536
      ensures outcome.NoSpace? <==> 0 < |e| <= 65536 && old(evqBytes) + |e| > limit
      ensures outcome.Gone? <==> 0 < |e| <= 65536 && old(evqBytes) + |e| <= limit && closing
      ensures evq == if outcome.Sent? && e != [] then old(evq) + [e] else old(evq)
    {
      if |e| == 0 { return Sent; }
      ghost var offer := Offer(e, Total(evq), closing, false);
      if |e| > MAX_EVENT_BYTES {
        refused, offers := refused + [e], offers + [offer];
        return TooBig;
      }
      if evqBytes + |e| > limit {
        eventsDropped, refused, offers := eventsDropped + 1, refused + [e], offers + [offer];
        return NoSpace;
      }
      if closing {
        eventsDropped, refused, offers := eventsDropped + 1, refused + [e], offers + [offer];
        return Gone;
      }
      offers := offers + [offer.(taken := true)];
      evq := evq + [e];
      evqBytes := evqBytes + |e|;
      eventsEnqueued := eventsEnqueued + 1;
      bytesOut := bytesOut + |e|;
      accepted := accepted + [e];
      return Sent;
    }

    /** drawfs_try_coalesce_presented: scan the queue and rewrite the cookie of the first match. */
    method TryCoalesce(surface: nat, cookie: nat) returns (coalesced: bool)
      requires cookie < U64
      modifies this`evq
      ensures var i := FirstPresents(old(evq), surface, 0);
              && coalesced == (i < |old(evq)|)
              && evq == if coalesced then old(evq)[i := SetCookie(old(evq)[i], cookie)] else old(evq)
    {
      var i := 0;
      while i < |evq|
        invariant evq == old(evq) && i <= |evq|
        invariant FirstPresents(evq, surface, i) == FirstPresents(evq, surface, 0)
      {
        if Presents(evq[i], surface) {
          evq := evq[i := SetCookie(evq[i], cookie)];
          return true;
        }
        i := i + 1;
      }
      return false;
    }

    /** Coalesce, or queue a new PRESENTED event. */
    method NotifyPresented(frameId: nat, surface: nat, cookie: nat)
      requires Announceable(frameId, surface, cookie)
      modifies this
      ensures Abs() == Notify(old(Abs()), frameId, surface, cookie)
    {
      var coalesced := TryCoalesce(surface, cookie);
      if !coalesced {
        var _ := EnqueueEvent(Announce(frameId, surface, cookie));
      }
    }

    method ReplyThenNotify(reply: Event, frameId: nat, surface: nat, cookie: nat) returns (outcome: Outcome)
      requires Announceable(frameId, surface, cookie)
      modifies this
      ensures Abs() == Present(old(Abs()), reply, frameId, surface, cookie)
      ensures outcome == Enqueue(old(Abs()), reply).1
    {
      outcome := EnqueueEvent(reply);
      if outcome.Sent? {
        acked := acked[surface := cookie];
        NotifyPresented(frameId, surface, cookie);
      }
    }

    /** The tail of drawfs_reply_surface_present, for an accepted request and one dispatching thread. */
    method ReplyPresent(reply: Event, frameId: nat, surface: nat, cookie: nat) returns (outcome: Outcome)
      requires Valid() && !IsPresented(reply) && reply != [] && Announceable(frameId, surface, cookie)
      modifies this
      ensures Valid() && Abs() == Present(old(Abs()), reply, frameId, surface, cookie)
      ensures outcome == Enqueue(old(Abs()), reply).1
      ensures outcome.Sent? ==> Announced(Abs(), surface, cookie) || evqBytes + PRESENTED_BYTES > limit
    {
      AnnounceIsRecognised(frameId, surface, cookie);
      if Enqueue(Abs(), reply).1.Sent? {
        PresentAnnounces(Abs(), reply, frameId, surface, cookie);
      }
      OpKeepsInv(Abs(), PresentSurface(reply, frameId, surface, cookie));
      outcome := ReplyThenNotify(reply, frameId, surface, cookie);
    }

    method TakeFirst() returns (e: Event)
      requires evq != [] && evqBytes >= |evq[0]|
      modifies this
      ensures e == old(evq)[0] && Abs() == Dequeue(old(Abs()))
    {
      e := evq[0];
      evq := evq[1..];
      evqBytes := evqBytes - |e|;
      dequeued := dequeued + [e];
    }

    /** drawfs_read, with a wait for an empty queue reported as WouldBlock. */
    method ReadEvent() returns (r: ReadResult)
      requires Valid()
      modifies this
      ensures Valid()
      ensures old(closing) ==> r == Closing && Abs() == old(Abs())
      ensures !old(closing) && old(evq) == [] ==> r == WouldBlock && Abs() == old(Abs())
      ensures !old(closing) && old(evq) != [] ==> r == Got(old(evq)[0]) && Abs() == Dequeue(old(Abs()))
    {
      if closing { return Closing; }
      if evq == [] { return WouldBlock; }
      DequeueKeepsInv(Abs());
      TotalCons(evq);
      var e := TakeFirst();
      return Got(e);
    }
  }
}
