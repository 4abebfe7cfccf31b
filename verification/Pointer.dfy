/**
 The shared pointer: mouse reports and touch-synthesised motion accumulate into one clamped
 position, and crossing from one surface to another emits leave and enter before anything
 else. An observer of the events is the reference.
 */
module Pointer {

  const INT32_MIN: int := -0x8000_0000
  const INT32_LIM: int := 0x8000_0000
  const FOCUS_SLOTS: nat := 256

  /** Without geometry nothing is clamped. */
  datatype Screen = Unknown | Screen(width: int, height: int)

  /** Known geometry has 32-bit signed coordinates. */
  predicate Sane(g: Screen) {
    g.Screen? ==> 0 < g.width < INT32_LIM && 0 < g.height < INT32_LIM
  }

  datatype Surface = Surface(session: nat, x: int, y: int, width: nat, height: nat)

  /** The cached focus file: whether it may be used, the grab, and the surfaces with the topmost first. */
  datatype Focus = Focus(valid: bool, torn: bool, grab: nat, surfaces: seq<Surface>)

  predicate Covers(s: Surface, x: int, y: int) {
    s.session != 0 && s.x <= x < s.x + s.width && s.y <= y < s.y + s.height
  }

  /** A surface covers the points at offsets below its width and height from its origin, and no others. */
  lemma CoversItsArea(s: Surface, u: int, v: int)
    ensures Covers(s, s.x + u, s.y + v) <==> s.session != 0 && 0 <= u < s.width && 0 <= v < s.height
  {
  }

  function TopmostFrom(surfaces: seq<Surface>, x: int, y: int, i: nat): (session: nat)
    requires i <= |surfaces|
    decreases |surfaces| - i
  {
    if i == |surfaces| then 0
    else if Covers(surfaces[i], x, y) then surfaces[i].session
    else TopmostFrom(surfaces, x, y, i + 1)
  }

  function Considered(f: Focus): seq<Surface> {
    if |f.surfaces| > FOCUS_SLOTS then f.surfaces[..FOCUS_SLOTS] else f.surfaces
  }

  /** The session under a point: a grab wins, otherwise the topmost surface, otherwise none. */
  function Resolve(f: Focus, x: int, y: int): nat {
    if !f.valid || f.torn then 0
    else if f.grab != 0 then f.grab
    else TopmostFrom(Considered(f), x, y, 0)
  }

  /** Surface `k` covers the point and none from `i` up to it does. */
  predicate FirstCover(surfaces: seq<Surface>, x: int, y: int, i: nat, k: nat) {
    i <= k < |surfaces| && Covers(surfaces[k], x, y) && forall j | i <= j < k :: !Covers(surfaces[j], x, y)
  }

  predicate NoCover(surfaces: seq<Surface>, x: int, y: int, i: nat) {
    forall k | i <= k < |surfaces| :: !Covers(surfaces[k], x, y)
  }

  /** The walk down the focus list finds the session of the first covering surface, or 0 when none covers. */
  lemma {:induction false} TopmostIsFirstCover(surfaces: seq<Surface>, x: int, y: int, i: nat)
    requires i <= |surfaces|
    ensures NoCover(surfaces, x, y, i) ==> TopmostFrom(surfaces, x, y, i) == 0
    ensures !NoCover(surfaces, x, y, i) ==>
              exists k: nat :: FirstCover(surfaces, x, y, i, k) && surfaces[k].session == TopmostFrom(surfaces, x, y, i)
    decreases |surfaces| - i
  {
    if i < |surfaces| && Covers(surfaces[i], x, y) {
      assert FirstCover(surfaces, x, y, i, i);
    } else if i < |surfaces| {
      TopmostIsFirstCover(surfaces, x, y, i + 1);
      if !NoCover(surfaces, x, y, i) {
        var k: nat :| FirstCover(surfaces, x, y, i + 1, k) && surfaces[k].session == TopmostFrom(surfaces, x, y, i + 1);
        assert FirstCover(surfaces, x, y, i, k);
      }
    }
  }

  datatype Event =
    | Enter(x: int, y: int, session: nat)
    | Leave(x: int, y: int, session: nat)
    | Motion(x: int, y: int, dx: int, dy: int, session: nat)

  datatype Pointer = Pointer(x: int, y: int, session: nat)

  /** A mouse report, or a motion synthesised from touch; a mouse without X and Y fields reports no motion. */
  datatype Report = Mouse(dx: int, dy: int, hasXY: bool, focus: Focus) | Touch(dx: int, dy: int, focus: Focus)

  function ClampTo(v: int, limit: int): int {
    if v < 0 then 0 else if v >= limit then limit - 1 else v
  }

  function Confine(g: Screen, x: int, y: int): (int, int) {
    if g.Unknown? then (x, y) else (ClampTo(x, g.width), ClampTo(y, g.height))
  }

  predicate Moves(r: Report) {
    r.Touch? || r.hasXY
  }

  /** No 32-bit overflow in the accumulation, and no deltas from fields the device does not have. */
  predicate Fits(p: Pointer, r: Report) {
    && INT32_MIN <= p.x + r.dx < INT32_LIM
    && INT32_MIN <= p.y + r.dy < INT32_LIM
    && (!Moves(r) ==> r.dx == 0 && r.dy == 0)
  }

  function Crossing(p: Pointer, x: int, y: int, session: nat): seq<Event> {
    if session == p.session then []
    else (if p.session != 0 then [Leave(x, y, p.session)] else [])
         + (if session != 0 then [Enter(x, y, session)] else [])
  }

  /** One report: the new pointer and the events it emits. */
  function Handle(g: Screen, p: Pointer, r: Report): (Pointer, seq<Event>) {
    var (x, y) := Confine(g, p.x + r.dx, p.y + r.dy);
    var session := Resolve(r.focus, x, y);
    (Pointer(x, y, session),
     Crossing(p, x, y, session) + (if Moves(r) then [Motion(x, y, x - p.x, y - p.y, session)] else []))
  }

  function Distance(a: int, b: int): nat {
    if a < b then b - a else a - b
  }

  /** Confining takes the nearest point of the screen; without geometry it changes nothing. */
  lemma ConfineIsNearest(g: Screen, x: int, y: int, u: int, v: int)
    requires Sane(g) && OnScreen(g, Pointer(u, v, 0))
    ensures var (cx, cy) := Confine(g, x, y);
            && OnScreen(g, Pointer(cx, cy, 0))
            && (g.Screen? ==> Distance(x, cx) <= Distance(x, u) && Distance(y, cy) <= Distance(y, v))
            && (g.Unknown? ==> (cx, cy) == (x, y))
  {
  }

  /** No usable focus file: nobody. A grab: its session. Otherwise the first covering surface among the first 256, or nobody. */
  lemma ResolveDecides(f: Focus, x: int, y: int)
    ensures !f.valid || f.torn ==> Resolve(f, x, y) == 0
    ensures f.valid && !f.torn && f.grab != 0 ==> Resolve(f, x, y) == f.grab
    ensures f.valid && !f.torn && f.grab == 0 ==>
              if exists k: nat :: FirstCover(f.surfaces, x, y, 0, k) && k < 256
              then exists k: nat :: FirstCover(f.surfaces, x, y, 0, k) && k < 256 && f.surfaces[k].session == Resolve(f, x, y)
              else Resolve(f, x, y) == 0
  {
    TopmostIsFirstCover(Considered(f), x, y, 0);
    if !NoCover(Considered(f), x, y, 0) {
      var k: nat :| FirstCover(Considered(f), x, y, 0, k)
                    && Considered(f)[k].session == TopmostFrom(Considered(f), x, y, 0);
      assert FirstCover(f.surfaces, x, y, 0, k);
    } else if k: nat :| FirstCover(f.surfaces, x, y, 0, k) && k < 256 {
      assert Considered(f)[k] == f.surfaces[k];
    }
  }

  /**
   A report takes the pointer to the confined sum of position and delta and to the session there;
   exactly the last event is a motion, if the report moves, and every event names the new position.
   */
  lemma HandleGoesThere(g: Screen, p: Pointer, r: Report)
    ensures var (q, events) := Handle(g, p, r);
            && (q.x, q.y) == Confine(g, p.x + r.dx, p.y + r.dy) && q.session == Resolve(r.focus, q.x, q.y)
            && (forall i | 0 <= i < |events| :: events[i].x == q.x && events[i].y == q.y)
            && (forall i | 0 <= i < |events| :: events[i].Motion? <==> Moves(r) && i == |events| - 1)
            && (Moves(r) ==> events != [] && events[|events| - 1] == Motion(q.x, q.y, q.x - p.x, q.y - p.y, q.session))
  {
  }

  // ------------------------------------------------------------------------------------
  // The observer integrates deltas and pairs enters with leaves.
  // ------------------------------------------------------------------------------------

  datatype View = Lost | Seen(at: Pointer)

  function See(v: View, e: Event): View {
    if v.Lost? then Lost else
    match e
    case Enter(_, _, s) => if v.at.session == 0 && s != 0 then Seen(v.at.(session := s)) else Lost
    case Leave(_, _, s) => if v.at.session == s && s != 0 then Seen(v.at.(session := 0)) else Lost
    case Motion(x, y, dx, dy, s) =>
      if s == v.at.session && x == v.at.x + dx && y == v.at.y + dy then Seen(Pointer(x, y, s)) else Lost
  }

  function Watch(v: View, log: seq<Event>): View
    decreases |log|
  {
    if log == [] then v else Watch(See(v, log[0]), log[1..])
  }

  lemma {:induction false} WatchConcat(v: View, a: seq<Event>, b: seq<Event>)
    ensures Watch(v, a + b) == Watch(Watch(v, a), b)
    decreases |a|
  {
    if a == [] {
      assert a + b == b;
    } else {
      assert (a + b)[0] == a[0] && (a + b)[1..] == a[1..] + b;
      WatchConcat(See(v, a[0]), a[1..], b);
    }
  }

  predicate OnScreen(g: Screen, p: Pointer) {
    g.Screen? ==> 0 <= p.x < g.width && 0 <= p.y < g.height
  }

  lemma WatchOne(v: View, e: Event)
    ensures Watch(v, [e]) == See(v, e)
  {
    assert [e][1..] == [];
    assert Watch(See(v, e), []) == See(v, e);
  }

  lemma WatchCrossing(p: Pointer, x: int, y: int, session: nat)
    ensures Watch(Seen(p), Crossing(p, x, y, session)) == Seen(p.(session := session))
  {
    var leave := if p.session != 0 then [Leave(x, y, p.session)] else [];
    var enter := if session != 0 then [Enter(x, y, session)] else [];
    if session != p.session {
      WatchConcat(Seen(p), leave, enter);
      WatchOne(Seen(p), Leave(x, y, p.session));
      WatchOne(Seen(p.(session := 0)), Enter(x, y, session));
    }
  }

  /** One report keeps the pointer on screen, and the observer follows it exactly. */
  lemma HandleKeepsView(g: Screen, p: Pointer, r: Report)
    requires Sane(g) && OnScreen(g, p) && Fits(p, r)
    ensures OnScreen(g, Handle(g, p, r).0)
    ensures Watch(Seen(p), Handle(g, p, r).1) == Seen(Handle(g, p, r).0)
  {
    var (q, events) := Handle(g, p, r);
    WatchCrossing(p, q.x, q.y, q.session);
    if Moves(r) {
      var motion := Motion(q.x, q.y, q.x - p.x, q.y - p.y, q.session);
      WatchConcat(Seen(p), Crossing(p, q.x, q.y, q.session), [motion]);
      WatchOne(Seen(p.(session := q.session)), motion);
    } else {
      assert events == Crossing(p, q.x, q.y, q.session);
    }
  }

  // ------------------------------------------------------------------------------------
  // Whole report sequences.
  // ------------------------------------------------------------------------------------

  predicate AllFit(g: Screen, p: Pointer, reports: seq<Report>)
    decreases |reports|
  {
    reports == [] || (Fits(p, reports[0]) && AllFit(g, Handle(g, p, reports[0]).0, reports[1..]))
  }

  function Run(g: Screen, p: Pointer, reports: seq<Report>): (Pointer, seq<Event>)
    decreases |reports|
  {
    if reports == [] then (p, [])
    else
      var (q, events) := Handle(g, p, reports[0]);
      var (last, rest) := Run(g, q, reports[1..]);
      (last, events + rest)
  }

  /**
   Over every mix of mouse and touch reports: the pointer stays on screen, enters and leaves
   pair up and fold to the current session, every motion carries the session last entered
   and the deltas integrate from the seed to the current position.
   */
  lemma {:induction false} ObserverAgrees(g: Screen, seed: Pointer, reports: seq<Report>)
    requires Sane(g) && OnScreen(g, seed) && AllFit(g, seed, reports)
    ensures var (p, log) := Run(g, seed, reports); OnScreen(g, p) && Watch(Seen(seed), log) == Seen(p)
    decreases |reports|
  {
    if reports != [] {
      HandleKeepsView(g, seed, reports[0]);
      var (q, events) := Handle(g, seed, reports[0]);
      ObserverAgrees(g, q, reports[1..]);
      WatchConcat(Seen(seed), events, Run(g, q, reports[1..]).1);
    }
  }

  function Travelled(log: seq<Event>): (int, int)
    decreases |log|
  {
    if log == [] then (0, 0)
    else
      var (x, y) := Travelled(log[1..]);
      if log[0].Motion? then (log[0].dx + x, log[0].dy + y) else (x, y)
  }

  lemma {:induction false} WatchIntegrates(v: View, log: seq<Event>)
    requires v.Seen? && Watch(v, log).Seen?
    ensures var w := Watch(v, log);
            w.at.x == v.at.x + Travelled(log).0 && w.at.y == v.at.y + Travelled(log).1
    decreases |log|
  {
    if log != [] {
      LostStaysLost(See(v, log[0]), log[1..]);
      WatchIntegrates(See(v, log[0]), log[1..]);
    }
  }

  lemma {:induction false} LostStaysLost(v: View, log: seq<Event>)
    ensures v.Lost? ==> Watch(v, log).Lost?
    decreases |log|
  {
    if log != [] {
      LostStaysLost(See(v, log[0]), log[1..]);
    }
  }

  /** The position is the seed plus the sum of the published motion deltas. */
  lemma PositionIsSumOfDeltas(g: Screen, seed: Pointer, reports: seq<Report>)
    requires Sane(g) && OnScreen(g, seed) && AllFit(g, seed, reports)
    ensures var (p, log) := Run(g, seed, reports);
            p.x == seed.x + Travelled(log).0 && p.y == seed.y + Travelled(log).1
  {
    ObserverAgrees(g, seed, reports);
    WatchIntegrates(Seen(seed), Run(g, seed, reports).1);
  }

  // ------------------------------------------------------------------------------------
  // The driver's own state.
  // ------------------------------------------------------------------------------------

  class State {
    const screen: Screen
    var x: int
    var y: int
    var sessionPrev: nat
    var log: seq<Event>

    ghost function Abs(): Pointer
      reads this
    {
      Pointer(x, y, sessionPrev)
    }

    ghost predicate Valid()
      reads this
    {
      Sane(screen) && OnScreen(screen, Abs())
    }

    constructor (g: Screen, seed: Pointer)
      requires Sane(g) && OnScreen(g, seed)
      ensures Valid() && Abs() == seed && screen == g && log == []
    {
      screen, x, y, sessionPrev, log := g, seed.x, seed.y, seed.session, [];
    }

    /** inputfs_focus_resolve_pointer. */
    method ResolvePointer(f: Focus, px: int, py: int) returns (session: nat)
      ensures session == Resolve(f, px, py)
    {
      if !f.valid || f.torn {
        return 0;
      }
      if f.grab != 0 {
        return f.grab;
      }
      var surfaces := Considered(f);
      var i := 0;
      while i < |surfaces|
        invariant i <= |surfaces|
        invariant TopmostFrom(surfaces, px, py, i) == TopmostFrom(surfaces, px, py, 0)
      {
        if Covers(surfaces[i], px, py) {
          return surfaces[i].session;
        }
        i := i + 1;
      }
      return 0;
    }

    /** inputfs_state_update_pointer: move, clamp to the screen, report the delta that took effect. */
    method UpdatePointer(dx: int, dy: int) returns (actualDx: int, actualDy: int)
      requires Valid()
      modifies this`x, this`y
      ensures (x, y) == Confine(screen, old(x) + dx, old(y) + dy)
      ensures actualDx == x - old(x) && actualDy == y - old(y)
      ensures Valid()
    {
      var newX, newY := x + dx, y + dy;
      if screen.Screen? {
        if newX < 0 {
          newX := 0;
        } else if newX >= screen.width {
          newX := screen.width - 1;
        }
        if newY < 0 {
          newY := 0;
        } else if newY >= screen.height {
          newY := screen.height - 1;
        }
      }
      actualDx, actualDy := newX - x, newY - y;
      x, y := newX, newY;
    }

    /** Leave the old session and enter the new one, if they differ. */
    method Cross(session: nat)
      modifies this`sessionPrev, this`log
      ensures sessionPrev == session
      ensures log == old(log) + Crossing(Pointer(x, y, old(sessionPrev)), x, y, session)
    {
      if session != sessionPrev {
        if sessionPrev != 0 {
          log := log + [Leave(x, y, sessionPrev)];
        }
        if session != 0 {
          log := log + [Enter(x, y, session)];
        }
        sessionPrev := session;
      }
    }

    /** The pointer block of inputfs_intr, and the synthesis tail of the touch dispatcher. */
    method HandleReport(r: Report)
      requires Valid() && Fits(Abs(), r)
      modifies this`x, this`y, this`sessionPrev, this`log
      ensures Valid() && Abs() == Handle(screen, old(Abs()), r).0
      ensures log == old(log) + Handle(screen, old(Abs()), r).1
    {
      var actualDx, actualDy := UpdatePointer(r.dx, r.dy);
      var session := ResolvePointer(r.focus, x, y);
      Cross(session);
      if r.Touch? || r.hasXY {
        log := log + [Motion(x, y, actualDx, actualDy, session)];
      }
    }
  }
}
