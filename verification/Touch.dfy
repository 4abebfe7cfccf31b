/**
 The contact state machine behind multi-touch reports, with cursor synthesis: while exactly
 one contact is down, its moves also drive the pointer. An independent observer that sees
 only the emitted events is the reference.
 */
module Touch {

  const CONTACTS: nat := 8
  const NO_PRIMARY: nat := 0xFF

  datatype Contact = Contact(active: bool, session: nat, x: int, y: int)

  /** One report, in pixel space; `firm` is false when the device distrusts the contact. */
  datatype Report = Report(cid: nat, tip: bool, firm: bool, x: int, y: int, session: nat)

  datatype Pad = Pad(contacts: seq<Contact>, count: nat, primary: nat, baseX: int, baseY: int)

  datatype Event =
    | Down(cid: nat, x: int, y: int, session: nat)
    | Move(cid: nat, x: int, y: int, session: nat)
    | Up(cid: nat, x: int, y: int, session: nat)
    | Motion(dx: int, dy: int)

  const ATTACHED := Pad(seq(CONTACTS, _ => Contact(false, 0, 0, 0)), 0, NO_PRIMARY, 0, 0)

  /** Ids past the last slot share it. */
  function Clamp(cid: nat): (c: nat)
    ensures c == if cid < CONTACTS then cid else CONTACTS - 1
  {
    if cid >= CONTACTS then CONTACTS - 1 else cid
  }

  function FirstActive(contacts: seq<Contact>, from: nat): (i: nat)
    requires from <= |contacts|
    ensures from <= i <= |contacts|
    ensures i < |contacts| ==> contacts[i].active
    ensures forall k | from <= k < i :: !contacts[k].active
    decreases |contacts| - from
  {
    if from == |contacts| || contacts[from].active then from else FirstActive(contacts, from + 1)
  }

  function Press(p: Pad, c: nat, r: Report): Pad
    requires c < |p.contacts|
  {
    var q := p.(contacts := p.contacts[c := Contact(true, r.session, r.x, r.y)], count := p.count + 1);
    if q.count == 1 then q.(primary := c, baseX := r.x, baseY := r.y)
    else if q.count == 2 then q.(primary := NO_PRIMARY)
    else q
  }

  predicate Steers(p: Pad, c: nat) {
    p.count == 1 && p.primary == c
  }

  function Drag(p: Pad, c: nat, r: Report): Pad
    requires c < |p.contacts|
  {
    var q := p.(contacts := p.contacts[c := p.contacts[c].(x := r.x, y := r.y)]);
    if Steers(p, c) then q.(baseX := r.x, baseY := r.y) else q
  }

  function Lift(p: Pad, c: nat): Pad
    requires c < |p.contacts|
  {
    var contacts := p.contacts[c := p.contacts[c].(active := false, session := 0)];
    var q := p.(contacts := contacts, count := if p.count > 0 then p.count - 1 else 0);
    var i := FirstActive(contacts, 0);
    if q.count == 0 then q.(primary := NO_PRIMARY)
    else if q.count == 1 && i < |contacts| then q.(primary := i, baseX := contacts[i].x, baseY := contacts[i].y)
    else q
  }

  /** One report: the new pad and the events it emits. */
  function Dispatch(p: Pad, r: Report): (Pad, seq<Event>)
    requires |p.contacts| == CONTACTS
  {
    var c := Clamp(r.cid);
    var was := p.contacts[c];
    if r.tip && r.firm then
      if !was.active then (Press(p, c, r), [Down(c, r.x, r.y, r.session)])
      else (Drag(p, c, r), [Move(c, r.x, r.y, was.session)]
                           + if Steers(p, c) then [Motion(r.x - p.baseX, r.y - p.baseY)] else [])
    else if was.active then (Lift(p, c), [Up(c, was.x, was.y, was.session)])
    else (p, [])
  }

  // ------------------------------------------------------------------------------------
  // The observer. It knows the fingers that are down, and whether the last move of a sole
  // finger still owes its cursor motion; anything out of place makes it give up.
  // ------------------------------------------------------------------------------------

  datatype Finger = Finger(session: nat, x: int, y: int)

  datatype Owed = Nothing | Owes(dx: int, dy: int)

  datatype View = Lost | View(fingers: map<nat, Finger>, owed: Owed)

  function See(v: View, e: Event): View {
    if v.Lost? then Lost else
    match e
    case Down(c, x, y, s) =>
      if v.owed.Nothing? && c !in v.fingers then View(v.fingers[c := Finger(s, x, y)], Nothing) else Lost
    case Move(c, x, y, s) =>
      if v.owed.Nothing? && c in v.fingers && v.fingers[c].session == s
      then View(v.fingers[c := Finger(s, x, y)],
                if v.fingers.Keys == {c} then Owes(x - v.fingers[c].x, y - v.fingers[c].y) else Nothing)
      else Lost
    case Up(c, x, y, s) =>
      if v.owed.Nothing? && c in v.fingers && v.fingers[c] == Finger(s, x, y)
      then View(v.fingers - {c}, Nothing) else Lost
    case Motion(dx, dy) =>
      if v.owed == Owes(dx, dy) then View(v.fingers, Nothing) else Lost
  }

  function Watch(v: View, log: seq<Event>): View
    decreases |log|
  {
    if log == [] then v else Watch(See(v, log[0]), log[1..])
  }

  lemma {:induction false} WatchConcat(v: View, a: seq<Event>, b: seq<Event>)
    ensures Watch(v, a + b) == Watch(Watch(v, a), b)
    decreases |a|
  {
    if a == [] {
      assert a + b == b;
    } else {
      assert (a + b)[0] == a[0] && (a + b)[1..] == a[1..] + b;
      WatchConcat(See(v, a[0]), a[1..], b);
    }
  }

  function Active(contacts: seq<Contact>): set<nat> {
    set c: nat | c < |contacts| && contacts[c].active
  }

  function Fingers(p: Pad): map<nat, Finger> {
    map c | c in Active(p.contacts) :: Finger(p.contacts[c].session, p.contacts[c].x, p.contacts[c].y)
  }

  /** What the observer should believe about a pad at rest. */
  function ViewOf(p: Pad): View {
    View(Fingers(p), Nothing)
  }

  /** The counter counts the active slots; a sole contact, and only a sole contact, is primary, with its last position as baseline. */
  predicate Inv(p: Pad) {
    && |p.contacts| == CONTACTS
    && p.count == |Active(p.contacts)|
    && (p.primary == NO_PRIMARY <==> p.count != 1)
    && (p.count == 1 ==>
          && p.primary < CONTACTS
          && Active(p.contacts) == {p.primary}
          && p.baseX == p.contacts[p.primary].x && p.baseY == p.contacts[p.primary].y)
  }

  lemma SoleMember(s: set<nat>, c: nat)
    requires |s| == 1 && c in s
    ensures s == {c}
  {
    assert |s - {c}| == 0;
  }

  lemma PressKeepsInv(p: Pad, c: nat, r: Report)
    requires Inv(p) && c < CONTACTS && !p.contacts[c].active
    ensures Inv(Press(p, c, r))
    ensures ViewOf(Press(p, c, r)) == See(ViewOf(p), Down(c, r.x, r.y, r.session))
  {
    var q := Press(p, c, r);
    PressActivates(p, c, r);
    PressIsSeen(p, c, r);
    if q.count == 1 {
      SoleMember(Active(q.contacts), c);
    }
  }

  lemma PressActivates(p: Pad, c: nat, r: Report)
    requires c < |p.contacts| && !p.contacts[c].active
    ensures Active(Press(p, c, r).contacts) == Active(p.contacts) + {c} && c !in Active(p.contacts)
  {
  }

  lemma PressIsSeen(p: Pad, c: nat, r: Report)
    requires c < |p.contacts| && !p.contacts[c].active
    ensures ViewOf(Press(p, c, r)) == See(ViewOf(p), Down(c, r.x, r.y, r.session))
  {
    PressActivates(p, c, r);
    assert Fingers(Press(p, c, r)) == Fingers(p)[c := Finger(r.session, r.x, r.y)];
  }

  lemma DragKeepsInv(p: Pad, c: nat, r: Report)
    requires Inv(p) && c < CONTACTS && p.contacts[c].active
    ensures Inv(Drag(p, c, r))
    ensures Steers(p, c) <==> Active(p.contacts) == {c}
    ensures See(ViewOf(p), Move(c, r.x, r.y, p.contacts[c].session))
         == View(Fingers(Drag(p, c, r)), if Steers(p, c) then Owes(r.x - p.baseX, r.y - p.baseY) else Nothing)
  {
    var q := Drag(p, c, r);
    assert Active(q.contacts) == Active(p.contacts);
    assert c in Active(p.contacts);
    assert Fingers(p).Keys == Active(p.contacts);
    if Active(p.contacts) == {c} {
      assert p.count == 1;
    }
    assert Fingers(q) == Fingers(p)[c := Finger(p.contacts[c].session, r.x, r.y)];
  }

  lemma LiftKeepsInv(p: Pad, c: nat)
    requires Inv(p) && c < CONTACTS && p.contacts[c].active
    ensures Inv(Lift(p, c))
    ensures ViewOf(Lift(p, c))
         == See(ViewOf(p), Up(c, p.contacts[c].x, p.contacts[c].y, p.contacts[c].session))
  {
    var q := Lift(p, c);
    assert c in Active(p.contacts);
    assert Active(q.contacts) == Active(p.contacts) - {c};
    assert |Active(p.contacts)| == |Active(p.contacts) - {c}| + 1;
    if q.count == 1 {
      var i := FirstActive(q.contacts, 0);
      assert |Active(q.contacts)| == 1;
      var only :| only in Active(q.contacts);
      SoleMember(Active(q.contacts), only);
      assert i <= only;
      assert i in Active(q.contacts);
    }
    assert Fingers(q) == Fingers(p) - {c};
  }

  /** One report keeps the invariant, and the observer follows it exactly. */
  lemma DispatchKeepsInv(p: Pad, r: Report)
    requires Inv(p)
    ensures Inv(Dispatch(p, r).0)
    ensures Watch(ViewOf(p), Dispatch(p, r).1) == ViewOf(Dispatch(p, r).0)
  {
    var c := Clamp(r.cid);
    var (q, events) := Dispatch(p, r);
    if r.tip && r.firm {
      if !p.contacts[c].active {
        PressKeepsInv(p, c, r);
      } else {
        DragKeepsInv(p, c, r);
        WatchMove(ViewOf(p), events);
      }
    } else if p.contacts[c].active {
      LiftKeepsInv(p, c);
    }
  }

  lemma WatchMove(v: View, events: seq<Event>)
    requires 1 <= |events| <= 2
    ensures Watch(v, events) == if |events| == 1 then See(v, events[0]) else See(See(v, events[0]), events[1])
  {
    if |events| == 2 {
      assert Watch(See(v, events[0]), events[1..]) == Watch(See(See(v, events[0]), events[1]), []);
    }
  }

  // ------------------------------------------------------------------------------------
  // Whole report sequences.
  // ------------------------------------------------------------------------------------

  function Run(p: Pad, reports: seq<Report>): (r: (Pad, seq<Event>))
    requires |p.contacts| == CONTACTS
    ensures |r.0.contacts| == CONTACTS
    decreases |reports|
  {
    if reports == [] then (p, [])
    else
      var (q, events) := Dispatch(p, reports[0]);
      var (last, rest) := Run(q, reports[1..]);
      (last, events + rest)
  }

  lemma {:induction false} RunKeepsInv(p: Pad, reports: seq<Report>)
    requires Inv(p)
    ensures Inv(Run(p, reports).0)
    ensures Watch(ViewOf(p), Run(p, reports).1) == ViewOf(Run(p, reports).0)
    decreases |reports|
  {
    if reports != [] {
      var (q, events) := Dispatch(p, reports[0]);
      DispatchKeepsInv(p, reports[0]);
      RunKeepsInv(q, reports[1..]);
      WatchConcat(ViewOf(p), events, Run(q, reports[1..]).1);
    }
  }

  lemma AttachedHoldsInv()
    ensures Inv(ATTACHED) && Fingers(ATTACHED) == map[]
  {
    assert Active(ATTACHED.contacts) == {};
  }

  /**
   Over every report sequence: each contact's events are (DOWN MOVE* UP)* with DOWN's session
   throughout and the last position on UP, a cursor motion follows exactly the moves of a
   sole contact and carries its displacement, and the counters match the contacts.
   */
  lemma ObserverAgrees(reports: seq<Report>)
    ensures var (p, log) := Run(ATTACHED, reports);
            && Watch(View(map[], Nothing), log) == ViewOf(p)
            && p.count == |Active(p.contacts)|
            && (p.primary != NO_PRIMARY <==> p.count == 1)
            && (p.count == 1 ==> Active(p.contacts) == {p.primary}
                                 && p.baseX == p.contacts[p.primary].x && p.baseY == p.contacts[p.primary].y)
  {
    AttachedHoldsInv();
    RunKeepsInv(ATTACHED, reports);
  }

  // ------------------------------------------------------------------------------------
  // The reports themselves as the reference: who is down, where, and in which session.
  // ------------------------------------------------------------------------------------

  predicate Pressed(r: Report) {
    r.tip && r.firm
  }

  datatype Sighting = Absent | Here(f: Finger)

  /** What the reports say of contact `c`: the last one about it decides, and a press that follows a press keeps its session. */
  function Where(reports: seq<Report>, c: nat): Sighting
    decreases |reports|
  {
    if reports == [] then Absent
    else
      var before, r := Where(reports[..|reports| - 1], c), reports[|reports| - 1];
      if Clamp(r.cid) != c then before
      else if !Pressed(r) then Absent
      else Here(Finger(if before.Here? then before.f.session else r.session, r.x, r.y))
  }

  /** Report `i` is the last about contact `c`. */
  predicate LastAbout(reports: seq<Report>, c: nat, i: nat) {
    i < |reports| && Clamp(reports[i].cid) == c && forall k | i < k < |reports| :: Clamp(reports[k].cid) != c
  }

  /** The last report about contact `c`, if there is one, is not a press. */
  predicate NotPressedLast(reports: seq<Report>, c: nat) {
    forall i | 0 <= i < |reports| && LastAbout(reports, c, i) :: !Pressed(reports[i])
  }

  /** Report `b` begins an unbroken run of presses of contact `c` that lasts to the end. */
  predicate BeginsRun(reports: seq<Report>, c: nat, b: nat) {
    && b < |reports| && Clamp(reports[b].cid) == c
    && (forall k | b <= k < |reports| && Clamp(reports[k].cid) == c :: Pressed(reports[k]))
    && NotPressedLast(reports[..b], c)
  }

  /** A contact is down iff the last report about it is a press: there, and in the session of the press that began the run. */
  lemma {:induction false} WhereTellsTheStory(reports: seq<Report>, c: nat)
    ensures Where(reports, c).Absent? ==> NotPressedLast(reports, c)
    ensures Where(reports, c).Here? ==>
              exists i: nat, b: nat :: LastAbout(reports, c, i) && Pressed(reports[i]) && BeginsRun(reports, c, b)
                             && Where(reports, c).f == Finger(reports[b].session, reports[i].x, reports[i].y)
    decreases |reports|
  {
    if reports != [] {
      var n := |reports| - 1;
      var front, r := reports[..n], reports[n];
      WhereTellsTheStory(front, c);
      if Clamp(r.cid) != c {
        StoryGoesOn(reports, c);
      } else if Pressed(r) {
        assert LastAbout(reports, c, n);
        if Where(front, c).Here? {
          var i: nat, b: nat :| LastAbout(front, c, i) && Pressed(front[i]) && BeginsRun(front, c, b)
                      && Where(front, c).f == Finger(front[b].session, front[i].x, front[i].y);
          RunGoesOn(reports, c, b);
        } else {
          RunStarts(reports, c);
        }
      }
    }
  }

  lemma RunGoesOn(reports: seq<Report>, c: nat, b: nat)
    requires reports != [] && BeginsRun(reports[..|reports| - 1], c, b) && Pressed(reports[|reports| - 1])
    ensures BeginsRun(reports, c, b) && reports[b] == reports[..|reports| - 1][b]
  {
    var front := reports[..|reports| - 1];
    assert reports[..b] == front[..b];
    assert forall k | 0 <= k < |front| :: reports[k] == front[k];
  }

  lemma RunStarts(reports: seq<Report>, c: nat)
    requires reports != [] && Clamp(reports[|reports| - 1].cid) == c && Pressed(reports[|reports| - 1])
    requires NotPressedLast(reports[..|reports| - 1], c)
    ensures BeginsRun(reports, c, |reports| - 1)
  {
  }

  /** A report about another contact changes nothing. */
  lemma StoryGoesOn(reports: seq<Report>, c: nat)
    requires reports != [] && Clamp(reports[|reports| - 1].cid) != c
    ensures forall i: nat :: LastAbout(reports, c, i) <==> LastAbout(reports[..|reports| - 1], c, i)
    ensures forall b: nat :: BeginsRun(reports[..|reports| - 1], c, b) ==> BeginsRun(reports, c, b)
  {
    var front := reports[..|reports| - 1];
    forall b: nat | BeginsRun(front, c, b)
      ensures BeginsRun(reports, c, b)
    {
      assert reports[..b] == front[..b];
    }
  }

  function At(p: Pad, c: nat): Sighting
    requires c < |p.contacts|
  {
    if p.contacts[c].active then Here(Finger(p.contacts[c].session, p.contacts[c].x, p.contacts[c].y)) else Absent
  }

  /** The contacts the reports say are down. */
  function Reported(reports: seq<Report>): map<nat, Finger> {
    map c: nat | c < CONTACTS && Where(reports, c).Here? :: Where(reports, c).f
  }

  ghost predicate Follows(p: Pad, reports: seq<Report>) {
    |p.contacts| == CONTACTS && forall c | 0 <= c < CONTACTS :: At(p, c) == Where(reports, c)
  }

  lemma {:induction false} RunSnoc(p: Pad, reports: seq<Report>, r: Report)
    requires |p.contacts| == CONTACTS
    ensures Run(p, reports + [r]).0 == Dispatch(Run(p, reports).0, r).0
    decreases |reports|
  {
    if reports == [] {
      assert reports + [r] == [r] && [r][1..] == [];
      assert Run(p, [r]).0 == Run(Dispatch(p, r).0, []).0;
    } else {
      assert (reports + [r])[0] == reports[0] && (reports + [r])[1..] == reports[1..] + [r];
      var q := Dispatch(p, reports[0]).0;
      RunSnoc(q, reports[1..], r);
      assert Run(p, reports).0 == Run(q, reports[1..]).0;
    }
  }

  lemma DispatchFollows(p: Pad, reports: seq<Report>, r: Report)
    requires Follows(p, reports)
    ensures Follows(Dispatch(p, r).0, reports + [r])
  {
    var q := Dispatch(p, r).0;
    assert (reports + [r])[..|reports|] == reports;
    forall c | 0 <= c < CONTACTS
      ensures At(q, c) == Where(reports + [r], c)
    {
      assert At(p, c) == Where(reports, c);
    }
  }

  lemma {:induction false} RunFollows(reports: seq<Report>)
    ensures Inv(Run(ATTACHED, reports).0) && Follows(Run(ATTACHED, reports).0, reports)
    decreases |reports|
  {
    AttachedHoldsInv();
    if reports != [] {
      var front, r := reports[..|reports| - 1], reports[|reports| - 1];
      assert front + [r] == reports;
      RunFollows(front);
      RunSnoc(ATTACHED, front, r);
      DispatchKeepsInv(Run(ATTACHED, front).0, r);
      DispatchFollows(Run(ATTACHED, front).0, front, r);
    }
  }

  /** The machine holds exactly the contacts that the reports say are down, there and in those sessions. */
  lemma ContactsAreWhatWasReported(reports: seq<Report>)
    ensures Fingers(Run(ATTACHED, reports).0) == Reported(reports)
  {
    RunFollows(reports);
    var p := Run(ATTACHED, reports).0;
    forall c: nat
      ensures c in Fingers(p) <==> c in Reported(reports)
      ensures c in Fingers(p) ==> Fingers(p)[c] == Reported(reports)[c]
    {
      assert c < CONTACTS ==> At(p, c) == Where(reports, c);
    }
  }

  /** No contact but `c` is down. */
  predicate Alone(reports: seq<Report>, c: nat) {
    forall d | 0 <= d < CONTACTS && d != c :: Where(reports, d).Absent?
  }

  /** What a report must emit, given the ones before it. */
  function Expected(reports: seq<Report>, r: Report): seq<Event> {
    var c := Clamp(r.cid);
    match Where(reports, c)
    case Absent => if Pressed(r) then [Down(c, r.x, r.y, r.session)] else []
    case Here(f) =>
      if !Pressed(r) then [Up(c, f.x, f.y, f.session)]
      else [Move(c, r.x, r.y, f.session)] + if Alone(reports, c) then [Motion(r.x - f.x, r.y - f.y)] else []
  }

  lemma AloneIsSole(p: Pad, reports: seq<Report>, c: nat)
    requires Follows(p, reports) && c < CONTACTS && p.contacts[c].active
    ensures Active(p.contacts) == {c} <==> Alone(reports, c)
  {
    assert c in Active(p.contacts);
    forall d: nat | d < CONTACTS
      ensures d in Active(p.contacts) <==> Where(reports, d).Here?
    {
      assert At(p, d) == Where(reports, d);
    }
    if Active(p.contacts) == {c} {
      assert forall d: nat | d < CONTACTS && d != c :: d !in Active(p.contacts);
    }
  }

  /** Which report emits DOWN, MOVE, UP, a motion or nothing follows from the reports before it alone. */
  lemma EmitsWhatIsExpected(reports: seq<Report>, r: Report)
    ensures Dispatch(Run(ATTACHED, reports).0, r).1 == Expected(reports, r)
  {
    RunFollows(reports);
    var p, c := Run(ATTACHED, reports).0, Clamp(r.cid);
    assert At(p, c) == Where(reports, c);
    if Pressed(r) && p.contacts[c].active {
      DragKeepsInv(p, c, r);
      AloneIsSole(p, reports, c);
    }
  }

  function SumMotion(log: seq<Event>): (int, int)
    decreases |log|
  {
    if log == [] then (0, 0)
    else
      var (x, y) := SumMotion(log[1..]);
      if log[0].Motion? then (log[0].dx + x, log[0].dy + y) else (x, y)
  }

  lemma {:induction false} SumMotionConcat(a: seq<Event>, b: seq<Event>)
    ensures SumMotion(a + b) == (SumMotion(a).0 + SumMotion(b).0, SumMotion(a).1 + SumMotion(b).1)
    decreases |a|
  {
    if a == [] {
      assert a + b == b;
    } else {
      assert (a + b)[0] == a[0] && (a + b)[1..] == a[1..] + b;
      SumMotionConcat(a[1..], b);
    }
  }

  /** While one contact stays down alone, the cursor travels exactly as far as the contact. */
  lemma {:induction false} DragTelescopes(p: Pad, c: nat, reports: seq<Report>)
    requires Inv(p) && Steers(p, c)
    requires forall r | r in reports :: Clamp(r.cid) == c && r.tip && r.firm
    ensures var (q, log) := Run(p, reports);
            && Steers(q, c) && Inv(q)
            && SumMotion(log) == (q.contacts[c].x - p.contacts[c].x, q.contacts[c].y - p.contacts[c].y)
    decreases |reports|
  {
    if reports != [] {
      var r := reports[0];
      var (q, events) := Dispatch(p, r);
      DispatchKeepsInv(p, r);
      assert c in Active(p.contacts);
      assert events == [Move(c, r.x, r.y, p.contacts[c].session)] + [Motion(r.x - p.baseX, r.y - p.baseY)];
      SumMotionConcat([Move(c, r.x, r.y, p.contacts[c].session)], [Motion(r.x - p.baseX, r.y - p.baseY)]);
      DragTelescopes(q, c, reports[1..]);
      SumMotionConcat(events, Run(q, reports[1..]).1);
    }
  }

  // ------------------------------------------------------------------------------------
  // The driver's own state: eight slots updated in place.
  // ------------------------------------------------------------------------------------

  class Digitizer {
    const contacts: array<Contact>
    var count: nat
    var primary: nat
    var baseX: int
    var baseY: int
    var log: seq<Event>

    ghost predicate Valid()
      reads this, contacts
    {
      contacts.Length == CONTACTS && Inv(Abs())
    }

    ghost function Abs(): Pad
      reads this, contacts
    {
      Pad(contacts[..], count, primary, baseX, baseY)
    }

    constructor ()
      ensures Valid() && Abs() == ATTACHED && log == [] && fresh(contacts)
    {
      contacts := new Contact[CONTACTS](_ => Contact(false, 0, 0, 0));
      count, primary, baseX, baseY, log := 0, NO_PRIMARY, 0, 0, [];
      new;
      assert contacts[..] == ATTACHED.contacts;
      assert Active(ATTACHED.contacts) == {};
    }

    /** The scan for the remaining contact. */
    method FindActive() returns (i: nat)
      ensures i == FirstActive(contacts[..], 0)
    {
      i := 0;
      while i < contacts.Length && !contacts[i].active
        invariant i <= contacts.Length
        invariant FirstActive(contacts[..], i) == FirstActive(contacts[..], 0)
      {
        i := i + 1;
      }
    }

    method TouchDown(c: nat, r: Report)
      requires c < contacts.Length == CONTACTS
      modifies this`count, this`primary, this`baseX, this`baseY, contacts
      ensures Abs() == Press(old(Abs()), c, r)
    {
      contacts[c] := Contact(true, r.session, r.x, r.y);
      count := count + 1;
      if count == 1 {
        primary, baseX, baseY := c, r.x, r.y;
      } else if count == 2 {
        primary := NO_PRIMARY;
      }
    }

    method TouchUp(c: nat)
      requires c < contacts.Length == CONTACTS
      modifies this`count, this`primary, this`baseX, this`baseY, contacts
      ensures Abs() == Lift(old(Abs()), c)
    {
      contacts[c] := contacts[c].(active := false, session := 0);
      if count > 0 {
        count := count - 1;
      }
      if count == 0 {
        primary := NO_PRIMARY;
      } else if count == 1 {
        var i := FindActive();
        if i < contacts.Length {
          primary, baseX, baseY := i, contacts[i].x, contacts[i].y;
        }
      }
    }

    /** inputfs_digitizer_dispatch. */
    method HandleReport(r: Report)
      requires Valid()
      modifies this`count, this`primary, this`baseX, this`baseY, this`log, contacts
      ensures Valid() && Abs() == Dispatch(old(Abs()), r).0
      ensures log == old(log) + Dispatch(old(Abs()), r).1
    {
      DispatchKeepsInv(Abs(), r);
      var c := Clamp(r.cid);
      var was := contacts[c];
      if r.tip && r.firm {
        if !was.active {
          log := log + [Down(c, r.x, r.y, r.session)];
          TouchDown(c, r);
        } else {
          log := log + [Move(c, r.x, r.y, was.session)];
          if count == 1 && primary == c {
            log := log + [Motion(r.x - baseX, r.y - baseY)];
            baseX, baseY := r.x, r.y;
          }
          contacts[c] := was.(x := r.x, y := r.y);
        }
      } else if was.active {
        log := log + [Up(c, was.x, was.y, was.session)];
        TouchUp(c);
      }
    }
  }
}
