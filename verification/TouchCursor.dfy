/**
 Touch reports and the shared pointer together. What is published is the touch events and,
 for each motion the contact machine synthesises, the pointer events it causes: the delta
 on the wire is the one that took effect after clamping. The observer sees only that.
 */
module TouchCursor {
  import Touch
  import Pointer

  /** A report, and the focus file as it was cached when the report came. */
  datatype Input = Input(report: Touch.Report, focus: Pointer.Focus)

  datatype Event = Finger(t: Touch.Event) | Cursor(c: Pointer.Event)

  datatype State = State(pad: Touch.Pad, at: Pointer.Pointer)

  function Cursors(events: seq<Pointer.Event>): seq<Event> {
    seq(|events|, i requires 0 <= i < |events| => Cursor(events[i]))
  }

  /** One report: the contact machine, and then the pointer if a motion was synthesised. */
  function Handle(g: Pointer.Screen, s: State, input: Input): (State, seq<Event>)
    requires |s.pad.contacts| == Touch.CONTACTS
  {
    var (pad, events) := Touch.Dispatch(s.pad, input.report);
    if |events| == 2 && events[1].Motion? then
      var (at, moved) := Pointer.Handle(g, s.at, Pointer.Touch(events[1].dx, events[1].dy, input.focus));
      (State(pad, at), [Finger(events[0])] + Cursors(moved))
    else if |events| == 1 then (State(pad, s.at), [Finger(events[0])])
    else (State(pad, s.at), [])
  }

  /** The synthesised motion does not overflow the pointer's 32 bits. */
  predicate Fits(s: State, input: Input)
    requires |s.pad.contacts| == Touch.CONTACTS
  {
    var (_, events) := Touch.Dispatch(s.pad, input.report);
    |events| == 2 && events[1].Motion? ==> Pointer.Fits(s.at, Pointer.Touch(events[1].dx, events[1].dy, input.focus))
  }

  // ------------------------------------------------------------------------------------
  // The observer: fingers, pointer, and a motion that the last move still owes.
  // ------------------------------------------------------------------------------------

  datatype View = Lost | View(fingers: map<nat, Touch.Finger>, owed: Touch.Owed, at: Pointer.Pointer)

  function See(g: Pointer.Screen, v: View, e: Event): View {
    if v.Lost? then Lost else
    match e
    case Finger(t) =>
      (match Touch.See(Touch.View(v.fingers, v.owed), t)
       case Lost => Lost
       case View(fingers, owed) => if t.Motion? then Lost else View(fingers, owed, v.at))
    case Cursor(c) =>
      (match Pointer.See(Pointer.Seen(v.at), c)
       case Lost => Lost
       case Seen(at) =>
         if v.owed.Nothing? then Lost
         else if !c.Motion? then v.(at := at)
         else if (c.x, c.y) == Pointer.Confine(g, v.at.x + v.owed.dx, v.at.y + v.owed.dy)
         then View(v.fingers, Touch.Nothing, at)
         else Lost)
  }

  function Watch(g: Pointer.Screen, v: View, log: seq<Event>): View
    decreases |log|
  {
    if log == [] then v else Watch(g, See(g, v, log[0]), log[1..])
  }

  lemma {:induction false} WatchConcat(g: Pointer.Screen, v: View, a: seq<Event>, b: seq<Event>)
    ensures Watch(g, v, a + b) == Watch(g, Watch(g, v, a), b)
    decreases |a|
  {
    if a == [] {
      assert a + b == b;
    } else {
      assert (a + b)[0] == a[0] && (a + b)[1..] == a[1..] + b;
      WatchConcat(g, See(g, v, a[0]), a[1..], b);
    }
  }

  lemma WatchOne(g: Pointer.Screen, v: View, e: Event)
    ensures Watch(g, v, [e]) == See(g, v, e)
  {
    assert [e][1..] == [];
    assert Watch(g, See(g, v, e), []) == See(g, v, e);
  }

  function ViewOf(s: State): View {
    View(Touch.Fingers(s.pad), Touch.Nothing, s.at)
  }

  /** Enters and leaves move the observer's session and leave the owed motion owed. */
  lemma {:induction false} WatchCrossings(g: Pointer.Screen, v: View, events: seq<Pointer.Event>, at: Pointer.Pointer)
    requires v.View? && v.owed.Owes? && forall i | 0 <= i < |events| :: !events[i].Motion?
    requires Pointer.Watch(Pointer.Seen(v.at), events) == Pointer.Seen(at)
    ensures Watch(g, v, Cursors(events)) == v.(at := at)
    decreases |events|
  {
    if events != [] {
      var next := Pointer.See(Pointer.Seen(v.at), events[0]);
      Pointer.LostStaysLost(next, events[1..]);
      assert Cursors(events)[1..] == Cursors(events[1..]);
      WatchCrossings(g, v.(at := next.at), events[1..], at);
    }
  }

  /** The pointer events of one synthesised motion settle what the move owed. */
  lemma WatchMotion(g: Pointer.Screen, v: View, r: Pointer.Report)
    requires v.View? && r.Touch? && v.owed == Touch.Owes(r.dx, r.dy)
    ensures var (at, moved) := Pointer.Handle(g, v.at, r);
            Watch(g, v, Cursors(moved)) == View(v.fingers, Touch.Nothing, at)
  {
    var (at, moved) := Pointer.Handle(g, v.at, r);
    var crossing := Pointer.Crossing(v.at, at.x, at.y, at.session);
    var motion := Pointer.Motion(at.x, at.y, at.x - v.at.x, at.y - v.at.y, at.session);
    Pointer.WatchCrossing(v.at, at.x, at.y, at.session);
    WatchCrossings(g, v, crossing, v.at.(session := at.session));
    WatchConcat(g, v, Cursors(crossing), [Cursor(motion)]);
    WatchOne(g, v.(at := v.at.(session := at.session)), Cursor(motion));
    assert Cursors(moved) == Cursors(crossing) + [Cursor(motion)];
  }

  predicate Inv(g: Pointer.Screen, s: State) {
    Touch.Inv(s.pad) && Pointer.Sane(g) && Pointer.OnScreen(g, s.at)
  }

  lemma FingerSeen(g: Pointer.Screen, s: State, e: Touch.Event)
    requires !e.Motion? && Touch.See(Touch.ViewOf(s.pad), e).View?
    ensures var v := Touch.See(Touch.ViewOf(s.pad), e); See(g, ViewOf(s), Finger(e)) == View(v.fingers, v.owed, s.at)
  {
  }

  /** A move that is followed by a motion. */
  lemma MoveThenMotion(g: Pointer.Screen, s: State, input: Input)
    requires Inv(g, s) && |Touch.Dispatch(s.pad, input.report).1| == 2
    ensures Watch(g, ViewOf(s), Handle(g, s, input).1) == ViewOf(Handle(g, s, input).0)
  {
    var r, c := input.report, Touch.Clamp(input.report.cid);
    var (pad, events) := Touch.Dispatch(s.pad, r);
    Touch.DragKeepsInv(s.pad, c, r);
    var motion := Pointer.Touch(events[1].dx, events[1].dy, input.focus);
    var moved := Pointer.Handle(g, s.at, motion).1;
    FingerSeen(g, s, events[0]);
    var v := See(g, ViewOf(s), Finger(events[0]));
    WatchOne(g, ViewOf(s), Finger(events[0]));
    WatchConcat(g, ViewOf(s), [Finger(events[0])], Cursors(moved));
    WatchMotion(g, v, motion);
  }

  lemma OneFingerEvent(g: Pointer.Screen, s: State, input: Input)
    requires Inv(g, s) && |Touch.Dispatch(s.pad, input.report).1| == 1
    ensures Watch(g, ViewOf(s), Handle(g, s, input).1) == ViewOf(Handle(g, s, input).0)
  {
    var (pad, events) := Touch.Dispatch(s.pad, input.report);
    Touch.DispatchKeepsInv(s.pad, input.report);
    Touch.WatchMove(Touch.ViewOf(s.pad), events);
    FingerSeen(g, s, events[0]);
    WatchOne(g, ViewOf(s), Finger(events[0]));
  }

  lemma HandleKeepsInv(g: Pointer.Screen, s: State, input: Input)
    requires Inv(g, s) && Fits(s, input)
    ensures Inv(g, Handle(g, s, input).0)
    ensures Watch(g, ViewOf(s), Handle(g, s, input).1) == ViewOf(Handle(g, s, input).0)
  {
    var (pad, events) := Touch.Dispatch(s.pad, input.report);
    Touch.DispatchKeepsInv(s.pad, input.report);
    if |events| == 2 {
      Pointer.HandleKeepsView(g, s.at, Pointer.Touch(events[1].dx, events[1].dy, input.focus));
      MoveThenMotion(g, s, input);
    } else if |events| == 1 {
      OneFingerEvent(g, s, input);
    } else {
      assert Handle(g, s, input).0 == State(pad, s.at);
    }
  }

  // ------------------------------------------------------------------------------------
  // Whole report sequences.
  // ------------------------------------------------------------------------------------

  function Run(g: Pointer.Screen, s: State, inputs: seq<Input>): (State, seq<Event>)
    requires |s.pad.contacts| == Touch.CONTACTS
    decreases |inputs|
  {
    if inputs == [] then (s, [])
    else
      var (t, events) := Handle(g, s, inputs[0]);
      var (last, rest) := Run(g, t, inputs[1..]);
      (last, events + rest)
  }

  predicate AllFit(g: Pointer.Screen, s: State, inputs: seq<Input>)
    requires |s.pad.contacts| == Touch.CONTACTS
    decreases |inputs|
  {
    inputs == [] || (Fits(s, inputs[0]) && AllFit(g, Handle(g, s, inputs[0]).0, inputs[1..]))
  }

  lemma {:induction false} RunKeepsView(g: Pointer.Screen, s: State, inputs: seq<Input>)
    requires Inv(g, s) && AllFit(g, s, inputs)
    ensures var (t, log) := Run(g, s, inputs); Inv(g, t) && Watch(g, ViewOf(s), log) == ViewOf(t)
    decreases |inputs|
  {
    if inputs != [] {
      HandleKeepsInv(g, s, inputs[0]);
      var (t, events) := Handle(g, s, inputs[0]);
      RunKeepsView(g, t, inputs[1..]);
      WatchConcat(g, ViewOf(s), events, Run(g, t, inputs[1..]).1);
    }
  }

  function Reports(inputs: seq<Input>): seq<Touch.Report> {
    seq(|inputs|, i requires 0 <= i < |inputs| => inputs[i].report)
  }

  lemma {:induction false} PadRuns(g: Pointer.Screen, s: State, inputs: seq<Input>)
    requires |s.pad.contacts| == Touch.CONTACTS
    ensures Run(g, s, inputs).0.pad == Touch.Run(s.pad, Reports(inputs)).0
    decreases |inputs|
  {
    if inputs != [] {
      PadRuns(g, Handle(g, s, inputs[0]).0, inputs[1..]);
      assert Reports(inputs)[1..] == Reports(inputs[1..]);
    }
  }

  /**
   Over every sequence of touch reports, an observer of the published events alone follows
   contacts, pointer and session, and its contacts are the ones reported: per contact (DOWN MOVE* UP)* with one session and the last
   position on UP; after each move of a sole contact, and never otherwise, the crossings and
   one motion that lands where the contact's displacement leads, clamped to the screen.
   */
  lemma PublishedEventsTellAll(g: Pointer.Screen, seed: Pointer.Pointer, inputs: seq<Input>)
    requires Pointer.Sane(g) && Pointer.OnScreen(g, seed) && AllFit(g, State(Touch.ATTACHED, seed), inputs)
    ensures var (s, log) := Run(g, State(Touch.ATTACHED, seed), inputs);
            && Inv(g, s) && Watch(g, View(map[], Touch.Nothing, seed), log) == ViewOf(s)
            && ViewOf(s).fingers == Touch.Reported(Reports(inputs))
  {
    Touch.AttachedHoldsInv();
    PadRuns(g, State(Touch.ATTACHED, seed), inputs);
    Touch.ContactsAreWhatWasReported(Reports(inputs));
    RunKeepsView(g, State(Touch.ATTACHED, seed), inputs);
  }
}
