/**
 Who keeps a stream running: the exclusive cdev open, the test-tone tunable, and the
 SET_FORMAT restart. Each entry point is one step; hardware configuration may fail in any
 stream_begin.
 */
module Lifecycle {
  import opened StreamEvents

  const DEFAULT_RATE: nat := 48000

  datatype Source = Sine | User

  /** `resets` counts how often the user ring was emptied. */
  datatype Control = Control(open: bool, active: bool, source: Source, tone: int, rate: nat, log: seq<Event>, resets: nat)

  /** The outcome the caller sees. */
  datatype Outcome = Ok | Busy | Invalid | NoStream | Failed

  /** `beginOk`, `newOk` and `oldOk` are the outcomes of hardware configuration, should it be attempted. */
  datatype Op =
    | OpenDevice(beginOk: bool)
    | CloseDevice
    | SetFormat(rate: nat, supported: bool, newOk: bool, oldOk: bool)
    | SetTone(value: int, beginOk: bool)

  const ATTACHED := Control(false, false, Sine, 0, DEFAULT_RATE, [], 0)

  /** close(2) and ioctl(2) come through an open descriptor. */
  predicate Possible(c: Control, op: Op) {
    (op.CloseDevice? || op.SetFormat?) ==> c.open
  }

  /** stream_begin: refuses a running stream, records the rate, and publishes BEGIN if the hardware comes up. */
  function StreamBegin(c: Control, rate: nat, ok: bool): (Control, Outcome) {
    if c.active then (c, Busy)
    else if !ok then (c.(rate := rate), Failed)
    else (c.(rate := rate, active := true, log := c.log + [Begin]), Ok)
  }

  /** stream_end: refuses a stopped stream, otherwise publishes END. */
  function StreamEnd(c: Control): (Control, Outcome) {
    if !c.active then (c, NoStream) else (c.(active := false, log := c.log + [End]), Ok)
  }

  function Claim(c: Control, beginOk: bool): (Control, Outcome) {
    if c.open then (c, Busy)
    else
      var claimed := c.(open := true, source := User, resets := c.resets + 1);
      if c.active then (claimed, Ok)
      else
        var (begun, r) := StreamBegin(claimed, DEFAULT_RATE, beginOk);
        if r.Ok? then (begun, Ok) else (begun.(open := false, source := Sine), r)
  }

  function Release(c: Control): (Control, Outcome) {
    if c.tone != 0 then (c.(open := false, source := Sine), Ok) else (StreamEnd(c.(open := false)).0, Ok)
  }

  function Reformat(c: Control, rate: nat, supported: bool, newOk: bool, oldOk: bool): (Control, Outcome) {
    if !supported then (c, Invalid)
    else if rate == c.rate then (c, Ok)
    else
      var (ended, r) := StreamEnd(c.(resets := c.resets + 1));
      if !r.Ok? then (ended, r)
      else
        var (begun, b) := StreamBegin(ended, rate, newOk);
        if b.Ok? then (begun.(log := begun.log + [FormatChange]), Ok)
        else (StreamBegin(begun, c.rate, oldOk).0, b)
  }

  function Tone(c: Control, value: int, beginOk: bool): (Control, Outcome) {
    var toned := c.(tone := value);
    if (c.tone == 0) == (value == 0) || c.open then (toned, Ok)
    else if value != 0 then (if c.active then toned else StreamBegin(toned, DEFAULT_RATE, beginOk).0, Ok)
    else (StreamEnd(toned).0, Ok)
  }

  function Apply(c: Control, op: Op): (Control, Outcome) {
    match op
    case OpenDevice(ok) => Claim(c, ok)
    case CloseDevice => Release(c)
    case SetFormat(rate, supported, newOk, oldOk) => Reformat(c, rate, supported, newOk, oldOk)
    case SetTone(value, ok) => Tone(c, value, ok)
  }

  /** A BEGIN without its END is on the log exactly while a stream is active. */
  predicate LogMatches(log: seq<Event>, active: bool) {
    Recognise(log) == (if active then Phase.Open else Phase.Closed)
  }

  /** A stream runs only on someone's behalf, an open device plays user data, and the log is well formed. */
  predicate OnDemand(c: Control) {
    && (c.active ==> c.open || c.tone != 0)
    && (c.open ==> c.source.User?)
    && LogMatches(c.log, c.active)
  }

  lemma BeginKeepsLog(c: Control, rate: nat, ok: bool)
    requires LogMatches(c.log, c.active)
    ensures var d := StreamBegin(c, rate, ok).0; LogMatches(d.log, d.active)
  {
    RecogniseSnoc(c.log, Begin);
  }

  lemma EndKeepsLog(c: Control)
    requires LogMatches(c.log, c.active)
    ensures var d := StreamEnd(c).0; !d.active && LogMatches(d.log, false)
  {
    RecogniseSnoc(c.log, End);
  }

  lemma ReformatKeepsLog(c: Control, op: Op)
    requires LogMatches(c.log, c.active) && op.SetFormat?
    ensures var d := Apply(c, op).0; LogMatches(d.log, d.active)
  {
    if op.supported && op.rate != c.rate && c.active {
      var flushed := c.(resets := c.resets + 1);
      EndKeepsLog(flushed);
      var ended := StreamEnd(flushed).0;
      if op.newOk {
        RestartKeepsLog(ended.log);
      } else {
        BeginKeepsLog(ended.(rate := op.rate), c.rate, op.oldOk);
      }
    }
  }

  lemma RestartKeepsLog(log: seq<Event>)
    requires LogMatches(log, false)
    ensures LogMatches(log + [Begin] + [FormatChange], true)
  {
    RecogniseSnoc(log, Begin);
    RecogniseSnoc(log + [Begin], FormatChange);
  }

  lemma OpKeepsInv(c: Control, op: Op)
    requires OnDemand(c) && Possible(c, op)
    ensures OnDemand(Apply(c, op).0)
  {
    match op
    case OpenDevice(ok) => BeginKeepsLog(c.(open := true, source := User, resets := c.resets + 1), DEFAULT_RATE, ok);
    case CloseDevice => EndKeepsLog(c.(open := false));
    case SetFormat(_, _, _, _) => ReformatKeepsLog(c, op);
    case SetTone(value, ok) =>
      if value == 0 {
        EndKeepsLog(c.(tone := value));
      } else {
        BeginKeepsLog(c.(tone := value), DEFAULT_RATE, ok);
      }
  }

  predicate Legal(c: Control, ops: seq<Op>)
    decreases |ops|
  {
    ops == [] || (Possible(c, ops[0]) && Legal(Apply(c, ops[0]).0, ops[1..]))
  }

  function Run(c: Control, ops: seq<Op>): Control
    requires Legal(c, ops)
    decreases |ops|
  {
    if ops == [] then c else Run(Apply(c, ops[0]).0, ops[1..])
  }

  lemma {:induction false} RunKeepsInv(c: Control, ops: seq<Op>)
    requires OnDemand(c) && Legal(c, ops)
    ensures OnDemand(Run(c, ops))
    decreases |ops|
  {
    if ops != [] {
      OpKeepsInv(c, ops[0]);
      RunKeepsInv(Apply(c, ops[0]).0, ops[1..]);
    }
  }

  /** Over every sequence of opens, closes, format changes and tone toggles, whatever the hardware does. */
  lemma StreamRunsOnlyOnDemand(ops: seq<Op>)
    requires Legal(ATTACHED, ops)
    ensures var c := Run(ATTACHED, ops);
            && (c.active ==> c.open || c.tone != 0)
            && (c.open ==> c.source.User?)
            && LogMatches(c.log, c.active)
  {
    RunKeepsInv(ATTACHED, ops);
  }

  /** After the last close with the tone off, the hardware is quiet and every stream has its END. */
  lemma QuietAfterClose(c: Control)
    requires OnDemand(c) && c.open && c.tone == 0
    ensures var d := Apply(c, CloseDevice).0; !d.open && !d.active && Recognise(d.log) == Phase.Closed
  {
    EndKeepsLog(c.(open := false));
  }

  // ------------------------------------------------------------------------------------
  // What each entry point does, case by case.
  // ------------------------------------------------------------------------------------

  /** A successful open leaves a stream running for the user, with BEGIN on the log if it was not; a failed one changes no stream. */
  lemma OpenStartsAStream(c: Control, beginOk: bool)
    ensures var (d, r) := Claim(c, beginOk);
            && (r.Ok? <==> !c.open && (c.active || beginOk))
            && (r.Ok? ==> d.open && d.active && d.source.User? && d.log == c.log + if c.active then [] else [Begin])
            && (!r.Ok? ==> d.open == c.open && d.active == c.active && d.log == c.log)
            && (c.open ==> r.Busy? && d == c)
            && (!c.open && !r.Ok? ==> r.Failed? && d.source.Sine?)
            && (!c.open && !c.active ==> d.rate == DEFAULT_RATE) && (c.active ==> d.rate == c.rate)
  {
  }

  /** Closing falls back to the tone if it is on, and ends the stream otherwise. */
  lemma CloseStopsUnlessTone(c: Control)
    ensures var d := Release(c).0;
            && !d.open && d.tone == c.tone
            && (c.tone != 0 ==> d.source.Sine? && d.active == c.active && d.log == c.log)
            && (c.tone == 0 ==> !d.active && d.log == c.log + if c.active then [End] else [])
  {
  }

  /** A format change is nothing, a refusal, a restart at the new rate with its three events, or a fallback to the old rate. */
  lemma ReformatRestarts(c: Control, rate: nat, supported: bool, newOk: bool, oldOk: bool)
    ensures var (d, r) := Reformat(c, rate, supported, newOk, oldOk);
            && (!supported ==> r.Invalid? && d == c)
            && (supported && rate == c.rate ==> r.Ok? && d == c)
            && (supported && rate != c.rate && !c.active ==>
                  r.NoStream? && !d.active && d.rate == c.rate && d.log == c.log)
            && (supported && rate != c.rate && c.active && newOk ==>
                  r.Ok? && d.active && d.rate == rate && d.log == c.log + [End, Begin, FormatChange])
            && (supported && rate != c.rate && c.active && !newOk ==>
                  r.Failed? && d.active == oldOk && d.rate == c.rate && d.log == c.log + [End] + if oldOk then [Begin] else [])
  {
  }

  /** Only a toggle does anything, and only to a closed device. */
  lemma ToneToggles(c: Control, value: int, beginOk: bool)
    ensures var d := Tone(c, value, beginOk).0;
            var toggled := (c.tone == 0) != (value == 0);
            && d.tone == value && d.open == c.open && d.source == c.source
            && (!toggled || c.open ==> d.active == c.active && d.log == c.log)
            && (toggled && !c.open && value != 0 ==>
                  d.active == (c.active || beginOk) && d.log == c.log + if d.active && !c.active then [Begin] else [])
            && (toggled && !c.open && value == 0 ==> !d.active && d.log == c.log + if c.active then [End] else [])
  {
  }

  class Softc {
    var cdevOpen: bool
    var active: bool
    var source: Source
    var testTone: int
    var rate: nat
    var events: seq<Event>
    var ringResets: nat

    ghost function Abs(): Control
      reads this
    {
      Control(cdevOpen, active, source, testTone, rate, events, ringResets)
    }

    constructor ()
      ensures Abs() == ATTACHED
    {
      cdevOpen, active, source, testTone, rate, events, ringResets := false, false, Sine, 0, DEFAULT_RATE, [], 0;
    }

    method Begin(newRate: nat, ok: bool) returns (r: Outcome)
      modifies this
      ensures (Abs(), r) == StreamBegin(old(Abs()), newRate, ok)
    {
      if active { return Busy; }
      rate := newRate;
      if !ok { return Failed; }
      events := events + [Event.Begin];
      active := true;
      return Ok;
    }

    method End() returns (r: Outcome)
      modifies this
      ensures (Abs(), r) == StreamEnd(old(Abs()))
    {
      if !active { return NoStream; }
      active := false;
      events := events + [Event.End];
      return Ok;
    }

    /** audiofs_cdev_open: claim the device, swap the source, and start the stream if none is running. */
    method OpenDevice(beginOk: bool) returns (r: Outcome)
      requires OnDemand(Abs())
      modifies this
      ensures OnDemand(Abs()) && (Abs(), r) == Claim(old(Abs()), beginOk)
      ensures r.Ok? <==> !old(cdevOpen) && (old(active) || beginOk)
    {
      OpKeepsInv(Abs(), Op.OpenDevice(beginOk));
      if cdevOpen { return Busy; }
      cdevOpen := true;
      var needsBegin := !active;
      source, ringResets := User, ringResets + 1;
      if needsBegin {
        r := Begin(DEFAULT_RATE, beginOk);
        if !r.Ok? {
          cdevOpen := false;
          source := Sine;
          return;
        }
      }
      return Ok;
    }

    /** audiofs_cdev_close: fall back to the tone if it is wanted, otherwise stop. */
    method CloseDevice() returns (r: Outcome)
      requires OnDemand(Abs()) && cdevOpen
      modifies this
      ensures OnDemand(Abs()) && (Abs(), r) == Release(old(Abs()))
      ensures !cdevOpen && active == (old(active) && testTone != 0)
    {
      OpKeepsInv(Abs(), Op.CloseDevice);
      cdevOpen := false;
      if testTone != 0 {
        source := Sine;
      } else {
        var _ := End();
      }
      return Ok;
    }

    /** SET_FORMAT: stop, restart at the new rate, fall back to the old one. */
    method SetFormat(newRate: nat, supported: bool, newOk: bool, oldOk: bool) returns (r: Outcome)
      requires OnDemand(Abs()) && cdevOpen
      modifies this
      ensures OnDemand(Abs()) && (Abs(), r) == Reformat(old(Abs()), newRate, supported, newOk, oldOk)
      ensures r.Ok? ==> rate == newRate && active == old(active)
      ensures ringResets == old(ringResets) + if supported && newRate != old(rate) then 1 else 0
    {
      OpKeepsInv(Abs(), Op.SetFormat(newRate, supported, newOk, oldOk));
      if !supported { return Invalid; }
      if newRate == rate { return Ok; }
      var oldRate := rate;
      ringResets := ringResets + 1;
      r := End();
      if !r.Ok? { return; }
      r := Begin(newRate, newOk);
      if !r.Ok? {
        var _ := Begin(oldRate, oldOk);
        return;
      }
      events := events + [FormatChange];
    }

    /** The test_tone sysctl, for this controller: an open device keeps its stream. */
    method SetTone(value: int, beginOk: bool)
      requires OnDemand(Abs())
      modifies this
      ensures OnDemand(Abs()) && Abs() == Tone(old(Abs()), value, beginOk).0
    {
      OpKeepsInv(Abs(), Op.SetTone(value, beginOk));
      var prev := testTone;
      testTone := value;
      if (prev == 0) == (value == 0) || cdevOpen { return; }
      if value != 0 && !active {
        var _ := Begin(DEFAULT_RATE, beginOk);
      } else if value == 0 && active {
        var _ := End();
      }
    }
  }
}
