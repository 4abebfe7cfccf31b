/**
 The keyboard diff emitter: each boot-layout report (a modifier byte and six usages, as in
 Appendix B.1 of the HID 1.11 specification) is compared with the previous one as a set, and
 every change becomes one key event. Replaying the events is the reference.
 */
module Keyboard {

  const SLOTS: nat := 6
  const FIRST_MODIFIER: nat := 0xE0

  type Usage = u: nat | u < 256

  /** One report: the modifier byte and the six usage slots. */
  datatype Report = Report(mods: bv8, keys: seq<Usage>)

  /** Every event carries the modifier byte of the report that caused it. */
  datatype KeyEvent = KeyEvent(down: bool, usage: nat, mods: bv8)

  const RELEASED := Report(0, [0, 0, 0, 0, 0, 0])

  predicate WellFormed(r: Report) {
    |r.keys| == SLOTS
  }

  function Mask(b: nat): (m: bv8)
    requires b < 8
    ensures m == (1 as bv8) << b
  {
    match b case 0 => 1 case 1 => 2 case 2 => 4 case 3 => 8 case 4 => 16 case 5 => 32 case 6 => 64 case 7 => 128
  }

  predicate Bit(m: bv8, b: nat)
    requires b < 8
  {
    m & Mask(b) != 0
  }

  /** The bits set in a modifier byte. */
  function Bits(m: bv8): set<nat> {
    set b: nat | b < 8 && Bit(m, b)
  }

  /** 0x00 is an empty slot and 0x01..0x03 are rollover codes; none of them is a key. */
  predicate KeyInSet(u: Usage, set_: seq<Usage>) {
    u <= 3 || u in set_
  }

  /** One event per modifier in `from` and not in `to`, from bit `b` up. */
  function ModEvents(from: set<nat>, to: set<nat>, down: bool, mods: bv8, b: nat): seq<KeyEvent>
    requires b <= 8
    decreases |from|, 8 - b
  {
    if b == 8 then []
    else (if b in from && b !in to then [KeyEvent(down, FIRST_MODIFIER + b, mods)] else [])
         + ModEvents(from, to, down, mods, b + 1)
  }

  /** One event per slot of `from` that holds a key not in `to`. */
  function KeyEvents(from: seq<Usage>, to: seq<Usage>, down: bool, mods: bv8): seq<KeyEvent>
    decreases |from|
  {
    if from == [] then []
    else (if KeyInSet(from[0], to) then [] else [KeyEvent(down, from[0], mods)])
         + KeyEvents(from[1..], to, down, mods)
  }

  function Ups(prev: Report, cur: Report): seq<KeyEvent> {
    ModEvents(Bits(prev.mods), Bits(cur.mods), false, cur.mods, 0) + KeyEvents(prev.keys, cur.keys, false, cur.mods)
  }

  function Downs(prev: Report, cur: Report): seq<KeyEvent> {
    ModEvents(Bits(cur.mods), Bits(prev.mods), true, cur.mods, 0) + KeyEvents(cur.keys, prev.keys, true, cur.mods)
  }

  function Diff(prev: Report, cur: Report): seq<KeyEvent> {
    Ups(prev, cur) + Downs(prev, cur)
  }

  // ------------------------------------------------------------------------------------
  // The reference: the set of usages a consumer holds down after replaying the events.
  // ------------------------------------------------------------------------------------

  function Press(held: set<nat>, e: KeyEvent): set<nat> {
    if e.down then held + {e.usage} else held - {e.usage}
  }

  function Replay(held: set<nat>, log: seq<KeyEvent>): set<nat>
    decreases |log|
  {
    if log == [] then held else Replay(Press(held, log[0]), log[1..])
  }

  /** Down only when up, up only when down. */
  predicate Alternates(held: set<nat>, log: seq<KeyEvent>)
    decreases |log|
  {
    log == [] || (log[0].down == (log[0].usage !in held) && Alternates(Press(held, log[0]), log[1..]))
  }

  function ModSet(m: bv8): set<nat> {
    set b | b in Bits(m) :: FIRST_MODIFIER + b
  }

  function KeySet(keys: seq<Usage>): set<nat> {
    set u | u in keys && u > 3
  }

  /** What a report says is held. */
  function Held(r: Report): set<nat> {
    ModSet(r.mods) + KeySet(r.keys)
  }

  function Usages(log: seq<KeyEvent>): set<nat> {
    set i | 0 <= i < |log| :: log[i].usage
  }

  lemma UsagesCons(e: KeyEvent, log: seq<KeyEvent>)
    ensures Usages([e] + log) == {e.usage} + Usages(log)
  {
    forall u | u in {e.usage} + Usages(log)
      ensures u in Usages([e] + log)
    {
      if u in Usages(log) {
        var i :| 0 <= i < |log| && log[i].usage == u;
        assert ([e] + log)[i + 1].usage == u;
      } else {
        assert ([e] + log)[0].usage == u;
      }
    }
  }

  lemma {:induction false} ReplayConcat(held: set<nat>, a: seq<KeyEvent>, b: seq<KeyEvent>)
    ensures Replay(held, a + b) == Replay(Replay(held, a), b)
    ensures Alternates(held, a + b) <==> Alternates(held, a) && Alternates(Replay(held, a), b)
    decreases |a|
  {
    if a == [] {
      assert a + b == b;
    } else {
      assert (a + b)[0] == a[0] && (a + b)[1..] == a[1..] + b;
      ReplayConcat(Press(held, a[0]), a[1..], b);
    }
  }

  /** Events of one direction add or remove their usages, whatever the order and repetition. */
  lemma {:induction false} ReplayOneWay(held: set<nat>, log: seq<KeyEvent>, down: bool)
    requires forall e | e in log :: e.down == down
    ensures Replay(held, log) == if down then held + Usages(log) else held - Usages(log)
    decreases |log|
  {
    if log != [] {
      ReplayOneWay(Press(held, log[0]), log[1..], down);
      UsagesCons(log[0], log[1..]);
      assert [log[0]] + log[1..] == log;
    }
  }

  /** And they alternate exactly when no usage repeats and all start on the other side. */
  lemma {:induction false} AlternatesOneWay(held: set<nat>, log: seq<KeyEvent>, down: bool)
    requires forall e | e in log :: e.down == down
    requires forall e | e in log :: down == (e.usage !in held)
    ensures Alternates(held, log) <==> forall i, j | 0 <= i < j < |log| :: log[i].usage != log[j].usage
    decreases |log|
  {
    if log != [] {
      var next := Press(held, log[0]);
      if forall e | e in log[1..] :: e.usage != log[0].usage {
        assert forall e | e in log[1..] :: down == (e.usage !in next);
        AlternatesOneWay(next, log[1..], down);
        assert forall j | 0 < j < |log| :: log[j] in log[1..];
      } else {
        var e :| e in log[1..] && e.usage == log[0].usage;
        var k :| 0 <= k < |log[1..]| && log[1..][k] == e;
        assert log[0].usage == log[k + 1].usage;
        StuckKeyFails(next, log[1..], k, down);
      }
    }
  }

  lemma {:induction false} StuckKeyFails(held: set<nat>, log: seq<KeyEvent>, k: nat, down: bool)
    requires k < |log| && forall e | e in log :: e.down == down
    requires down == (log[k].usage in held)
    ensures !Alternates(held, log)
    decreases k
  {
    if k > 0 {
      assert log[1..][k - 1] == log[k];
      StuckKeyFails(Press(held, log[0]), log[1..], k - 1, down);
    }
  }

  // ------------------------------------------------------------------------------------
  // What one diff emits.
  // ------------------------------------------------------------------------------------

  function ModsFrom(from: set<nat>, to: set<nat>, b: nat): set<nat> {
    set c: nat | b <= c < 8 && c in from && c !in to :: FIRST_MODIFIER + c
  }

  lemma {:induction false} ModEventsSpec(from: set<nat>, to: set<nat>, down: bool, mods: bv8, b: nat)
    requires b <= 8
    ensures var log := ModEvents(from, to, down, mods, b);
            && (forall e | e in log :: e.down == down)
            && Usages(log) == ModsFrom(from, to, b)
            && (forall i, j | 0 <= i < j < |log| :: log[i].usage != log[j].usage)
    decreases 8 - b
  {
    if b < 8 {
      ModEventsSpec(from, to, down, mods, b + 1);
      var rest := ModEvents(from, to, down, mods, b + 1);
      if b in from && b !in to {
        UsagesCons(KeyEvent(down, FIRST_MODIFIER + b, mods), rest);
        forall i | 0 <= i < |rest|
          ensures rest[i].usage != FIRST_MODIFIER + b
        {
          assert rest[i].usage in Usages(rest);
        }
      } else {
        assert ModEvents(from, to, down, mods, b) == rest;
      }
    }
  }

  lemma {:induction false} KeyEventsSpec(from: seq<Usage>, to: seq<Usage>, down: bool, mods: bv8)
    ensures var log := KeyEvents(from, to, down, mods);
            && (forall e | e in log :: e.down == down)
            && Usages(log) == KeySet(from) - KeySet(to)
    decreases |from|
  {
    if from != [] {
      KeyEventsSpec(from[1..], to, down, mods);
      var rest := KeyEvents(from[1..], to, down, mods);
      if KeyInSet(from[0], to) {
        assert KeyEvents(from, to, down, mods) == rest;
      } else {
        UsagesCons(KeyEvent(down, from[0], mods), rest);
      }
    }
  }

  predicate Distinct(log: seq<KeyEvent>) {
    forall i, j | 0 <= i < j < |log| :: log[i].usage != log[j].usage
  }

  /** No key that `to` lacks fills two slots of `from`. */
  predicate NoRepeats(from: seq<Usage>, to: seq<Usage>) {
    forall i, j | 0 <= i < j < |from| :: from[i] == from[j] ==> KeyInSet(from[i], to)
  }

  lemma NoRepeatsCons(from: seq<Usage>, to: seq<Usage>)
    requires from != []
    ensures NoRepeats(from, to) <==> NoRepeats(from[1..], to) && (from[0] in from[1..] ==> KeyInSet(from[0], to))
  {
    if from[0] in from[1..] {
      var k :| 0 <= k < |from[1..]| && from[1..][k] == from[0];
      assert from[k + 1] == from[0];
    }
    if NoRepeats(from[1..], to) && (from[0] in from[1..] ==> KeyInSet(from[0], to)) {
      forall i, j | 0 <= i < j < |from| && from[i] == from[j]
        ensures KeyInSet(from[i], to)
      {
        assert from[j] == from[1..][j - 1];
        if i > 0 {
          assert from[i] == from[1..][i - 1];
        }
      }
    }
    if NoRepeats(from, to) {
      forall i, j | 0 <= i < j < |from[1..]| && from[1..][i] == from[1..][j]
        ensures KeyInSet(from[1..][i], to)
      {
        assert from[i + 1] == from[j + 1];
      }
    }
  }

  lemma DistinctCons(e: KeyEvent, log: seq<KeyEvent>)
    ensures Distinct([e] + log) <==> Distinct(log) && e.usage !in Usages(log)
  {
    var all := [e] + log;
    if Distinct(all) {
      forall i, j | 0 <= i < j < |log|
        ensures log[i].usage != log[j].usage
      {
        assert all[i + 1].usage != all[j + 1].usage;
      }
      forall i | 0 <= i < |log|
        ensures log[i].usage != e.usage
      {
        assert all[0].usage != all[i + 1].usage;
      }
    }
  }

  lemma {:induction false} KeyEventsDistinct(from: seq<Usage>, to: seq<Usage>, down: bool, mods: bv8)
    ensures Distinct(KeyEvents(from, to, down, mods)) <==> NoRepeats(from, to)
    decreases |from|
  {
    if from != [] {
      KeyEventsDistinct(from[1..], to, down, mods);
      KeyEventsSpec(from[1..], to, down, mods);
      NoRepeatsCons(from, to);
      var rest := KeyEvents(from[1..], to, down, mods);
      if KeyInSet(from[0], to) {
        assert KeyEvents(from, to, down, mods) == rest;
      } else {
        DistinctCons(KeyEvent(down, from[0], mods), rest);
      }
    }
  }

  lemma ModsFromZero(from: bv8, to: bv8)
    ensures ModsFrom(Bits(from), Bits(to), 0) == ModSet(from) - ModSet(to)
  {
  }

  // ------------------------------------------------------------------------------------
  // Replay and alternation, for one report and for every sequence of reports.
  // ------------------------------------------------------------------------------------

  /** The layout puts modifiers in the modifier byte: array usages lie below 0xE0. */
  predicate Boot(r: Report) {
    WellFormed(r) && forall u | u in r.keys :: u < FIRST_MODIFIER
  }

  lemma KeysBelowModifiers(a: Report, b: Report)
    requires Boot(a)
    ensures KeySet(a.keys) !! ModSet(b.mods)
  {
  }

  lemma ReplayUps(prev: Report, cur: Report)
    ensures Replay(Held(prev), Ups(prev, cur))
         == Held(prev) - (ModSet(prev.mods) - ModSet(cur.mods)) - (KeySet(prev.keys) - KeySet(cur.keys))
  {
    var m := ModEvents(Bits(prev.mods), Bits(cur.mods), false, cur.mods, 0);
    var k := KeyEvents(prev.keys, cur.keys, false, cur.mods);
    ModEventsSpec(Bits(prev.mods), Bits(cur.mods), false, cur.mods, 0);
    ModsFromZero(prev.mods, cur.mods);
    KeyEventsSpec(prev.keys, cur.keys, false, cur.mods);
    ReplayConcat(Held(prev), m, k);
    ReplayOneWay(Held(prev), m, false);
    ReplayOneWay(Replay(Held(prev), m), k, false);
  }

  lemma ReplayDowns(held: set<nat>, prev: Report, cur: Report)
    ensures Replay(held, Downs(prev, cur))
         == held + (ModSet(cur.mods) - ModSet(prev.mods)) + (KeySet(cur.keys) - KeySet(prev.keys))
  {
    var m := ModEvents(Bits(cur.mods), Bits(prev.mods), true, cur.mods, 0);
    var k := KeyEvents(cur.keys, prev.keys, true, cur.mods);
    ModEventsSpec(Bits(cur.mods), Bits(prev.mods), true, cur.mods, 0);
    ModsFromZero(cur.mods, prev.mods);
    KeyEventsSpec(cur.keys, prev.keys, true, cur.mods);
    ReplayConcat(held, m, k);
    ReplayOneWay(held, m, true);
    ReplayOneWay(Replay(held, m), k, true);
  }

  /** No usage is both a modifier that changes and an array key that stays, or the other way round. */
  predicate Unshadowed(prev: Report, cur: Report) {
    && (ModSet(prev.mods) - ModSet(cur.mods)) !! (KeySet(prev.keys) * KeySet(cur.keys))
    && (KeySet(prev.keys) - KeySet(cur.keys)) !! (ModSet(prev.mods) * ModSet(cur.mods))
  }

  /** For arbitrary reports the replay law holds exactly when the two halves do not shadow each other. */
  lemma DiffReplaysIff(prev: Report, cur: Report)
    ensures Replay(Held(prev), Diff(prev, cur)) == Held(cur) <==> Unshadowed(prev, cur)
  {
    ReplayConcat(Held(prev), Ups(prev, cur), Downs(prev, cur));
    ReplayUps(prev, cur);
    ReplayDowns(Replay(Held(prev), Ups(prev, cur)), prev, cur);
    SetDiffLaw(ModSet(prev.mods), KeySet(prev.keys), ModSet(cur.mods), KeySet(cur.keys));
  }

  lemma SetDiffLaw(m: set<nat>, k: set<nat>, n: set<nat>, l: set<nat>)
    ensures (m + k) - (m - n) - (k - l) + (n - m) + (l - k) == n + l <==> (m - n) !! (k * l) && (k - l) !! (m * n)
  {
    var got := (m + k) - (m - n) - (k - l) + (n - m) + (l - k);
    if u :| u in m - n && u in k * l {
      assert u in n + l && u !in got;
    }
    if u :| u in k - l && u in m * n {
      assert u in n + l && u !in got;
    }
  }

  lemma DiffReplays(prev: Report, cur: Report)
    requires Boot(prev) && Boot(cur)
    ensures Replay(Held(prev), Diff(prev, cur)) == Held(cur)
  {
    DiffReplaysIff(prev, cur);
    KeysBelowModifiers(prev, prev);
    KeysBelowModifiers(prev, cur);
    KeysBelowModifiers(cur, prev);
    KeysBelowModifiers(cur, cur);
  }

  lemma UsageInUsages(log: seq<KeyEvent>, e: KeyEvent)
    requires e in log
    ensures e.usage in Usages(log)
  {
    var i :| 0 <= i < |log| && log[i] == e;
  }

  lemma AlternatesWhole(held: set<nat>, log: seq<KeyEvent>, down: bool)
    requires forall e | e in log :: e.down == down
    requires if down then Usages(log) !! held else Usages(log) <= held
    ensures Alternates(held, log) <==> Distinct(log)
  {
    forall e | e in log
      ensures down == (e.usage !in held)
    {
      UsageInUsages(log, e);
    }
    AlternatesOneWay(held, log, down);
  }

  lemma UpsAlternate(prev: Report, cur: Report)
    requires Boot(prev)
    ensures Alternates(Held(prev), Ups(prev, cur)) <==> NoRepeats(prev.keys, cur.keys)
  {
    var m := ModEvents(Bits(prev.mods), Bits(cur.mods), false, cur.mods, 0);
    var k := KeyEvents(prev.keys, cur.keys, false, cur.mods);
    ModEventsSpec(Bits(prev.mods), Bits(cur.mods), false, cur.mods, 0);
    ModsFromZero(prev.mods, cur.mods);
    KeyEventsSpec(prev.keys, cur.keys, false, cur.mods);
    KeyEventsDistinct(prev.keys, cur.keys, false, cur.mods);
    KeysBelowModifiers(prev, prev);
    ReplayConcat(Held(prev), m, k);
    ReplayOneWay(Held(prev), m, false);
    AlternatesWhole(Held(prev), m, false);
    AlternatesWhole(Replay(Held(prev), m), k, false);
  }

  lemma DownsAlternate(held: set<nat>, prev: Report, cur: Report)
    requires Boot(cur)
    requires held !! (ModSet(cur.mods) - ModSet(prev.mods)) && held !! (KeySet(cur.keys) - KeySet(prev.keys))
    ensures Alternates(held, Downs(prev, cur)) <==> NoRepeats(cur.keys, prev.keys)
  {
    var m := ModEvents(Bits(cur.mods), Bits(prev.mods), true, cur.mods, 0);
    var k := KeyEvents(cur.keys, prev.keys, true, cur.mods);
    ModEventsSpec(Bits(cur.mods), Bits(prev.mods), true, cur.mods, 0);
    ModsFromZero(cur.mods, prev.mods);
    KeyEventsSpec(cur.keys, prev.keys, true, cur.mods);
    KeyEventsDistinct(cur.keys, prev.keys, true, cur.mods);
    KeysBelowModifiers(cur, cur);
    ReplayConcat(held, m, k);
    ReplayOneWay(held, m, true);
    AlternatesWhole(held, m, true);
    AlternatesWhole(Replay(held, m), k, true);
  }

  /** One report's events alternate exactly when neither side of the diff repeats a key. */
  lemma DiffAlternatesIff(prev: Report, cur: Report)
    requires Boot(prev) && Boot(cur)
    ensures Alternates(Held(prev), Diff(prev, cur))
       <==> NoRepeats(prev.keys, cur.keys) && NoRepeats(cur.keys, prev.keys)
  {
    ReplayConcat(Held(prev), Ups(prev, cur), Downs(prev, cur));
    UpsAlternate(prev, cur);
    ReplayUps(prev, cur);
    KeysBelowModifiers(prev, cur);
    KeysBelowModifiers(cur, prev);
    DownsAlternate(Replay(Held(prev), Ups(prev, cur)), prev, cur);
  }

  /** Within one report everything is released before anything is pressed. */
  lemma UpsPrecedeDowns(prev: Report, cur: Report, i: nat, j: nat)
    requires i < j < |Diff(prev, cur)| && Diff(prev, cur)[i].down
    ensures Diff(prev, cur)[j].down
  {
    ModEventsSpec(Bits(prev.mods), Bits(cur.mods), false, cur.mods, 0);
    KeyEventsSpec(prev.keys, cur.keys, false, cur.mods);
    ModEventsSpec(Bits(cur.mods), Bits(prev.mods), true, cur.mods, 0);
    KeyEventsSpec(cur.keys, prev.keys, true, cur.mods);
    assert Diff(prev, cur)[i] in Ups(prev, cur) || Diff(prev, cur)[i] in Downs(prev, cur);
    assert i >= |Ups(prev, cur)|;
    assert Diff(prev, cur)[j] in Downs(prev, cur);
  }

  lemma {:induction false} ModEventsStamped(from: set<nat>, to: set<nat>, down: bool, mods: bv8, b: nat)
    requires b <= 8
    ensures forall e | e in ModEvents(from, to, down, mods, b) :: e.mods == mods
    decreases 8 - b
  {
    if b < 8 {
      ModEventsStamped(from, to, down, mods, b + 1);
    }
  }

  lemma {:induction false} KeyEventsStamped(from: seq<Usage>, to: seq<Usage>, down: bool, mods: bv8)
    ensures forall e | e in KeyEvents(from, to, down, mods) :: e.mods == mods
    decreases |from|
  {
    if from != [] {
      KeyEventsStamped(from[1..], to, down, mods);
    }
  }

  /** Every event carries the modifier byte of the report that caused it, releases included. */
  lemma EventsCarryCurrentModifiers(prev: Report, cur: Report)
    ensures forall e | e in Diff(prev, cur) :: e.mods == cur.mods
  {
    ModEventsStamped(Bits(prev.mods), Bits(cur.mods), false, cur.mods, 0);
    KeyEventsStamped(prev.keys, cur.keys, false, cur.mods);
    ModEventsStamped(Bits(cur.mods), Bits(prev.mods), true, cur.mods, 0);
    KeyEventsStamped(cur.keys, prev.keys, true, cur.mods);
  }

  function Log(prev: Report, reports: seq<Report>): seq<KeyEvent>
    decreases |reports|
  {
    if reports == [] then [] else Diff(prev, reports[0]) + Log(reports[0], reports[1..])
  }

  function Last(prev: Report, reports: seq<Report>): Report {
    if reports == [] then prev else reports[|reports| - 1]
  }

  /** Each report against the one before it. */
  predicate NeverRepeats(prev: Report, reports: seq<Report>)
    decreases |reports|
  {
    reports == [] ||
    (NoRepeats(prev.keys, reports[0].keys) && NoRepeats(reports[0].keys, prev.keys)
     && NeverRepeats(reports[0], reports[1..]))
  }

  lemma {:induction false} LogReplays(prev: Report, reports: seq<Report>)
    requires Boot(prev) && forall r | r in reports :: Boot(r)
    ensures Replay(Held(prev), Log(prev, reports)) == Held(Last(prev, reports))
    ensures Alternates(Held(prev), Log(prev, reports)) <==> NeverRepeats(prev, reports)
    decreases |reports|
  {
    if reports != [] {
      DiffReplays(prev, reports[0]);
      DiffAlternatesIff(prev, reports[0]);
      LogReplays(reports[0], reports[1..]);
      ReplayConcat(Held(prev), Diff(prev, reports[0]), Log(reports[0], reports[1..]));
      assert Last(reports[0], reports[1..]) == Last(prev, reports);
    }
  }

  /**
   Over every report sequence from all keys up: replaying the events gives exactly what the
   last report holds, and every key's events strictly alternate if and only if no report
   repeats a key across a change.
   */
  lemma ReplayGivesHeldKeys(reports: seq<Report>)
    requires forall r | r in reports :: Boot(r)
    ensures Replay({}, Log(RELEASED, reports)) == Held(Last(RELEASED, reports))
    ensures Alternates({}, Log(RELEASED, reports)) <==> NeverRepeats(RELEASED, reports)
  {
    assert Held(RELEASED) == {};
    LogReplays(RELEASED, reports);
  }

  /** Outside the layout it can fail: left control in the array, released only in the modifier byte. */
  lemma ModifierInArrayBreaksReplay()
    ensures var keys := [FIRST_MODIFIER, 0, 0, 0, 0, 0];
            Replay(Held(Report(1, keys)), Diff(Report(1, keys), Report(0, keys))) != Held(Report(0, keys))
  {
    var keys := [FIRST_MODIFIER, 0, 0, 0, 0, 0];
    assert Bit(1, 0) && !Bit(0, 0);
    assert 0 in Bits(1) && 0 !in Bits(0);
    assert FIRST_MODIFIER + 0 in ModSet(1) - ModSet(0);
    assert keys[0] in KeySet(keys);
    DiffReplaysIff(Report(1, keys), Report(0, keys));
  }

  // ------------------------------------------------------------------------------------
  // The driver's own state.
  // ------------------------------------------------------------------------------------

  /** The driver's test for a bit of `from` that `to` lacks: changed, and set in `from`. */
  predicate Flipped(from: bv8, to: bv8, b: nat)
    requires b < 8
  {
    (from ^ to) & Mask(b) != 0 && from & Mask(b) != 0
  }

  lemma FlippedIsDifference(from: bv8, to: bv8, b: nat)
    requires b < 8
    ensures Flipped(from, to, b) <==> b in Bits(from) && b !in Bits(to)
  {
  }

  class Emitter {
    var prevMods: bv8
    const prevKeys: array<Usage>
    var log: seq<KeyEvent>

    ghost predicate Valid()
      reads this
    {
      prevKeys.Length == SLOTS
    }

    ghost function Abs(): Report
      reads this, prevKeys
    {
      Report(prevMods, prevKeys[..])
    }

    constructor ()
      ensures Valid() && Abs() == RELEASED && log == [] && fresh(prevKeys)
    {
      prevMods, prevKeys, log := 0, new Usage[SLOTS](_ => 0), [];
    }

    method InSet(u: Usage, keys: seq<Usage>) returns (found: bool)
      ensures found == KeyInSet(u, keys)
    {
      if u <= 3 {
        return true;
      }
      for i := 0 to |keys|
        invariant u !in keys[..i]
      {
        if keys[i] == u {
          return true;
        }
      }
      return false;
    }

    method TestBit(from: bv8, to: bv8, b: nat) returns (hit: bool)
      requires b < 8
      ensures hit <==> b in Bits(from) && b !in Bits(to)
    {
      FlippedIsDifference(from, to, b);
      hit := Flipped(from, to, b);
    }

    method EmitModifiers(from: bv8, to: bv8, down: bool, mods: bv8)
      modifies this`log
      ensures log == old(log) + ModEvents(Bits(from), Bits(to), down, mods, 0)
    {
      ghost var f, t := Bits(from), Bits(to);
      ghost var goal := log + ModEvents(f, t, down, mods, 0);
      for bit := 0 to 8
        invariant log + ModEvents(f, t, down, mods, bit) == goal
      {
        var hit := TestBit(from, to, bit);
        if hit {
          log := log + [KeyEvent(down, FIRST_MODIFIER + bit, mods)];
        }
      }
    }

    method EmitKeys(from: seq<Usage>, to: seq<Usage>, down: bool, mods: bv8)
      modifies this`log
      ensures log == old(log) + KeyEvents(from, to, down, mods)
    {
      ghost var all := KeyEvents(from, to, down, mods);
      for i := 0 to |from|
        invariant log + KeyEvents(from[i..], to, down, mods) == old(log) + all
      {
        assert from[i..][1..] == from[i + 1..];
        var known := InSet(from[i], to);
        if !known {
          log := log + [KeyEvent(down, from[i], mods)];
        }
      }
    }

    method EmitUps(cur: Report)
      modifies this`log
      ensures log == old(log) + Ups(Abs(), cur)
    {
      EmitModifiers(prevMods, cur.mods, false, cur.mods);
      EmitKeys(prevKeys[..], cur.keys, false, cur.mods);
    }

    method EmitDowns(cur: Report)
      modifies this`log
      ensures log == old(log) + Downs(Abs(), cur)
    {
      EmitModifiers(cur.mods, prevMods, true, cur.mods);
      EmitKeys(cur.keys, prevKeys[..], true, cur.mods);
    }

    method Remember(cur: Report)
      requires Valid() && WellFormed(cur)
      modifies this`prevMods, prevKeys
      ensures Abs() == cur
    {
      prevMods := cur.mods;
      for i := 0 to SLOTS
        invariant prevMods == cur.mods && prevKeys[..i] == cur.keys[..i]
      {
        prevKeys[i] := cur.keys[i];
      }
      assert prevKeys[..] == prevKeys[..SLOTS] == cur.keys;
    }

    /** inputfs_keyboard_diff_emit. */
    method DiffEmit(cur: Report)
      requires Valid() && WellFormed(cur)
      modifies this`prevMods, this`log, prevKeys
      ensures Abs() == cur
      ensures log == old(log) + Diff(old(Abs()), cur)
    {
      EmitUps(cur);
      EmitDowns(cur);
      Remember(cur);
    }
  }
}
