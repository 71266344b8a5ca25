/** On/off of a LightControllerV2 and its plain turn-on command
    (custom_components/loxone/lights/lightcontroller.py). */
module LightController {
  import opened Wire

  const ALL_ON_MOOD_ID := 777

  /** A mood id as it comes: a number, a text that may read as one, or anything else. */
  datatype MoodId = Number(n: int) | Text(parsed: Option<int>) | NotAnId

  function MoodNumber(m: MoodId): Option<int>
  {
    match m
    case Number(n) => Some(n)
    case Text(p) => p
    case NotAnId => None
  }

  predicate IsOffMood(m: MoodId)
  {
    MoodNumber(m) == Some(0) || MoodNumber(m) == Some(778)
  }

  predicate AnyMoodOn(moods: seq<MoodId>)
  {
    exists i :: 0 <= i < |moods| && !IsOffMood(moods[i])
  }

  predicate AnyLevelOn(levels: map<string, real>)
  {
    exists k :: k in levels && levels[k] > 0.0
  }

  /** `lcv2_is_on`: `None` is unknown. Only known levels are stored, so every entry
      of `levels` counts. */
  function IsOn(moods: Option<seq<MoodId>>, master: Option<real>, levels: map<string, real>): Option<bool>
  {
    if moods.None? then None
    else if AnyMoodOn(moods.value) then Some(true)
    else if |moods.value| > 0 then Some(false)
    else if levels != map[] then Some(AnyLevelOn(levels))
    else if master.Some? then Some(master.value > 0.0)
    else None
  }

  /* ---- circuit levels ---- */

  datatype CircuitType = ColorPicker | Switch | Dimmer

  /** A level feed: a boolean, a finite number, a text with what it reads as a number
      and with the brightness component of its colour tuple, or anything else. */
  datatype Raw =
    | Bool(b: bool)
    | Num(x: real)
    | Txt(asNumber: Option<real>, brightness: Option<Raw>)
    | NoLevel

  function NumericLevel(raw: Raw): Option<real>
  {
    match raw
    case Bool(b) => Some(if b then 1.0 else 0.0)
    case Num(x) => Some(x)
    case Txt(n, _) => n
    case NoLevel => None
  }

  /** `lcv2_circuit_level`. */
  function CircuitLevel(t: CircuitType, raw: Raw): Option<real>
  {
    match t
    case ColorPicker => if raw.Txt? && raw.brightness.Some? then NumericLevel(raw.brightness.value) else None
    case Switch =>
      (match NumericLevel(raw)
       case None => None
       case Some(x) => Some(if x >= 1.0 then 1.0 else 0.0))
    case Dimmer => NumericLevel(raw)
  }

  /* ---- events ---- */

  datatype Circuit = Circuit(stream: string, key: string, kind: CircuitType)

  /** One message: per stream the value it carries, if it carries that stream. A
      master position or mood list that does not parse is `Some(None)`. */
  datatype Event = Event(
    otherStream: bool,
    master: Option<Option<real>>,
    moods: Option<Option<seq<MoodId>>>,
    levels: map<string, Raw>)

  datatype Fields = Fields(moods: Option<seq<MoodId>>, master: Option<real>, levels: map<string, real>)

  const NOTHING_KNOWN := Fields(None, None, map[])

  function LevelOf(e: Event, c: Circuit): Option<real>
  {
    if c.stream in e.levels then CircuitLevel(c.kind, e.levels[c.stream]) else None
  }

  /** The level table after the circuits were looked up in the event. */
  function LevelsAfter(levels: map<string, real>, circuits: seq<Circuit>, e: Event): map<string, real>
    decreases |circuits|
  {
    if circuits == [] then levels
    else
      var n := |circuits| - 1;
      var before := LevelsAfter(levels, circuits[..n], e);
      match LevelOf(e, circuits[n])
      case None => before
      case Some(x) => before[circuits[n].key := x]
  }

  function FieldsAfter(f: Fields, circuits: seq<Circuit>, e: Event): Fields
  {
    Fields(
      if e.moods.Some? && e.moods.value.Some? then e.moods.value else f.moods,
      if e.master.Some? then e.master.value else f.master,
      LevelsAfter(f.levels, circuits, e))
  }

  /** Whether the event makes the entity write its state (and derive on/off anew). */
  predicate Updates(circuits: seq<Circuit>, e: Event)
  {
    || e.otherStream
    || (e.master.Some? && e.master.value.Some?)
    || (e.moods.Some? && e.moods.value.Some?)
    || exists i :: 0 <= i < |circuits| && LevelOf(e, circuits[i]).Some?
  }

  datatype State = State(fields: Fields, isOn: Option<bool>)

  function Step(s: State, circuits: seq<Circuit>, e: Event): State
  {
    var f := FieldsAfter(s.fields, circuits, e);
    State(f, if Updates(circuits, e) then IsOn(f.moods, f.master, f.levels) else s.isOn)
  }

  function Run(s: State, circuits: seq<Circuit>, events: seq<Event>): State
    decreases |events|
  {
    if events == [] then s
    else Step(Run(s, circuits, events[..|events| - 1]), circuits, events[|events| - 1])
  }

  const INITIAL := State(NOTHING_KNOWN, None)

  class Controller {
    const circuits: seq<Circuit>
    var activeMoods: seq<MoodId>
    var activeMoodsReceived: bool
    var masterPosition: Option<real>
    var circuitLevels: map<string, real>
    var isOn: Option<bool>

    constructor (circuits: seq<Circuit>)
      ensures this.circuits == circuits && Current() == INITIAL
    {
      this.circuits := circuits;
      activeMoods, activeMoodsReceived, masterPosition, circuitLevels, isOn := [], false, None, map[], None;
    }

    function Current(): State
      reads this
    {
      State(Fields(if activeMoodsReceived then Some(activeMoods) else None, masterPosition, circuitLevels), isOn)
    }

    method EventHandler(e: Event)
      modifies this
      ensures Current() == Step(old(Current()), circuits, e)
    {
      var requestUpdate := e.otherStream;
      if e.master.Some? {
        masterPosition := e.master.value;
        if masterPosition.Some? { requestUpdate := true; }
      }
      if e.moods.Some? && e.moods.value.Some? {
        activeMoods := e.moods.value.value;
        activeMoodsReceived := true;
        requestUpdate := true;
      }
      ghost var without := requestUpdate;
      for i := 0 to |circuits|
        invariant circuitLevels == LevelsAfter(old(circuitLevels), circuits[..i], e)
        invariant requestUpdate <==> without || exists k :: 0 <= k < i && LevelOf(e, circuits[k]).Some?
        modifies this`circuitLevels
      {
        assert circuits[..i + 1][..i] == circuits[..i];
        if circuits[i].stream in e.levels {
          var level := CircuitLevel(circuits[i].kind, e.levels[circuits[i].stream]);
          if level.Some? {
            circuitLevels := circuitLevels[circuits[i].key := level.value];
            requestUpdate := true;
          }
        }
        assert LevelOf(e, circuits[i]).Some? || LevelOf(e, circuits[i]).None?;
      }
      assert circuits[..|circuits|] == circuits;
      if requestUpdate {
        isOn := IsOn(if activeMoodsReceived then Some(activeMoods) else None, masterPosition, circuitLevels);
      }
    }
  }

  /* ---- on/off is a function of the last accepted values ---- */

  predicate InSync(s: State)
  {
    s.isOn == IsOn(s.fields.moods, s.fields.master, s.fields.levels)
  }

  lemma {:induction false} LevelsUnchanged(levels: map<string, real>, circuits: seq<Circuit>, e: Event)
    requires forall i :: 0 <= i < |circuits| ==> LevelOf(e, circuits[i]).None?
    ensures LevelsAfter(levels, circuits, e) == levels
    decreases |circuits|
  {
    if circuits != [] {
      var n := |circuits| - 1;
      forall i | 0 <= i < n ensures LevelOf(e, circuits[..n][i]).None? { assert circuits[..n][i] == circuits[i]; }
      LevelsUnchanged(levels, circuits[..n], e);
    }
  }

  /** The shown state goes stale in exactly one way: a master position that is not
      numeric replaces the known one that decides, and nothing else is accepted. */
  lemma StepKeepsSync(s: State, circuits: seq<Circuit>, e: Event)
    requires InSync(s)
    ensures InSync(Step(s, circuits, e)) <==>
      !(e.master == Some(None) && !Updates(circuits, e)
        && s.fields.moods == Some([]) && s.fields.levels == map[] && s.fields.master.Some?)
  {
    if !Updates(circuits, e) {
      forall i | 0 <= i < |circuits| ensures LevelOf(e, circuits[i]).None? { }
      LevelsUnchanged(s.fields.levels, circuits, e);
    }
  }

  predicate NumericMaster(events: seq<Event>)
  {
    forall i :: 0 <= i < |events| ==> events[i].master != Some(None)
  }

  /** The value of a stream's last event that was accepted. */
  function LastMoods(events: seq<Event>): Option<seq<MoodId>>
  {
    if events == [] then None
    else
      var e := events[|events| - 1];
      if e.moods.Some? && e.moods.value.Some? then e.moods.value else LastMoods(events[..|events| - 1])
  }

  function LastMaster(events: seq<Event>): Option<real>
  {
    if events == [] then None
    else
      var e := events[|events| - 1];
      if e.master.Some? then e.master.value else LastMaster(events[..|events| - 1])
  }

  function LastLevel(events: seq<Event>, c: Circuit): Option<real>
  {
    if events == [] then None
    else
      var e := events[|events| - 1];
      if LevelOf(e, c).Some? then LevelOf(e, c) else LastLevel(events[..|events| - 1], c)
  }

  ghost predicate DistinctKeys(circuits: seq<Circuit>)
  {
    forall i, j :: 0 <= i < j < |circuits| ==> circuits[i].key != circuits[j].key
  }

  /** The table holds exactly the known last levels of the circuits. */
  ghost predicate LevelsAre(levels: map<string, real>, circuits: seq<Circuit>, events: seq<Event>)
  {
    && (forall k :: k in levels ==> exists i :: 0 <= i < |circuits| && circuits[i].key == k)
    && forall i :: 0 <= i < |circuits| ==> Holds(levels, circuits[i].key, LastLevel(events, circuits[i]))
  }

  predicate Holds(levels: map<string, real>, key: string, x: Option<real>)
  {
    if key in levels then x == Some(levels[key]) else x == None
  }

  lemma {:induction false} LevelsElsewhere(levels: map<string, real>, circuits: seq<Circuit>, e: Event, k: string)
    requires forall i :: 0 <= i < |circuits| ==> circuits[i].key != k
    ensures SameAt(levels, LevelsAfter(levels, circuits, e), k)
    decreases |circuits|
  {
    if circuits != [] {
      LevelsElsewhere(levels, circuits[..|circuits| - 1], e, k);
    }
  }

  lemma {:induction false} LevelsAtCircuit(levels: map<string, real>, circuits: seq<Circuit>, e: Event, i: nat)
    requires DistinctKeys(circuits) && i < |circuits|
    ensures var after, key := LevelsAfter(levels, circuits, e), circuits[i].key;
            if LevelOf(e, circuits[i]).Some? then Holds(after, key, LevelOf(e, circuits[i]))
            else SameAt(levels, after, key)
    decreases |circuits|
  {
    var n := |circuits| - 1;
    if i == n {
      LevelsElsewhere(levels, circuits[..n], e, circuits[n].key);
    } else {
      LevelsAtCircuit(levels, circuits[..n], e, i);
    }
  }

  predicate SameAt(a: map<string, real>, b: map<string, real>, k: string)
  {
    (k in a <==> k in b) && (k in a ==> a[k] == b[k])
  }

  /** After any run with numeric master positions, on/off is `IsOn` of the last
      accepted value of every stream. */
  lemma {:induction false} OnOffFollowsTheStreams(circuits: seq<Circuit>, events: seq<Event>)
    requires DistinctKeys(circuits) && NumericMaster(events)
    ensures var s := Run(INITIAL, circuits, events);
            && InSync(s) && s.fields.moods == LastMoods(events) && s.fields.master == LastMaster(events)
            && LevelsAre(s.fields.levels, circuits, events)
    decreases |events|
  {
    if events != [] {
      var n := |events| - 1;
      var init, e := events[..n], events[n];
      OnOffFollowsTheStreams(circuits, init);
      var s, t := Run(INITIAL, circuits, init), Run(INITIAL, circuits, events);
      StepKeepsSync(s, circuits, e);
      forall k | k in t.fields.levels ensures exists i :: 0 <= i < |circuits| && circuits[i].key == k {
        if forall i :: 0 <= i < |circuits| ==> circuits[i].key != k {
          LevelsElsewhere(s.fields.levels, circuits, e, k);
        }
      }
      forall i | 0 <= i < |circuits| ensures Holds(t.fields.levels, circuits[i].key, LastLevel(events, circuits[i])) {
        assert Holds(s.fields.levels, circuits[i].key, LastLevel(init, circuits[i]));
        LevelsAtCircuit(s.fields.levels, circuits, e, i);
      }
    }
  }

  /** The off moods as they come: 0 and 778, as numbers or as text. */
  predicate IsOffId(m: MoodId)
  {
    m == Number(0) || m == Number(778) || m == Text(Some(0)) || m == Text(Some(778))
  }

  lemma OffIds(m: MoodId)
    ensures IsOffMood(m) <==> IsOffId(m)
  {
  }

  /** Some circuit's last level satisfies `p`. */
  ghost predicate SomeLast(circuits: seq<Circuit>, events: seq<Event>, p: real -> bool)
  {
    exists i :: 0 <= i < |circuits| && LastIs(events, circuits[i], p)
  }

  predicate LastIs(events: seq<Event>, c: Circuit, p: real -> bool)
  {
    LastLevel(events, c).Some? && p(LastLevel(events, c).value)
  }

  /** What the light shows after any run with numeric master positions. Without a mood
      list nothing is known. A mood list that is not empty decides alone: on exactly
      with an id other than 0 and 778. Behind an empty one any known circuit level
      decides, on exactly when one is above 0, and only where none is known the master
      position, and only where that is not known either nothing is. */
  lemma WhatIsShown(circuits: seq<Circuit>, events: seq<Event>)
    requires DistinctKeys(circuits) && NumericMaster(events)
    ensures var on, moods := Run(INITIAL, circuits, events).isOn, LastMoods(events);
            var known := SomeLast(circuits, events, x => true);
            && (moods == None ==> on == None)
            && (moods.Some? && moods.value != [] ==>
                  on == Some(exists i :: 0 <= i < |moods.value| && !IsOffId(moods.value[i])))
            && (moods == Some([]) && known ==> on == Some(SomeLast(circuits, events, x => x > 0.0)))
            && (moods == Some([]) && !known && LastMaster(events).Some? ==>
                  on == Some(LastMaster(events).value > 0.0))
            && (moods == Some([]) && !known && LastMaster(events).None? ==> on == None)
  {
    OnOffFollowsTheStreams(circuits, events);
    var s, moods := Run(INITIAL, circuits, events), LastMoods(events);
    LevelsShow(s.fields.levels, circuits, events);
    if moods.Some? {
      forall i | 0 <= i < |moods.value| ensures IsOffMood(moods.value[i]) <==> IsOffId(moods.value[i]) {
        OffIds(moods.value[i]);
      }
    }
  }

  lemma LevelsShow(levels: map<string, real>, circuits: seq<Circuit>, events: seq<Event>)
    requires LevelsAre(levels, circuits, events)
    ensures levels != map[] <==> SomeLast(circuits, events, x => true)
    ensures AnyLevelOn(levels) <==> SomeLast(circuits, events, x => x > 0.0)
  {
    HolderOf(levels, circuits, events);
    if levels != map[] {
      var k :| k in levels;
      var i :| 0 <= i < |circuits| && circuits[i].key == k;
      assert LastIs(events, circuits[i], x => true);
    }
    if AnyLevelOn(levels) {
      var k :| k in levels && levels[k] > 0.0;
      var i :| 0 <= i < |circuits| && circuits[i].key == k;
      assert LastIs(events, circuits[i], x => x > 0.0);
    }
    if SomeLast(circuits, events, x => true) {
      var i :| 0 <= i < |circuits| && LastIs(events, circuits[i], x => true);
      assert circuits[i].key in levels;
    }
    if SomeLast(circuits, events, x => x > 0.0) {
      var i :| 0 <= i < |circuits| && LastIs(events, circuits[i], x => x > 0.0);
      assert circuits[i].key in levels;
    }
  }

  lemma HolderOf(levels: map<string, real>, circuits: seq<Circuit>, events: seq<Event>)
    requires LevelsAre(levels, circuits, events)
    ensures forall i :: 0 <= i < |circuits| ==>
              if circuits[i].key in levels then LastLevel(events, circuits[i]) == Some(levels[circuits[i].key])
              else LastLevel(events, circuits[i]) == None
  {
    forall i | 0 <= i < |circuits|
      ensures if circuits[i].key in levels then LastLevel(events, circuits[i]) == Some(levels[circuits[i].key])
              else LastLevel(events, circuits[i]) == None
    {
      assert Holds(levels, circuits[i].key, LastLevel(events, circuits[i]));
    }
  }

  /** What the feeds of the circuits read as: a switch is fully on from 1 upwards and
      off below, a dimmer keeps its number (a boolean counts as 1 or 0), and a picker
      has a level only in a text with a colour tuple. */
  lemma LevelsRead(b: bool, x: real, inner: Raw, asNumber: Option<real>)
    ensures CircuitLevel(Switch, Bool(b)) == CircuitLevel(Dimmer, Bool(b)) == Some(if b then 1.0 else 0.0)
    ensures CircuitLevel(Switch, Num(x)) == Some(if x < 1.0 then 0.0 else 1.0)
    ensures CircuitLevel(Switch, Txt(asNumber, None))
         == match asNumber case Some(n) => CircuitLevel(Switch, Num(n)) case None => None
    ensures CircuitLevel(Dimmer, Num(x)) == Some(x) && CircuitLevel(Dimmer, Txt(asNumber, Some(inner))) == asNumber
    ensures CircuitLevel(ColorPicker, Txt(asNumber, Some(inner))) == CircuitLevel(Dimmer, inner)
    ensures CircuitLevel(ColorPicker, Num(x)) == CircuitLevel(ColorPicker, Bool(b))
         == CircuitLevel(ColorPicker, Txt(asNumber, None)) == None
    ensures CircuitLevel(Switch, NoLevel) == CircuitLevel(Dimmer, NoLevel) == None
  {
  }

  /** Two event histories that agree stream by stream show the same, however the
      streams were interleaved. */
  lemma {:induction false} InterleavingDoesNotMatter(circuits: seq<Circuit>, a: seq<Event>, b: seq<Event>)
    requires DistinctKeys(circuits) && NumericMaster(a) && NumericMaster(b)
    requires LastMoods(a) == LastMoods(b) && LastMaster(a) == LastMaster(b)
    requires forall i :: 0 <= i < |circuits| ==> LastLevel(a, circuits[i]) == LastLevel(b, circuits[i])
    ensures Run(INITIAL, circuits, a) == Run(INITIAL, circuits, b)
  {
    OnOffFollowsTheStreams(circuits, a);
    OnOffFollowsTheStreams(circuits, b);
    var x, y := Run(INITIAL, circuits, a).fields.levels, Run(INITIAL, circuits, b).fields.levels;
    forall k ensures (k in x <==> k in y) && (k in x ==> x[k] == y[k]) {
      if k in x || k in y {
        var i :| 0 <= i < |circuits| && circuits[i].key == k;
        assert Holds(x, k, LastLevel(a, circuits[i])) && Holds(y, k, LastLevel(b, circuits[i]));
      }
    }
    assert x == y;
  }

  /** With a non-numeric master position the claim fails: the light still shows on
      although nothing is known any more. */
  lemma StaleAfterNonNumericMaster()
    ensures var s := Run(INITIAL, [], [Event(false, Some(Some(50.0)), Some(Some([])), map[]),
                                       Event(false, Some(None), None, map[])]);
            s.isOn == Some(true) && IsOn(s.fields.moods, s.fields.master, s.fields.levels) == None
  {
    var e1, e2 := Event(false, Some(Some(50.0)), Some(Some([])), map[]), Event(false, Some(None), None, map[]);
    var events := [e1, e2];
    assert events[..1] == [e1] && [e1][..0] == [];
    assert Run(INITIAL, [], [e1]) == Step(Run(INITIAL, [], []), [], e1);
  }

  /* ---- the plain turn-on command ---- */

  /** An entry of the mood list: not a dict, a dict without id, or one with an id. */
  datatype Mood = NoDict | NoId | Mood(id: MoodId)

  datatype Command = ChangeTo(id: MoodId) | Plus

  predicate Playable(m: Mood)
  {
    m.Mood? && !IsOffId(m.id)
  }

  predicate AllOn(m: Mood)
  {
    m.Mood? && (m.id == Number(777) || m.id == Text(Some(777)))
  }

  method PlainTurnOnCommand(moods: seq<Mood>) returns (c: Command)
    ensures (exists i :: 0 <= i < |moods| && AllOn(moods[i])) ==>
              exists i :: 0 <= i < |moods| && AllOn(moods[i]) && c == ChangeTo(moods[i].id)
                          && forall j :: 0 <= j < i ==> !AllOn(moods[j])
    ensures (forall i :: 0 <= i < |moods| ==> !AllOn(moods[i]))
            && (exists i :: 0 <= i < |moods| && Playable(moods[i])) ==>
              exists i :: 0 <= i < |moods| && Playable(moods[i]) && c == ChangeTo(moods[i].id)
                          && forall j :: 0 <= j < i ==> !Playable(moods[j])
    ensures c == Plus <==> forall i :: 0 <= i < |moods| ==> !Playable(moods[i])
    ensures c.ChangeTo? ==> IsOn(Some([c.id]), None, map[]) == Some(true)
  {
    var firstNonOff: Option<MoodId> := None;
    for k := 0 to |moods|
      invariant forall j :: 0 <= j < k ==> !AllOn(moods[j])
      invariant firstNonOff.None? ==> forall j :: 0 <= j < k ==> !Playable(moods[j])
      invariant firstNonOff.Some? ==>
                  exists i :: 0 <= i < k && Playable(moods[i]) && firstNonOff == Some(moods[i].id)
                              && forall j :: 0 <= j < i ==> !Playable(moods[j])
    {
      if moods[k].Mood? { OffIds(moods[k].id); }
      if moods[k].Mood? && !IsOffMood(moods[k].id) {
        if MoodNumber(moods[k].id) == Some(ALL_ON_MOOD_ID) {
          EchoReadsOn(moods[k].id, None, map[]);
          return ChangeTo(moods[k].id);
        }
        if firstNonOff.None? { firstNonOff := Some(moods[k].id); }
      }
    }
    if firstNonOff.Some? {
      EchoReadsOn(firstNonOff.value, None, map[]);
      return ChangeTo(firstNonOff.value);
    }
    return Plus;
  }

  /** The mood a command selects, reported back as the active one, reads on. */
  lemma EchoReadsOn(id: MoodId, master: Option<real>, levels: map<string, real>)
    requires !IsOffMood(id)
    ensures IsOn(Some([id]), master, levels) == Some(true)
  {
    assert !IsOffMood([id][0]);
  }
}
