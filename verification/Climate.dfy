/** The set-point planner of the room controller and the targets read back from its
    states (`plan_set_temperature`, `ActiveState.from_raw` and
    `LoxoneRoomControllerV2` in custom_components/loxone/climate.py). */
module Climate {
  import opened Wire

  datatype ActiveMode = Economy | Comfort | BuildingProtect | Manual | ActiveOff | Fixed | FixedDynamic

  datatype OperatingMode = OperatingOff | AutoHeatCool | AutoHeat | AutoCool | ManualHeatCool | ManualHeat | ManualCool

  /** The known Loxone states; `None` until a value was received. */
  datatype States = States(
    comfort: Option<real>, comfortCool: Option<real>, frostProtect: Option<real>, heatProtect: Option<real>,
    absentMin: Option<real>, absentMax: Option<real>)

  datatype Request = Request(temperature: Option<real>, high: Option<real>, low: Option<real>)

  datatype Command =
    | Override(raw: real, temperature: real)
    | SetManualTemperature(t: real)
    | SetAbsentMax(offset: real)
    | SetComfortCool(t: real)
    | SetHeatProtect(t: real)         // setecoplusmaxtemperature
    | SetAbsentMin(offset: real)
    | SetComfort(t: real)
    | SetFrostProtect(t: real)        // setecoplusmintemperature
    | SetComfortModeTemp(t: real)

  function AtLeastHalf(x: real): real
  {
    if x >= 0.5 then x else 0.5
  }

  predicate IsFixed(active: ActiveMode)
  {
    active.FixedDynamic? || active.Fixed?
  }

  predicate IsManual(op: OperatingMode, active: ActiveMode, rangePossible: bool)
  {
    active.Manual? || op.ManualHeat? || op.ManualCool? || (op.ManualHeatCool? && !rangePossible)
  }

  predicate IsDual(op: OperatingMode)
  {
    op.AutoHeatCool? || op.ManualHeatCool?
  }

  function OverrideTo(t: real): Command
  {
    Override(t * 2560.0 + 112.0, t)
  }

  function PlanHigh(active: ActiveMode, t: real, comfortCool: real, s: States): seq<Command>
  {
    match active
    case Economy =>
      var desired := AtLeastHalf(t - comfortCool);
      if Some(desired) != s.absentMax then [SetAbsentMax(desired)] else []
    case Comfort => if t != comfortCool then [SetComfortCool(t)] else []
    case BuildingProtect => if s.heatProtect == None || Some(t) != s.heatProtect then [SetHeatProtect(t)] else []
    case _ => []
  }

  function PlanLow(active: ActiveMode, t: real, comfort: real, s: States): seq<Command>
  {
    match active
    case Economy =>
      var desired := AtLeastHalf(comfort - t);
      if Some(desired) != s.absentMin then [SetAbsentMin(desired)] else []
    case Comfort => if t != comfort then [SetComfort(t)] else []
    case BuildingProtect => if s.frostProtect == None || Some(t) != s.frostProtect then [SetFrostProtect(t)] else []
    case _ => []
  }

  function HighCommands(active: ActiveMode, high: Option<real>, s: States): seq<Command>
  {
    if high.Some? && s.comfortCool.Some? then PlanHigh(active, high.value, s.comfortCool.value, s) else []
  }

  function LowCommands(active: ActiveMode, low: Option<real>, s: States): seq<Command>
  {
    if low.Some? && s.comfort.Some? then PlanLow(active, low.value, s.comfort.value, s) else []
  }

  function Plan(op: OperatingMode, active: ActiveMode, r: Request, s: States, rangePossible: bool): seq<Command>
  {
    if IsFixed(active) || IsManual(op, active, rangePossible) then
      if r.temperature.None? then []
      else if active.FixedDynamic? then [OverrideTo(r.temperature.value)]
      else [SetManualTemperature(r.temperature.value)]
    else if rangePossible && IsDual(op) then
      HighCommands(active, r.high, s) + LowCommands(active, r.low, s)
    else if r.temperature.None? then []
    else [SetComfortModeTemp(r.temperature.value)]
  }

  /** The controller stores what it is told. */
  function Apply(s: States, c: Command): States
  {
    match c
    case SetAbsentMax(x) => s.(absentMax := Some(x))
    case SetComfortCool(t) => s.(comfortCool := Some(t))
    case SetHeatProtect(t) => s.(heatProtect := Some(t))
    case SetAbsentMin(x) => s.(absentMin := Some(x))
    case SetComfort(t) => s.(comfort := Some(t))
    case SetFrostProtect(t) => s.(frostProtect := Some(t))
    case Override(_, _) => s
    case SetManualTemperature(_) => s
    case SetComfortModeTemp(_) => s
  }

  function ApplyAll(s: States, cs: seq<Command>): States
    decreases |cs|
  {
    if cs == [] then s else ApplyAll(Apply(s, cs[0]), cs[1..])
  }

  /** `native_target_temperature_high`. */
  function TargetHigh(op: OperatingMode, active: ActiveMode, s: States): Option<real>
  {
    if !IsDual(op) then None
    else match active
      case Comfort => s.comfortCool
      case Economy =>
        if s.comfortCool.None? || s.absentMax.None? then None else Some(s.comfortCool.value + s.absentMax.value)
      case BuildingProtect => s.heatProtect
      case _ => None
  }

  /** `native_target_temperature_low`. */
  function TargetLow(op: OperatingMode, active: ActiveMode, s: States): Option<real>
  {
    if !IsDual(op) then None
    else match active
      case Comfort => s.comfort
      case Economy => if s.comfort.None? || s.absentMin.None? then None else Some(s.comfort.value - s.absentMin.value)
      case BuildingProtect => s.frostProtect
      case _ => None
  }

  /** When a bound is shown: in a dual operating mode, by the active mode's own states,
      all of them known. */
  lemma BoundsShownIff(op: OperatingMode, active: ActiveMode, s: States)
    ensures var dual := op == AutoHeatCool || op == ManualHeatCool;
            && (TargetHigh(op, active, s).Some? <==>
                  dual && ((active == Comfort && s.comfortCool.Some?)
                           || (active == Economy && s.comfortCool.Some? && s.absentMax.Some?)
                           || (active == BuildingProtect && s.heatProtect.Some?)))
            && (TargetLow(op, active, s).Some? <==>
                  dual && ((active == Comfort && s.comfort.Some?)
                           || (active == Economy && s.comfort.Some? && s.absentMin.Some?)
                           || (active == BuildingProtect && s.frostProtect.Some?)))
  {
  }

  predicate TakesRange(active: ActiveMode)
  {
    active.Economy? || active.Comfort? || active.BuildingProtect?
  }

  /** What a requested bound means: in economy it stays half a degree off comfort. */
  function WantedHigh(active: ActiveMode, t: real, comfortCool: real): real
  {
    if active.Economy? && t < comfortCool + 0.5 then comfortCool + 0.5 else t
  }

  function WantedLow(active: ActiveMode, t: real, comfort: real): real
  {
    if active.Economy? && t > comfort - 0.5 then comfort - 0.5 else t
  }

  lemma {:induction false} ApplyConcat(s: States, a: seq<Command>, b: seq<Command>)
    ensures ApplyAll(s, a + b) == ApplyAll(ApplyAll(s, a), b)
    decreases |a|
  {
    if a == [] { assert a + b == b; } else {
      assert (a + b)[1..] == a[1..] + b;
      ApplyConcat(Apply(s, a[0]), a[1..], b);
    }
  }

  lemma ApplyOne(s: States, c: Command)
    ensures ApplyAll(s, [c]) == Apply(s, c)
  {
  }

  /** Each half of a plan sets its own bound, leaves the other one alone and has
      nothing left to do afterwards. */
  lemma HighApplied(op: OperatingMode, active: ActiveMode, high: Option<real>, low: Option<real>, s: States)
    requires TakesRange(active) && IsDual(op) && (high.Some? ==> s.comfortCool.Some?)
    ensures var t := ApplyAll(s, HighCommands(active, high, s));
            && TargetHigh(op, active, t) ==
                 (if high.Some? then Some(WantedHigh(active, high.value, s.comfortCool.value))
                  else TargetHigh(op, active, s))
            && HighCommands(active, high, t) == []
            && t.comfort == s.comfort && t.frostProtect == s.frostProtect && t.absentMin == s.absentMin
            && LowCommands(active, low, t) == LowCommands(active, low, s)
  {
    var h := HighCommands(active, high, s);
    if h != [] { assert h == [h[0]]; ApplyOne(s, h[0]); }
  }

  lemma LowApplied(op: OperatingMode, active: ActiveMode, high: Option<real>, low: Option<real>, s: States)
    requires TakesRange(active) && IsDual(op) && (low.Some? ==> s.comfort.Some?)
    ensures var t := ApplyAll(s, LowCommands(active, low, s));
            && TargetLow(op, active, t) ==
                 (if low.Some? then Some(WantedLow(active, low.value, s.comfort.value)) else TargetLow(op, active, s))
            && LowCommands(active, low, t) == []
            && t.comfortCool == s.comfortCool && t.heatProtect == s.heatProtect && t.absentMax == s.absentMax
            && HighCommands(active, high, t) == HighCommands(active, high, s)
  {
    var l := LowCommands(active, low, s);
    if l != [] { assert l == [l[0]]; ApplyOne(s, l[0]); }
  }

  /** After a range request is planned and carried out, each requested bound reads
      back as wanted, an unrequested one as before; asking again sends nothing. */
  lemma RangeRequestReadsBack(op: OperatingMode, active: ActiveMode, r: Request, s: States)
    requires TakesRange(active) && IsDual(op)
    requires (r.high.Some? ==> s.comfortCool.Some?) && (r.low.Some? ==> s.comfort.Some?)
    ensures var t := ApplyAll(s, Plan(op, active, r, s, true));
            && TargetHigh(op, active, t) ==
                 (if r.high.Some? then Some(WantedHigh(active, r.high.value, s.comfortCool.value))
                  else TargetHigh(op, active, s))
            && TargetLow(op, active, t) ==
                 (if r.low.Some? then Some(WantedLow(active, r.low.value, s.comfort.value))
                  else TargetLow(op, active, s))
            && Plan(op, active, r, t, true) == []
  {
    var m := ApplyAll(s, HighCommands(active, r.high, s));
    HighApplied(op, active, r.high, r.low, s);
    LowApplied(op, active, r.high, r.low, m);
    ApplyConcat(s, HighCommands(active, r.high, s), LowCommands(active, r.low, s));
  }

  /** Requests the planner sends nothing for. A single temperature is dropped exactly
      in a range-capable dual mode that is neither fixed nor manual. */
  lemma SingleTargetDroppedIff(op: OperatingMode, active: ActiveMode, t: real, s: States, rangePossible: bool)
    ensures Plan(op, active, Request(Some(t), None, None), s, rangePossible) == [] <==>
              rangePossible && IsDual(op) && !IsFixed(active) && !active.Manual?
  {
  }

  /** The command a single temperature t becomes: an override in a fixed dynamic mode,
      the manual temperature in a fixed or manual one (active, or by the operating
      mode; a dual manual mode without ranges counts as one), and where neither holds
      and no range is offered the comfort temperature. */
  lemma SingleTargetCommandIff(op: OperatingMode, active: ActiveMode, t: real, s: States, rangePossible: bool)
    ensures var plan := Plan(op, active, Request(Some(t), None, None), s, rangePossible);
            var manual := active == Manual || op == ManualHeat || op == ManualCool
                          || (op == ManualHeatCool && !rangePossible);
            var dual := rangePossible && (op == AutoHeatCool || op == ManualHeatCool);
            && (plan == [OverrideTo(t)] <==> active == FixedDynamic)
            && (plan == [SetManualTemperature(t)] <==> active == Fixed || (manual && active != FixedDynamic))
            && (plan == [SetComfortModeTemp(t)] <==> active != FixedDynamic && active != Fixed && !manual && !dual)
            && (plan == [] <==> active != FixedDynamic && active != Fixed && !manual && dual)
  {
    assert [OverrideTo(t)][0] != [SetManualTemperature(t)][0];
    assert [OverrideTo(t)][0] != [SetComfortModeTemp(t)][0];
    assert [SetComfortModeTemp(t)][0] != [SetManualTemperature(t)][0];
  }

  /** A bound is silent when its comfort value is unknown, the active mode has no
      such bound, or the stored value already is the wanted one. */
  predicate HighSettled(active: ActiveMode, high: Option<real>, s: States)
  {
    high.None? || s.comfortCool.None? || !TakesRange(active) ||
    match active
    case Economy => s.absentMax == Some(AtLeastHalf(high.value - s.comfortCool.value))
    case Comfort => s.comfortCool == high
    case _ => s.heatProtect == high
  }

  predicate LowSettled(active: ActiveMode, low: Option<real>, s: States)
  {
    low.None? || s.comfort.None? || !TakesRange(active) ||
    match active
    case Economy => s.absentMin == Some(AtLeastHalf(s.comfort.value - low.value))
    case Comfort => s.comfort == low
    case _ => s.frostProtect == low
  }

  /** A range request is dropped exactly when the controller is not in a range-capable
      dual mode, its active mode is fixed or manual, or both bounds are settled. */
  lemma RangeRequestDroppedIff(
      op: OperatingMode, active: ActiveMode, high: Option<real>, low: Option<real>, s: States, rangePossible: bool)
    ensures Plan(op, active, Request(None, high, low), s, rangePossible) == [] <==>
              || !rangePossible || !IsDual(op) || IsFixed(active) || active.Manual?
              || (HighSettled(active, high, s) && LowSettled(active, low, s))
  {
  }

  /* ---- the override payload ---- */

  datatype ActiveState = ActiveState(mode: ActiveMode, value: real)

  /** `ActiveState.from_raw`; `None` is the ValueError of an unknown code. */
  function FromRaw(raw: real): Option<ActiveState>
  {
    if raw >= 112.0 then Some(ActiveState(FixedDynamic, (raw - 112.0) / 2560.0))
    else if raw == 0.0 then Some(ActiveState(Economy, 0.0))
    else if raw == 1.0 then Some(ActiveState(Comfort, 0.0))
    else if raw == 2.0 then Some(ActiveState(BuildingProtect, 0.0))
    else if raw == 3.0 then Some(ActiveState(Manual, 0.0))
    else if raw == 4.0 then Some(ActiveState(ActiveOff, 0.0))
    else if raw == 14.0 then Some(ActiveState(Fixed, 0.0))
    else None
  }

  /** The mode codes below 112, in the order of their modes. */
  const CODES: seq<(real, ActiveMode)> :=
    [(0.0, Economy), (1.0, Comfort), (2.0, BuildingProtect), (3.0, Manual), (4.0, ActiveOff), (14.0, Fixed)]

  /** Every code reads as its mode, everything from 112 upwards as an override, and any
      other number as an unknown code. */
  lemma CodesRead(raw: real)
    ensures forall i :: 0 <= i < |CODES| ==> FromRaw(CODES[i].0) == Some(ActiveState(CODES[i].1, 0.0))
    ensures raw >= 112.0 ==> FromRaw(raw) == Some(ActiveState(FixedDynamic, (raw - 112.0) / 2560.0))
    ensures FromRaw(raw) == None <==> raw < 112.0 && forall i :: 0 <= i < |CODES| ==> raw != CODES[i].0
  {
    assert CODES[0].0 == 0.0 && CODES[1].0 == 1.0 && CODES[2].0 == 2.0
        && CODES[3].0 == 3.0 && CODES[4].0 == 4.0 && CODES[5].0 == 14.0;
  }

  /** `native_target_temperature`: a target of 0 counts as not known. */
  function SingleTarget(a: ActiveState, tempTarget: Option<real>, s: States): Option<real>
  {
    if a.mode.FixedDynamic? then Some(a.value)
    else if tempTarget.Some? && tempTarget.value != 0.0 then tempTarget
    else s.comfort
  }

  /** Outside an override the reported target is shown, and comfort while it is missing
      or 0. */
  lemma TargetShown(a: ActiveState, tempTarget: Option<real>, s: States)
    requires a.mode != FixedDynamic
    ensures tempTarget == None || tempTarget == Some(0.0) ==> SingleTarget(a, tempTarget, s) == s.comfort
    ensures tempTarget.Some? && tempTarget != Some(0.0) ==> SingleTarget(a, tempTarget, s) == tempTarget
  {
  }

  /** The override payload carries its temperature back exactly when that is not
      negative; then it also is the target shown. */
  lemma OverrideDecodesIff(t: real, tempTarget: Option<real>, s: States)
    ensures FromRaw(OverrideTo(t).raw) == Some(ActiveState(FixedDynamic, t)) <==> t >= 0.0
    ensures t >= 0.0 ==> SingleTarget(FromRaw(OverrideTo(t).raw).value, tempTarget, s) == Some(t)
  {
    var raw := OverrideTo(t).raw;
    assert raw - 112.0 == t * 2560.0;
    assert (raw - 112.0) / 2560.0 == t;
  }

  /* ---- the entity ---- */

  datatype Update = Update(active: Option<real>, operating: Option<OperatingMode>, states: States)

  function Merge(old_: Option<real>, new_: Option<real>): Option<real>
  {
    if new_.Some? then new_ else old_
  }

  function Merged(s: States, received: States): States
  {
    States(
      Merge(s.comfort, received.comfort), Merge(s.comfortCool, received.comfortCool),
      Merge(s.frostProtect, received.frostProtect), Merge(s.heatProtect, received.heatProtect),
      Merge(s.absentMin, received.absentMin), Merge(s.absentMax, received.absentMax))
  }

  /** A report that names at least what the commands changed. */
  predicate Reports(s: States, report: States, cs: seq<Command>)
  {
    Merged(s, report) == ApplyAll(s, cs)
  }

  /** What a report does not name stays as it was. */
  lemma SilentReport(s: States, report: States)
    ensures Merged(s, States(None, None, None, None, None, None)) == s
    ensures report.comfort == None ==> Merged(s, report).comfort == s.comfort
    ensures report.absentMin == None ==> Merged(s, report).absentMin == s.absentMin
    ensures report.comfort.Some? ==> Merged(s, report).comfort == report.comfort
  {
  }

  /** A report of all states is one: no command makes a known value unknown. */
  lemma {:induction false} FullReport(s: States, cs: seq<Command>)
    ensures Reports(s, ApplyAll(s, cs), cs)
    decreases |cs|
  {
    if cs != [] { FullReport(Apply(s, cs[0]), cs[1..]); }
  }

  class RoomController {
    const rangePossible: bool
    var operatingMode: OperatingMode
    var activeState: ActiveState
    var states: States
    var sent: seq<Command>

    constructor (rangePossible: bool)
      ensures this.rangePossible == rangePossible && operatingMode == OperatingOff && activeState.mode == ActiveOff
      ensures states == States(None, None, None, None, None, None) && sent == []
    {
      this.rangePossible := rangePossible;
      operatingMode, activeState, sent := OperatingOff, ActiveState(ActiveOff, 0.0), [];
      states := States(None, None, None, None, None, None);
    }

    /** Received values replace known ones; an unknown mode code keeps the mode. */
    method EventHandler(u: Update)
      modifies this
      ensures operatingMode == (if u.operating.Some? then u.operating.value else old(operatingMode))
      ensures activeState ==
                (if u.active.Some? && FromRaw(u.active.value).Some? then FromRaw(u.active.value).value
                 else old(activeState))
      ensures states == Merged(old(states), u.states)
      ensures sent == old(sent)
    {
      states := Merged(states, u.states);
      if u.operating.Some? { operatingMode := u.operating.value; }
      if u.active.Some? {
        var parsed := FromRaw(u.active.value);
        if parsed.Some? { activeState := parsed.value; }
      }
    }

    function ShownHigh(): Option<real>
      reads this
    {
      TargetHigh(operatingMode, activeState.mode, states)
    }

    function ShownLow(): Option<real>
      reads this
    {
      TargetLow(operatingMode, activeState.mode, states)
    }

    method SetTemperature(r: Request)
      modifies this`sent
      ensures sent == old(sent) + Plan(operatingMode, activeState.mode, r, states, rangePossible)
    {
      var plan := Plan(operatingMode, activeState.mode, r, states, rangePossible);
      for i := 0 to |plan|
        invariant sent == old(sent) + plan[..i]
      {
        sent := sent + [plan[i]];
        assert plan[..i + 1] == plan[..i] + [plan[i]];
      }
      assert plan[..|plan|] == plan;
    }
  }

  /** One range request seen from outside: set it, hear the controller's report, set
      it again. Both bounds show as wanted, and the repetition sends nothing. */
  method RequestReportRepeat(c: RoomController, r: Request, report: States)
    requires TakesRange(c.activeState.mode) && IsDual(c.operatingMode) && c.rangePossible
    requires (r.high.Some? ==> c.states.comfortCool.Some?) && (r.low.Some? ==> c.states.comfort.Some?)
    requires Reports(c.states, report, Plan(c.operatingMode, c.activeState.mode, r, c.states, true))
    modifies c
    ensures c.operatingMode == old(c.operatingMode) && c.activeState == old(c.activeState)
    ensures c.ShownHigh() ==
              if r.high.None? then old(c.ShownHigh())
              else Some(WantedHigh(c.activeState.mode, r.high.value, old(c.states).comfortCool.value))
    ensures c.ShownLow() ==
              if r.low.None? then old(c.ShownLow())
              else Some(WantedLow(c.activeState.mode, r.low.value, old(c.states).comfort.value))
    ensures c.sent == old(c.sent) + Plan(c.operatingMode, c.activeState.mode, r, old(c.states), true)
  {
    RangeRequestReadsBack(c.operatingMode, c.activeState.mode, r, c.states);
    c.SetTemperature(r);
    c.EventHandler(Update(None, None, report));
    c.SetTemperature(r);
  }
}
