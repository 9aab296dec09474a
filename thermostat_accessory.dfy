// The per-thermostat state machine of src/thermostatAccessory.ts: the state
// record, the two mode tables, the derived heating/cooling activity, and the
// class whose handlers apply device reports and user actions to the state.

// ---------------------------------------------------------------------------
// State
// ---------------------------------------------------------------------------

/**
 * The record `this.state` (src/types.ts:17-26) together with the accessory's
 * `occupancyDetected` flag. A temperature is None while `undefined`; a
 * `null` payload is stored as Some(Null), which `!== undefined` lets through.
 */
datatype ThermostatState = ThermostatState(
  currentTemperature: Option<Value>,
  targetTemperature: Option<Value>,
  targetTemperatureLow: Option<Value>,
  targetTemperatureHigh: Option<Value>,
  currentHeatingCoolingState: CurrentHeatingCoolingState,
  targetHeatingCoolingState: int,
  fanActive: Value,
  mode: Value,
  occupancyDetected: bool)

/** The device modes the two tables translate. */
const DEVICE_MODES: set<string> := {"off", "heat", "cool", "range"}

/**
 * What every handler keeps true: with the device off nothing is active; both
 * temperatures the activity rule reads are set; and a valid HomeKit target
 * code agrees with the device mode.
 */
predicate Consistent(s: ThermostatState)
{
  && (s.mode == Str("off") ==> s.currentHeatingCoolingState == CurrentOff)
  && s.currentTemperature.Some?
  && s.targetTemperature.Some?
  && (0 <= s.targetHeatingCoolingState <= 3 ==> TargetStateOfMode(s.mode).Code() == s.targetHeatingCoolingState)
}

// ---------------------------------------------------------------------------
// Mode tables
// ---------------------------------------------------------------------------

/** `updateMode`'s switch: device mode to HomeKit target state; anything unrecognised is OFF. */
function TargetStateOfMode(mode: Value): (t: TargetHeatingCoolingState)
  ensures t == TargetHeat <==> mode == Str("heat")
  ensures t == TargetCool <==> mode == Str("cool")
  ensures t == TargetAuto <==> mode == Str("range")
  ensures t == TargetOff <==> mode !in {Str("heat"), Str("cool"), Str("range")}
{
  if mode == Str("off") then TargetOff
  else if mode == Str("heat") then TargetHeat
  else if mode == Str("cool") then TargetCool
  else if mode == Str("range") then TargetAuto
  else TargetOff
}

/** `handleTargetHeatingCoolingStateSet`'s switch: HomeKit target code to device mode; anything unrecognised is "off". */
function ModeOfTargetCode(code: int): (m: string)
  ensures m in DEVICE_MODES
  ensures m == "heat" <==> code == TargetHeat.Code()
  ensures m == "cool" <==> code == TargetCool.Code()
  ensures m == "range" <==> code == TargetAuto.Code()
{
  if code == TargetOff.Code() then "off"
  else if code == TargetHeat.Code() then "heat"
  else if code == TargetCool.Code() then "cool"
  else if code == TargetAuto.Code() then "range"
  else "off"
}

/** HomeKit to device and back is the identity on the four target states. */
lemma ModeTablesRoundTripFromHomeKit(t: TargetHeatingCoolingState)
  ensures TargetStateOfMode(Str(ModeOfTargetCode(t.Code()))) == t
{
}

/** Device to HomeKit and back is the identity on the four device modes. */
lemma ModeTablesRoundTripFromDevice(m: string)
  requires m in DEVICE_MODES
  ensures ModeOfTargetCode(TargetStateOfMode(Str(m)).Code()) == m
{
}

/** Translating any device value to HomeKit, back, and to HomeKit again changes nothing. */
lemma ModeTranslationStable(mode: Value)
  ensures TargetStateOfMode(Str(ModeOfTargetCode(TargetStateOfMode(mode).Code()))) == TargetStateOfMode(mode)
{
  ModeTablesRoundTripFromHomeKit(TargetStateOfMode(mode));
}

// ---------------------------------------------------------------------------
// Derived activity
// ---------------------------------------------------------------------------

/** The dead band around the target, in degrees. */
const THRESHOLD: real := 0.5

predicate HeatingMode(mode: Value) { mode == Str("heat") || mode == Str("range") }

predicate CoolingMode(mode: Value) { mode == Str("cool") || mode == Str("range") }

function Abs(x: real): real { if x < 0.0 then -x else x }

/** `target - current` in JavaScript; None is NaN. */
function Difference(target: Value, current: Value): (d: Option<real>)
  ensures d.Some? <==> NumberOf(target).Some? && NumberOf(current).Some?
  ensures d.Some? ==> d.value + NumberOf(current).value == NumberOf(target).value
{
  match (NumberOf(target), NumberOf(current))
  case (Some(t), Some(c)) => Some(t - c)
  case _ => None
}

/**
 * The activity `updateCurrentHeatingCoolingState` leaves behind, following its
 * if/else chain. A NaN difference fails every comparison and ends in OFF.
 */
function Recomputed(mode: Value, current: Option<Value>, target: Option<Value>, previous: CurrentHeatingCoolingState): (a: CurrentHeatingCoolingState)
  ensures mode == Str("off") ==> a == CurrentOff
  ensures mode != Str("off") && (current.None? || target.None?) ==> a == previous
  ensures mode != Str("off") && current.Some? && target.Some? ==>
    var d := Difference(target.value, current.value);
    && (a == CurrentHeat <==> d.Some? && d.value > THRESHOLD && HeatingMode(mode))
    && (a == CurrentCool <==> d.Some? && d.value < -THRESHOLD && CoolingMode(mode))
{
  if mode == Str("off") then CurrentOff
  else if current.None? || target.None? then previous
  else
    match Difference(target.value, current.value)
    case None => CurrentOff
    case Some(diff) =>
      if Abs(diff) < THRESHOLD then CurrentOff
      else if diff > THRESHOLD && HeatingMode(mode) then CurrentHeat
      else if diff < -THRESHOLD && CoolingMode(mode) then CurrentCool
      else CurrentOff
}

/** A difference of exactly half a degree either way, or a mode other than the four, is never active. */
lemma BoundaryAndUnknownModeAreOff(mode: Value, current: real, target: real, previous: CurrentHeatingCoolingState)
  requires Abs(target - current) == THRESHOLD || mode !in {Str("heat"), Str("cool"), Str("range")}
  ensures Recomputed(mode, Some(Num(current)), Some(Num(target)), previous) == CurrentOff
{
}

/**
 * An empty (or white-space) current temperature counts as 0 degrees: with
 * mode heat and a target above half a degree, the heater is reported on.
 */
lemma BlankCurrentTemperatureCountsAsZero(w: string, target: real, previous: CurrentHeatingCoolingState)
  requires forall i :: 0 <= i < |w| ==> StrWhiteSpaceChar(w[i])
  requires target > THRESHOLD
  ensures Recomputed(Str("heat"), Some(Str(w)), Some(Num(target)), previous) == CurrentHeat
{
}

/** The empty payload on `current_temperature`, with mode heat and target 20, reports heating. */
lemma EmptyCurrentTemperatureHeats(previous: CurrentHeatingCoolingState)
  ensures Recomputed(Str("heat"), Some(Str("")), Some(Num(20.0)), previous) == CurrentHeat
{
  BlankCurrentTemperatureCountsAsZero("", 20.0, previous);
}

// ---------------------------------------------------------------------------
// Device reports (the `update*` handlers)
// ---------------------------------------------------------------------------

/** One call of an `update*` handler, with the value it was given. */
datatype Report =
  | CurrentTemperatureIs(current: Value)
  | TargetTemperatureIs(target: Value)
  | TargetTemperatureLowIs(low: Value)
  | TargetTemperatureHighIs(high: Value)
  | ModeIs(mode: Value)
  | FanStateIs(active: Value)
  | OccupancyIs(occupied: bool)

/** The state after the handler for report `r` runs on state `s`. */
function Applied(s: ThermostatState, r: Report): (t: ThermostatState)
  ensures Consistent(s) ==> Consistent(t)
  ensures t.currentHeatingCoolingState != s.currentHeatingCoolingState ==> r.CurrentTemperatureIs? || r.ModeIs?
  ensures r.ModeIs? ==> t.mode == r.mode && t.targetHeatingCoolingState == TargetStateOfMode(r.mode).Code()
  ensures !r.ModeIs? ==> t.mode == s.mode && t.targetHeatingCoolingState == s.targetHeatingCoolingState
{
  match r
  case CurrentTemperatureIs(v) =>
    s.(currentTemperature := Some(v),
       currentHeatingCoolingState := Recomputed(s.mode, Some(v), s.targetTemperature, s.currentHeatingCoolingState))
  case TargetTemperatureIs(v) => s.(targetTemperature := Some(v))
  case TargetTemperatureLowIs(v) => s.(targetTemperatureLow := Some(v))
  case TargetTemperatureHighIs(v) => s.(targetTemperatureHigh := Some(v))
  case ModeIs(m) =>
    s.(mode := m,
       targetHeatingCoolingState := TargetStateOfMode(m).Code(),
       currentHeatingCoolingState := Recomputed(m, s.currentTemperature, s.targetTemperature, s.currentHeatingCoolingState))
  case FanStateIs(v) => s.(fanActive := v)
  case OccupancyIs(b) => s.(occupancyDetected := b)
}

function ActiveOf(v: Value): (a: ActiveState)
  ensures a == Active <==> Truthy(v)
{
  if Truthy(v) then Active else Inactive
}

function OccupancyOf(occupied: bool): (o: OccupancyState)
  ensures o == OccupancyDetected <==> occupied
{
  if occupied then OccupancyDetected else OccupancyNotDetected
}

/** The values the handler for report `r` pushes to the host, in order. */
function PushesOf(s: ThermostatState, r: Report): (p: seq<HostPush>)
  ensures 1 <= |p| <= 2
  ensures |p| == 2 <==> r.CurrentTemperatureIs? || r.ModeIs?
  ensures |p| == 2 ==> p[1] == PushCurrentState(Applied(s, r).currentHeatingCoolingState)
{
  match r
  case CurrentTemperatureIs(v) => [PushCurrentTemperature(v), PushCurrentState(Applied(s, r).currentHeatingCoolingState)]
  case TargetTemperatureIs(v) => [PushTargetTemperature(v)]
  case TargetTemperatureLowIs(v) => [PushHeatingThreshold(v)]
  case TargetTemperatureHighIs(v) => [PushCoolingThreshold(v)]
  case ModeIs(m) => [PushTargetState(TargetStateOfMode(m)), PushCurrentState(Applied(s, r).currentHeatingCoolingState)]
  case FanStateIs(v) => [PushFanActive(ActiveOf(v))]
  case OccupancyIs(b) => [PushOccupancy(OccupancyOf(b))]
}

/** Delivering the same report twice leaves the state the first delivery left. */
lemma {:induction false} ReportIdempotent(s: ThermostatState, r: Report)
  ensures Applied(Applied(s, r), r) == Applied(s, r)
{
  var t := Applied(s, r);
  match r
  case CurrentTemperatureIs(v) =>
    assert t.currentTemperature == Some(v);
  case ModeIs(m) =>
    assert t.mode == m;
  case _ =>
}

/** `updateMode("off")` leaves nothing active, whatever the temperatures. */
lemma ModeOffReportStopsActivity(s: ThermostatState)
  ensures Applied(s, ModeIs(Str("off"))).currentHeatingCoolingState == CurrentOff
  ensures Applied(s, ModeIs(Str("off"))).targetHeatingCoolingState == TargetOff.Code()
{
}

/** With a temperature unset and the device not off, a mode report keeps the previous activity. */
lemma UnsetTemperatureKeepsActivity(s: ThermostatState, m: Value)
  requires m != Str("off")
  requires s.currentTemperature.None? || s.targetTemperature.None?
  ensures Applied(s, ModeIs(m)).currentHeatingCoolingState == s.currentHeatingCoolingState
{
}

// ---------------------------------------------------------------------------
// User actions (the `handle*Set` handlers)
// ---------------------------------------------------------------------------

/** One call of a `handle*Set` handler, with the value HomeKit passed. */
datatype UserAction =
  | SetTargetTemperature(temperature: real)
  | SetCoolingThreshold(temperature: real)
  | SetHeatingThreshold(temperature: real)
  | SetTargetState(code: int)
  | SetFanActive(code: int)

/** The state after the handler for action `u` runs on state `s`. */
function AfterUserAction(s: ThermostatState, u: UserAction): (t: ThermostatState)
  ensures Consistent(s) ==> Consistent(t)
  ensures t.currentHeatingCoolingState != s.currentHeatingCoolingState ==> u.SetTargetState?
  ensures u.SetTargetState? ==> t.targetHeatingCoolingState == u.code && t.mode == Str(ModeOfTargetCode(u.code))
  ensures u.SetFanActive? ==> (Truthy(t.fanActive) <==> u.code == Active.Code())
{
  match u
  case SetTargetTemperature(x) => s.(targetTemperature := Some(Num(x)))
  case SetCoolingThreshold(x) => s.(targetTemperatureHigh := Some(Num(x)))
  case SetHeatingThreshold(x) => s.(targetTemperatureLow := Some(Num(x)))
  case SetTargetState(code) =>
    var m := Str(ModeOfTargetCode(code));
    s.(targetHeatingCoolingState := code,
       mode := m,
       currentHeatingCoolingState := Recomputed(m, s.currentTemperature, s.targetTemperature, s.currentHeatingCoolingState))
  case SetFanActive(code) => s.(fanActive := Bool(code == Active.Code()))
}

/** The command a user action publishes: object type, field and value. */
function CommandOf(serial: string, u: UserAction): (c: Command)
  ensures c.serial == serial
  ensures c.objectType == (if u.SetFanActive? then "device" else "shared")
{
  match u
  case SetTargetTemperature(x) => Command(serial, "shared", "target_temperature", SNum(x))
  case SetCoolingThreshold(x) => Command(serial, "shared", "target_temperature_high", SNum(x))
  case SetHeatingThreshold(x) => Command(serial, "shared", "target_temperature_low", SNum(x))
  case SetTargetState(code) => Command(serial, "shared", "target_temperature_type", SStr(ModeOfTargetCode(code)))
  case SetFanActive(code) => Command(serial, "device", "fan_timer_active", SBool(code == Active.Code()))
}

// ---------------------------------------------------------------------------
// The accessory
// ---------------------------------------------------------------------------

/** The initial state of a new accessory (thermostatAccessory.ts:10, 21-28). */
function InitialState(): (s: ThermostatState)
  ensures Consistent(s)
{
  ThermostatState(Some(Num(20.0)), Some(Num(20.0)), None, None,
                  CurrentOff, TargetOff.Code(), Bool(false), Str("off"), true)
}

/** The value of `t ?? d`: the default when the field is undefined or null. */
function OrDefault(t: Option<Value>, d: real): (v: Value)
  ensures t.Some? && t.value != Null ==> v == t.value
  ensures t.None? || t == Some(Null) ==> v == Num(d)
{
  if t.None? || t.value == Null then Num(d) else t.value
}

class ThermostatAccessory {
  const platform: Platform
  const serial: string

  var currentTemperature: Option<Value>
  var targetTemperature: Option<Value>
  var targetTemperatureLow: Option<Value>
  var targetTemperatureHigh: Option<Value>
  var currentHeatingCoolingState: CurrentHeatingCoolingState
  var targetHeatingCoolingState: int
  var fanActive: Value
  var mode: Value
  var occupancyDetected: bool

  /** Every `updateCharacteristic` call, in order. */
  ghost var pushes: seq<HostPush>

  function State(): ThermostatState
    reads this
  {
    ThermostatState(currentTemperature, targetTemperature, targetTemperatureLow, targetTemperatureHigh,
                    currentHeatingCoolingState, targetHeatingCoolingState, fanActive, mode, occupancyDetected)
  }

  ghost predicate Valid()
    reads this
  {
    Consistent(State())
  }

  constructor (platform: Platform, serial: string)
    ensures this.platform == platform && this.serial == serial
    ensures currentTemperature == Some(Num(20.0)) && targetTemperature == Some(Num(20.0))
    ensures targetTemperatureLow.None? && targetTemperatureHigh.None?
    ensures mode == Str("off") && currentHeatingCoolingState == CurrentOff
    ensures targetHeatingCoolingState == TargetOff.Code()
    ensures fanActive == Bool(false) && occupancyDetected
    ensures pushes == []
    ensures Valid()
  {
    this.platform := platform;
    this.serial := serial;
    currentTemperature := Some(Num(20.0));
    targetTemperature := Some(Num(20.0));
    targetTemperatureLow := None;
    targetTemperatureHigh := None;
    currentHeatingCoolingState := CurrentOff;
    targetHeatingCoolingState := TargetOff.Code();
    fanActive := Bool(false);
    mode := Str("off");
    occupancyDetected := true;
    pushes := [];
  }

  // --- getters -------------------------------------------------------------

  function HandleCurrentTemperatureGet(): (v: Value)
    reads this
    ensures currentTemperature.Some? && currentTemperature.value != Null ==> v == currentTemperature.value
    ensures currentTemperature.None? || currentTemperature == Some(Null) ==> v == Num(20.0)
  {
    OrDefault(currentTemperature, 20.0)
  }

  function HandleTargetTemperatureGet(): (v: Value)
    reads this
    ensures targetTemperature.Some? && targetTemperature.value != Null ==> v == targetTemperature.value
    ensures targetTemperature.None? || targetTemperature == Some(Null) ==> v == Num(20.0)
  {
    OrDefault(targetTemperature, 20.0)
  }

  function HandleCoolingThresholdTemperatureGet(): (v: Value)
    reads this
    ensures targetTemperatureHigh.Some? && targetTemperatureHigh.value != Null ==> v == targetTemperatureHigh.value
    ensures targetTemperatureHigh.None? || targetTemperatureHigh == Some(Null) ==> v == Num(24.0)
  {
    OrDefault(targetTemperatureHigh, 24.0)
  }

  function HandleHeatingThresholdTemperatureGet(): (v: Value)
    reads this
    ensures targetTemperatureLow.Some? && targetTemperatureLow.value != Null ==> v == targetTemperatureLow.value
    ensures targetTemperatureLow.None? || targetTemperatureLow == Some(Null) ==> v == Num(18.0)
  {
    OrDefault(targetTemperatureLow, 18.0)
  }

  function HandleCurrentHeatingCoolingStateGet(): (c: int)
    reads this
    ensures 0 <= c <= 2
    ensures Valid() && mode == Str("off") ==> c == CurrentOff.Code()
  {
    currentHeatingCoolingState.Code()
  }

  function HandleTargetHeatingCoolingStateGet(): (c: int)
    reads this
    ensures Valid() && 0 <= c <= 3 ==> c == TargetStateOfMode(mode).Code()
  {
    targetHeatingCoolingState
  }

  function HandleFanActiveGet(): (a: ActiveState)
    reads this
    ensures a == Active <==> Truthy(fanActive)
  {
    ActiveOf(fanActive)
  }

  function HandleOccupancyDetectedGet(): (o: OccupancyState)
    reads this
    ensures o == OccupancyDetected <==> occupancyDetected
  {
    OccupancyOf(occupancyDetected)
  }

  // --- derived activity ----------------------------------------------------

  /** Recomputes the activity from mode and temperatures and pushes it, even when unchanged. */
  method UpdateCurrentHeatingCoolingState()
    modifies this`currentHeatingCoolingState, this`pushes
    ensures currentHeatingCoolingState == Recomputed(mode, currentTemperature, targetTemperature, old(currentHeatingCoolingState))
    ensures pushes == old(pushes) + [PushCurrentState(currentHeatingCoolingState)]
  {
    if mode == Str("off") {
      currentHeatingCoolingState := CurrentOff;
    } else if currentTemperature.Some? && targetTemperature.Some? {
      var diff := Difference(targetTemperature.value, currentTemperature.value);
      if diff.Some? && Abs(diff.value) < THRESHOLD {
        currentHeatingCoolingState := CurrentOff;
      } else if diff.Some? && diff.value > THRESHOLD && (mode == Str("heat") || mode == Str("range")) {
        currentHeatingCoolingState := CurrentHeat;
      } else if diff.Some? && diff.value < -THRESHOLD && (mode == Str("cool") || mode == Str("range")) {
        currentHeatingCoolingState := CurrentCool;
      } else {
        currentHeatingCoolingState := CurrentOff;
      }
    }
    pushes := pushes + [PushCurrentState(currentHeatingCoolingState)];
  }

  // --- device reports ------------------------------------------------------

  method UpdateCurrentTemperature(value: Value)
    modifies this`currentTemperature, this`currentHeatingCoolingState, this`pushes
    ensures State() == Applied(old(State()), CurrentTemperatureIs(value))
    ensures pushes == old(pushes) + PushesOf(old(State()), CurrentTemperatureIs(value))
  {
    currentTemperature := Some(value);
    pushes := pushes + [PushCurrentTemperature(value)];
    UpdateCurrentHeatingCoolingState();
  }

  method UpdateTargetTemperature(value: Value)
    modifies this`targetTemperature, this`pushes
    ensures State() == Applied(old(State()), TargetTemperatureIs(value))
    ensures pushes == old(pushes) + PushesOf(old(State()), TargetTemperatureIs(value))
  {
    targetTemperature := Some(value);
    pushes := pushes + [PushTargetTemperature(value)];
  }

  method UpdateTargetTemperatureHigh(value: Value)
    modifies this`targetTemperatureHigh, this`pushes
    ensures State() == Applied(old(State()), TargetTemperatureHighIs(value))
    ensures pushes == old(pushes) + PushesOf(old(State()), TargetTemperatureHighIs(value))
  {
    targetTemperatureHigh := Some(value);
    pushes := pushes + [PushCoolingThreshold(value)];
  }

  method UpdateTargetTemperatureLow(value: Value)
    modifies this`targetTemperatureLow, this`pushes
    ensures State() == Applied(old(State()), TargetTemperatureLowIs(value))
    ensures pushes == old(pushes) + PushesOf(old(State()), TargetTemperatureLowIs(value))
  {
    targetTemperatureLow := Some(value);
    pushes := pushes + [PushHeatingThreshold(value)];
  }

  method UpdateMode(value: Value)
    modifies this`mode, this`targetHeatingCoolingState, this`currentHeatingCoolingState, this`pushes
    ensures State() == Applied(old(State()), ModeIs(value))
    ensures pushes == old(pushes) + PushesOf(old(State()), ModeIs(value))
  {
    mode := value;
    var homekitState: TargetHeatingCoolingState;
    if value == Str("off") {
      homekitState := TargetOff;
    } else if value == Str("heat") {
      homekitState := TargetHeat;
    } else if value == Str("cool") {
      homekitState := TargetCool;
    } else if value == Str("range") {
      homekitState := TargetAuto;
    } else {
      homekitState := TargetOff;
    }
    targetHeatingCoolingState := homekitState.Code();
    pushes := pushes + [PushTargetState(homekitState)];
    UpdateCurrentHeatingCoolingState();
  }

  method UpdateFanState(value: Value)
    modifies this`fanActive, this`pushes
    ensures State() == Applied(old(State()), FanStateIs(value))
    ensures pushes == old(pushes) + PushesOf(old(State()), FanStateIs(value))
  {
    fanActive := value;
    var homekitState := if Truthy(value) then Active else Inactive;
    pushes := pushes + [PushFanActive(homekitState)];
  }

  method UpdateOccupancy(occupied: bool)
    modifies this`occupancyDetected, this`pushes
    ensures State() == Applied(old(State()), OccupancyIs(occupied))
    ensures pushes == old(pushes) + PushesOf(old(State()), OccupancyIs(occupied))
  {
    occupancyDetected := occupied;
    var homekitState := if occupied then OccupancyDetected else OccupancyNotDetected;
    pushes := pushes + [PushOccupancy(homekitState)];
  }

  // --- user actions --------------------------------------------------------

  method HandleTargetTemperatureSet(value: real)
    modifies this`targetTemperature, platform`calls, platform`sent
    ensures State() == AfterUserAction(old(State()), SetTargetTemperature(value))
    ensures platform.calls == old(platform.calls) + [CommandOf(serial, SetTargetTemperature(value))]
    ensures platform.sent == old(platform.sent) + platform.Transmitted(CommandOf(serial, SetTargetTemperature(value)))
  {
    targetTemperature := Some(Num(value));
    platform.PublishCommand(serial, "shared", "target_temperature", SNum(value));
  }

  method HandleCoolingThresholdTemperatureSet(value: real)
    modifies this`targetTemperatureHigh, platform`calls, platform`sent
    ensures State() == AfterUserAction(old(State()), SetCoolingThreshold(value))
    ensures platform.calls == old(platform.calls) + [CommandOf(serial, SetCoolingThreshold(value))]
    ensures platform.sent == old(platform.sent) + platform.Transmitted(CommandOf(serial, SetCoolingThreshold(value)))
  {
    targetTemperatureHigh := Some(Num(value));
    platform.PublishCommand(serial, "shared", "target_temperature_high", SNum(value));
  }

  method HandleHeatingThresholdTemperatureSet(value: real)
    modifies this`targetTemperatureLow, platform`calls, platform`sent
    ensures State() == AfterUserAction(old(State()), SetHeatingThreshold(value))
    ensures platform.calls == old(platform.calls) + [CommandOf(serial, SetHeatingThreshold(value))]
    ensures platform.sent == old(platform.sent) + platform.Transmitted(CommandOf(serial, SetHeatingThreshold(value)))
  {
    targetTemperatureLow := Some(Num(value));
    platform.PublishCommand(serial, "shared", "target_temperature_low", SNum(value));
  }

  method HandleTargetHeatingCoolingStateSet(value: int)
    modifies this`targetHeatingCoolingState, this`mode, this`currentHeatingCoolingState, this`pushes
    modifies platform`calls, platform`sent
    ensures State() == AfterUserAction(old(State()), SetTargetState(value))
    ensures pushes == old(pushes) + [PushCurrentState(currentHeatingCoolingState)]
    ensures platform.calls == old(platform.calls) + [CommandOf(serial, SetTargetState(value))]
    ensures platform.sent == old(platform.sent) + platform.Transmitted(CommandOf(serial, SetTargetState(value)))
  {
    targetHeatingCoolingState := value;
    var nestMode: string;
    if value == TargetOff.Code() {
      nestMode := "off";
    } else if value == TargetHeat.Code() {
      nestMode := "heat";
    } else if value == TargetCool.Code() {
      nestMode := "cool";
    } else if value == TargetAuto.Code() {
      nestMode := "range";
    } else {
      nestMode := "off";
    }
    mode := Str(nestMode);
    platform.PublishCommand(serial, "shared", "target_temperature_type", SStr(nestMode));
    UpdateCurrentHeatingCoolingState();
  }

  method HandleFanActiveSet(value: int)
    modifies this`fanActive, platform`calls, platform`sent
    ensures State() == AfterUserAction(old(State()), SetFanActive(value))
    ensures platform.calls == old(platform.calls) + [CommandOf(serial, SetFanActive(value))]
    ensures platform.sent == old(platform.sent) + platform.Transmitted(CommandOf(serial, SetFanActive(value)))
  {
    var active := value == Active.Code();
    fanActive := Bool(active);
    platform.PublishCommand(serial, "device", "fan_timer_active", SBool(active));
  }
}
