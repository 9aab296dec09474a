// The platform of src/platform.ts: topic parsing and dispatch of inbound
// MQTT messages, command publishing, the subscription list, and the
// reconciliation of configured devices with cached accessories.

// ---------------------------------------------------------------------------
// Configuration and transport records
// ---------------------------------------------------------------------------

/** One configured thermostat (src/types.ts:11-15); the display-units option is not modelled. */
datatype DeviceConfig = DeviceConfig(name: string, serial: string)

/** The platform configuration (src/types.ts:1-9) as far as the core reads it. */
datatype PlatformConfig = PlatformConfig(topicPrefix: Option<string>, devices: seq<DeviceConfig>)

/** `this.mqttClient`: absent, or present and connected or not. */
datatype MqttClient = NoClient | Client(connected: bool)

/** One call of `publishCommand`. */
datatype Command = Command(serial: string, objectType: string, field: string, value: Scalar)

/** One message handed to the MQTT client's `publish`. */
datatype Message = Message(topic: string, payload: Scalar)

/** The identifier `uuid.generate` derives from a serial, taken as injective. */
datatype Uuid = Uuid(name: string)

const DEFAULT_PREFIX: string := "nolongerevil"

/** `config.topicPrefix || 'nolongerevil'`: an absent or empty prefix falls back to the default. */
function TopicPrefix(configured: Option<string>): (p: string)
  ensures p != ""
  ensures configured.Some? && configured.value != "" ==> p == configured.value
  ensures configured.None? || configured.value == "" ==> p == DEFAULT_PREFIX
{
  if configured.Some? && configured.value != "" then configured.value else DEFAULT_PREFIX
}

// ---------------------------------------------------------------------------
// Topics
// ---------------------------------------------------------------------------

/** The first segments of a topic built from segments are those segments. */
lemma {:induction false} TopicExtends(segments: seq<string>, k: nat)
  requires 1 <= k <= |segments|
  ensures Topic(segments[..k]) <= Topic(segments)
  decreases k
{
  if k > 1 {
    TopicExtends(segments[1..], k - 1);
    assert segments[1..][..k - 1] == segments[..k][1..];
    assert segments[..k][0] == segments[0];
  }
}

/** The address a topic names: serial, object type and field. */
datatype Address = Address(serial: string, objectType: string, field: string)

/**
 * The topic check of `handleMessage`: at least four segments, the first equal
 * to the prefix; segments 1 to 3 give the address and any further ones are ignored.
 */
function ParseTopic(prefix: string, topic: string): (a: Option<Address>)
  ensures a.Some? <==> |Split(topic, SLASH)| >= 4 && Split(topic, SLASH)[0] == prefix
  ensures a.Some? ==> SLASH !in a.value.serial && SLASH !in a.value.objectType && SLASH !in a.value.field
  ensures a.Some? ==> Topic([prefix, a.value.serial, a.value.objectType, a.value.field]) <= topic
{
  var parts := Split(topic, SLASH);
  if |parts| < 4 || parts[0] != prefix then None
  else
    JoinSplit(topic, SLASH);
    TopicExtends(parts, 4);
    assert parts[..4] == [prefix, parts[1], parts[2], parts[3]];
    Some(Address(parts[1], parts[2], parts[3]))
}

/** A topic built from the prefix and slash-free segments parses to its address, whatever trails it. */
lemma TopicParsesToAddress(prefix: string, serial: string, objectType: string, field: string, extra: seq<string>)
  requires SLASH !in prefix && SLASH !in serial && SLASH !in objectType && SLASH !in field
  requires forall i :: 0 <= i < |extra| ==> SLASH !in extra[i]
  ensures ParseTopic(prefix, Topic([prefix, serial, objectType, field] + extra)) == Some(Address(serial, objectType, field))
{
  var segments := [prefix, serial, objectType, field] + extra;
  TopicSegments(segments);
}

/**
 * Object type and field of each topic `subscribeToTopics` lists for a device,
 * in its order; the last, availability, has no object type.
 */
const TOPIC_TAILS: seq<seq<string>> := [
  ["shared", "current_temperature"],
  ["device", "current_temperature"],
  ["shared", "target_temperature"],
  ["shared", "target_temperature_low"],
  ["shared", "target_temperature_high"],
  ["shared", "target_temperature_type"],
  ["device", "fan_timer_active"],
  ["device", "away"],
  ["availability"]]

/** The nine topics `subscribeToTopics` subscribes to for one device, in order. */
function DeviceTopics(prefix: string, serial: string): (ts: seq<string>)
  ensures |ts| == 9
  ensures forall i :: 0 <= i < 9 ==> prefix + [SLASH] + serial + [SLASH] <= ts[i]
{
  var ts := seq(9, i requires 0 <= i < 9 => Topic([prefix, serial] + TOPIC_TAILS[i]));
  forall i | 0 <= i < 9
    ensures prefix + [SLASH] + serial + [SLASH] <= ts[i]
  {
    TopicStartsWith(prefix, serial, TOPIC_TAILS[i]);
  }
  ts
}

lemma TopicStartsWith(prefix: string, serial: string, tail: seq<string>)
  requires |tail| >= 1
  ensures prefix + [SLASH] + serial + [SLASH] <= Topic([prefix, serial] + tail)
{
  var s := [prefix, serial] + tail;
  assert s[1..] == [serial] + tail;
  assert s[1..][1..] == tail;
  assert Join(s[1..], SLASH) == serial + [SLASH] + Join(tail, SLASH);
  assert Topic(s) == prefix + [SLASH] + Join(s[1..], SLASH);
  assert Topic(s) == (prefix + [SLASH] + serial + [SLASH]) + Join(tail, SLASH);
}

/** All topics subscribed for the configured devices, device by device. */
function AllTopics(prefix: string, devices: seq<DeviceConfig>): (ts: seq<string>)
  ensures |ts| == 9 * |devices|
{
  if |devices| == 0 then [] else AllTopics(prefix, devices[..|devices| - 1]) + DeviceTopics(prefix, devices[|devices| - 1].serial)
}

/** The `i`-th block of nine subscribed topics is the `i`-th device's topics. */
lemma {:induction false} AllTopicsBlocks(prefix: string, devices: seq<DeviceConfig>, i: nat)
  requires i < |devices|
  ensures AllTopics(prefix, devices)[9 * i .. 9 * i + 9] == DeviceTopics(prefix, devices[i].serial)
{
  var init := devices[..|devices| - 1];
  var ts := AllTopics(prefix, devices);
  assert ts == AllTopics(prefix, init) + DeviceTopics(prefix, devices[|devices| - 1].serial);
  if i < |init| {
    AllTopicsBlocks(prefix, init, i);
    assert ts[9 * i .. 9 * i + 9] == AllTopics(prefix, init)[9 * i .. 9 * i + 9];
  } else {
    assert ts[9 * i .. 9 * i + 9] == ts[|AllTopics(prefix, init)|..];
  }
}

/** Every subscribed topic but availability parses to the device's address with a handled field. */
lemma SubscribedStateTopicsRoute(prefix: string, serial: string, i: nat, value: Value)
  requires SLASH !in prefix && SLASH !in serial
  requires i < 8
  ensures ParseTopic(prefix, DeviceTopics(prefix, serial)[i]) == Some(Address(serial, TOPIC_TAILS[i][0], TOPIC_TAILS[i][1]))
  ensures Dispatch(TOPIC_TAILS[i][0], TOPIC_TAILS[i][1], value).ToHandler?
{
  var tail := TOPIC_TAILS[i];
  assert SLASH !in tail[0] && SLASH !in tail[1];
  assert [prefix, serial] + tail == [prefix, serial, tail[0], tail[1]] + [];
  TopicParsesToAddress(prefix, serial, tail[0], tail[1], []);
}

/** The subscribed availability topic has three segments, so `handleMessage` drops it. */
lemma AvailabilityTopicDropped(prefix: string, serial: string)
  requires SLASH !in prefix && SLASH !in serial
  ensures |Split(DeviceTopics(prefix, serial)[8], SLASH)| == 3
  ensures ParseTopic(prefix, DeviceTopics(prefix, serial)[8]) == None
{
  var segments := [prefix, serial, "availability"];
  assert [prefix, serial] + TOPIC_TAILS[8] == segments;
  TopicSegments(segments);
}

/** The topic `publishCommand` publishes on: `prefix/serial/objectType/field/set`. */
function CommandTopic(prefix: string, c: Command): (t: string)
  ensures t == prefix + "/" + c.serial + "/" + c.objectType + "/" + c.field + "/set"
{
  var segments := [prefix, c.serial, c.objectType, c.field, "set"];
  assert Join(segments[3..], SLASH) == c.field + "/set" by {
    assert segments[3..][1..] == ["set"];
  }
  assert Join(segments[1..], SLASH) == c.serial + "/" + c.objectType + "/" + c.field + "/set" by {
    assert segments[1..][1..] == segments[2..] && segments[2..][1..] == segments[3..];
  }
  Topic(segments)
}

/** A command topic splits into five segments, the last `set`, and names the command's address. */
lemma CommandTopicSegments(prefix: string, c: Command)
  requires SLASH !in prefix && SLASH !in c.serial && SLASH !in c.objectType && SLASH !in c.field
  ensures Split(CommandTopic(prefix, c), SLASH) == [prefix, c.serial, c.objectType, c.field, "set"]
  ensures ParseTopic(prefix, CommandTopic(prefix, c)) == Some(Address(c.serial, c.objectType, c.field))
{
  TopicSegments([prefix, c.serial, c.objectType, c.field, "set"]);
}

// ---------------------------------------------------------------------------
// Dispatch
// ---------------------------------------------------------------------------

/** Where `handleMessage` sends a decoded value. */
datatype Route = ToHandler(report: Report) | AvailabilityLogged | Unhandled

/** The (object type, field) pairs dispatched only under that exact object type. */
const SCOPED_FIELDS: set<(string, string)> := {
  ("shared", "target_temperature"), ("shared", "target_temperature_low"),
  ("shared", "target_temperature_high"), ("shared", "target_temperature_type"),
  ("device", "fan_timer_active"), ("device", "away")}

/** The field a report arrives under. */
function FieldOf(r: Report): string
{
  match r
  case CurrentTemperatureIs(_) => "current_temperature"
  case TargetTemperatureIs(_) => "target_temperature"
  case TargetTemperatureLowIs(_) => "target_temperature_low"
  case TargetTemperatureHighIs(_) => "target_temperature_high"
  case ModeIs(_) => "target_temperature_type"
  case FanStateIs(_) => "fan_timer_active"
  case OccupancyIs(_) => "away"
}

/** The object type a report arrives under (current temperature arrives under either). */
function ObjectTypeOf(r: Report): string
{
  if r.FanStateIs? || r.OccupancyIs? then "device" else "shared"
}

/**
 * The if/else chain of `handleMessage`: `current_temperature` is matched on the
 * field alone, every other handled field needs its object type, `away` is
 * negated, and availability or anything else reaches no handler.
 */
function Dispatch(objectType: string, field: string, value: Value): (r: Route)
  ensures r.ToHandler? <==> field == "current_temperature" || (objectType, field) in SCOPED_FIELDS
  ensures r == AvailabilityLogged <==> field == "availability"
  ensures r.ToHandler? ==> field == FieldOf(r.report)
  ensures r.ToHandler? && !r.report.CurrentTemperatureIs? ==> objectType == ObjectTypeOf(r.report)
  ensures field == "current_temperature" ==> r == ToHandler(CurrentTemperatureIs(value))
  ensures r.ToHandler? && r.report.OccupancyIs? ==> r.report.occupied == !Truthy(value)
  ensures r.ToHandler? && !r.report.OccupancyIs? ==>
    r.report in {TargetTemperatureIs(value), TargetTemperatureLowIs(value), TargetTemperatureHighIs(value),
                 ModeIs(value), FanStateIs(value), CurrentTemperatureIs(value)}
{
  if field == "current_temperature" then ToHandler(CurrentTemperatureIs(value))
  else if objectType == "shared" && field == "target_temperature" then ToHandler(TargetTemperatureIs(value))
  else if objectType == "shared" && field == "target_temperature_low" then ToHandler(TargetTemperatureLowIs(value))
  else if objectType == "shared" && field == "target_temperature_high" then ToHandler(TargetTemperatureHighIs(value))
  else if objectType == "shared" && field == "target_temperature_type" then ToHandler(ModeIs(value))
  else if objectType == "device" && field == "fan_timer_active" then ToHandler(FanStateIs(value))
  else if objectType == "device" && field == "away" then ToHandler(OccupancyIs(!Truthy(value)))
  else if field == "availability" then AvailabilityLogged
  else Unhandled
}

/** A device reporting `away = true` ends with occupancy not detected. */
lemma AwayMeansNotOccupied(s: ThermostatState)
  ensures Dispatch("device", "away", Bool(true)) == ToHandler(OccupancyIs(false))
  ensures Applied(s, Dispatch("device", "away", Bool(true)).report).occupancyDetected == false
{
}

/**
 * The value an echoed command payload decodes to: JSON reads back numbers and
 * booleans, and a mode name falls through to the raw text. This takes as given
 * what `JSON.parse` and `parseFloat` return for the text `String(value)` of a
 * published value, rather than deriving it from `Decode`.
 */
function EchoedValue(v: Scalar): (r: Value)
  ensures v.SNum? <==> r.Num?
  ensures v.SNum? ==> r.n == v.n
  ensures v.SBool? ==> r == Bool(v.b)
  ensures v.SStr? ==> r == Str(v.s)
{
  match v
  case SNum(n) => Num(n)
  case SBool(b) => Bool(b)
  case SStr(s) => Str(s)
}

/**
 * When the device confirms a command by reporting its value back on the
 * command's own object type and field, the confirmed state equals the
 * optimistic one. A target-state code outside HomeKit's four is the exception:
 * it was sent as "off", and "off" comes back as OFF.
 */
lemma {:induction false} CommandEchoIsStable(s: ThermostatState, serial: string, u: UserAction)
  requires u.SetTargetState? ==> 0 <= u.code <= 3
  ensures var c := CommandOf(serial, u);
          var route := Dispatch(c.objectType, c.field, EchoedValue(c.value));
          route.ToHandler? && Applied(AfterUserAction(s, u), route.report) == AfterUserAction(s, u)
{
  match u
  case SetTargetState(code) =>
    var t := TargetStateOfMode(Str(ModeOfTargetCode(code)));
    assert t.Code() == code by {
      var k := if code == 0 then TargetOff else if code == 1 then TargetHeat else if code == 2 then TargetCool else TargetAuto;
      assert k.Code() == code;
      ModeTablesRoundTripFromHomeKit(k);
    }
  case _ =>
}

/** An out-of-range target code is sent as "off" and not confirmed: the echo resets the target state to OFF. */
lemma OutOfRangeTargetCodeIsNotStable(s: ThermostatState, serial: string, code: int)
  requires !(0 <= code <= 3)
  ensures var u := SetTargetState(code);
          var c := CommandOf(serial, u);
          var route := Dispatch(c.objectType, c.field, EchoedValue(c.value));
          && c.value == SStr("off")
          && Applied(AfterUserAction(s, u), route.report).targetHeatingCoolingState == TargetOff.Code() != code
{
}

// ---------------------------------------------------------------------------
// The platform
// ---------------------------------------------------------------------------

class Platform {
  const config: PlatformConfig
  /** JSON.parse; None when it throws. */
  const parseJson: string -> Option<Value>
  /** parseFloat; None when it yields NaN. */
  const parseFloat: string -> Option<real>

  var client: MqttClient
  /** `this.accessories`: cached and created host accessories. */
  var accessories: seq<PlatformAccessory>
  /** `this.thermostatAccessories`: serial to state machine. */
  var thermostats: map<string, ThermostatAccessory>

  /** Every `publishCommand` call, in order. */
  ghost var calls: seq<Command>
  /** Every message handed to the MQTT client. */
  ghost var sent: seq<Message>
  /** Every topic passed to the MQTT client's `subscribe`. */
  ghost var subscriptions: seq<string>
  /** Accessories passed to `registerPlatformAccessories`, `updatePlatformAccessories`, `unregisterPlatformAccessories`. */
  ghost var registered: seq<PlatformAccessory>
  ghost var refreshed: seq<PlatformAccessory>

  constructor (config: PlatformConfig, parseJson: string -> Option<Value>, parseFloat: string -> Option<real>, client: MqttClient)
    ensures this.config == config && this.parseJson == parseJson && this.parseFloat == parseFloat
    ensures this.client == client
    ensures accessories == [] && thermostats == map[]
    ensures calls == [] && sent == [] && subscriptions == []
    ensures registered == [] && refreshed == []
  {
    this.config := config;
    this.parseJson := parseJson;
    this.parseFloat := parseFloat;
    this.client := client;
    accessories := [];
    thermostats := map[];
    calls, sent, subscriptions := [], [], [];
    registered, refreshed := [], [];
  }

  /** The topic prefix every handler of this platform computes from its own configuration. */
  function Prefix(): (p: string)
    ensures p != "" && (p == DEFAULT_PREFIX || config.topicPrefix == Some(p))
  {
    TopicPrefix(config.topicPrefix)
  }

  /** What `publishCommand` hands to the client for command `c`: nothing unless a connected client exists. */
  function Transmitted(c: Command): (m: seq<Message>)
    reads this
    ensures m != [] <==> client == Client(true)
    ensures m != [] ==> m == [Message(CommandTopic(Prefix(), c), c.value)]
  {
    if client.NoClient? || !client.connected then [] else [Message(CommandTopic(Prefix(), c), c.value)]
  }

  method PublishCommand(serial: string, objectType: string, field: string, value: Scalar)
    modifies this`calls, this`sent
    ensures calls == old(calls) + [Command(serial, objectType, field, value)]
    ensures sent == old(sent) + Transmitted(Command(serial, objectType, field, value))
  {
    calls := calls + [Command(serial, objectType, field, value)];
    if client.NoClient? || !client.connected {
      return;
    }
    var topic := Topic([Prefix(), serial, objectType, field, "set"]);
    sent := sent + [Message(topic, value)];
  }

  /** The inner loop of `subscribeToTopics`: subscribe to each of `topics`, in order. */
  method SubscribeEach(topics: seq<string>)
    modifies this`subscriptions
    ensures subscriptions == old(subscriptions) + topics
  {
    var j := 0;
    while j < |topics|
      invariant 0 <= j <= |topics|
      invariant subscriptions == old(subscriptions) + topics[..j]
    {
      subscriptions := subscriptions + [topics[j]];
      j := j + 1;
    }
    assert topics[..j] == topics;
  }

  method SubscribeToTopics()
    modifies this`subscriptions
    ensures client.NoClient? ==> subscriptions == old(subscriptions)
    ensures client.Client? ==> subscriptions == old(subscriptions) + AllTopics(Prefix(), config.devices)
  {
    if client.NoClient? {
      return;
    }
    var topicPrefix := Prefix();
    var devices := config.devices;
    var i := 0;
    while i < |devices|
      invariant 0 <= i <= |devices|
      invariant subscriptions == old(subscriptions) + AllTopics(topicPrefix, devices[..i])
    {
      SubscribeEach(DeviceTopics(topicPrefix, devices[i].serial));
      assert devices[..i + 1][..i] == devices[..i];
      i := i + 1;
    }
    assert devices[..i] == devices;
  }

  method HandleMessage(topic: string, payload: string)
    modifies thermostats.Values
    ensures var a := ParseTopic(Prefix(), topic);
      a.None? || a.value.serial !in thermostats ==>
        forall t :: t in thermostats.Values ==> unchanged(t)
    ensures var a := ParseTopic(Prefix(), topic);
      a.Some? && a.value.serial in thermostats ==>
        var target := thermostats[a.value.serial];
        var route := Dispatch(a.value.objectType, a.value.field, Decode(payload, parseJson, parseFloat));
        && (forall t :: t in thermostats.Values && t != target ==> unchanged(t))
        && (route.ToHandler? ==>
              target.State() == Applied(old(target.State()), route.report)
              && target.pushes == old(target.pushes) + PushesOf(old(target.State()), route.report))
        && (!route.ToHandler? ==> unchanged(target))
  {
    var topicPrefix := Prefix();
    var topicParts := Split(topic, SLASH);
    if |topicParts| < 4 || topicParts[0] != topicPrefix {
      return;
    }
    var serial, objectType, field := topicParts[1], topicParts[2], topicParts[3];
    if serial !in thermostats {
      return;
    }
    var accessory := thermostats[serial];
    var value := Decode(payload, parseJson, parseFloat);
    if field == "current_temperature" {
      accessory.UpdateCurrentTemperature(value);
    } else if objectType == "shared" && field == "target_temperature" {
      accessory.UpdateTargetTemperature(value);
    } else if objectType == "shared" && field == "target_temperature_low" {
      accessory.UpdateTargetTemperatureLow(value);
    } else if objectType == "shared" && field == "target_temperature_high" {
      accessory.UpdateTargetTemperatureHigh(value);
    } else if objectType == "shared" && field == "target_temperature_type" {
      accessory.UpdateMode(value);
    } else if objectType == "device" && field == "fan_timer_active" {
      accessory.UpdateFanState(value);
    } else if objectType == "device" && field == "away" {
      accessory.UpdateOccupancy(!Truthy(value));
    } else if field == "availability" {
      // logged only
    }
  }

  method ConfigureAccessory(accessory: PlatformAccessory)
    modifies this`accessories
    ensures accessories == old(accessories) + [accessory]
  {
    accessories := accessories + [accessory];
  }

  /** The accessories `discoverDevices` hands to `unregisterPlatformAccessories`. */
  function Removal(): (r: seq<PlatformAccessory>)
    reads this`accessories, accessories
    ensures forall i :: 0 <= i < |r| ==> r[i] in accessories && r[i].device.serial !in Serials(config.devices)
    ensures forall k :: 0 <= k < |accessories| && accessories[k].device.serial !in Serials(config.devices) ==> accessories[k] in r
    ensures r == Picked(accessories, UnconfiguredIndices(accessories, Serials(config.devices), |accessories|))
  {
    UnconfiguredInOrder(accessories, Serials(config.devices));
    Unconfigured(accessories, Serials(config.devices))
  }

  /**
   * The restoring branch of the loop in `discoverDevices`: the first cached
   * accessory with the device's uuid takes the device's config and is passed
   * to `updatePlatformAccessories`; a new state machine is stored under the serial.
   */
  method RestoreAccessory(k: nat, device: DeviceConfig)
    requires FirstWithUuid(Views(accessories), Uuid(device.serial)) == Some(k)
    modifies this`thermostats, this`refreshed, accessories[k]
    ensures accessories[k].device == device
    ensures Refreshed(old(Views(accessories)), Views(accessories), k, device)
    ensures OthersKept(old(Views(accessories)), Views(accessories), accessories, k)
    ensures refreshed == old(refreshed) + [accessories[k]]
    ensures device.serial in thermostats && thermostats == old(thermostats)[device.serial := thermostats[device.serial]]
    ensures fresh(thermostats[device.serial])
    ensures thermostats[device.serial].serial == device.serial && thermostats[device.serial].platform == this
    ensures thermostats[device.serial].State() == InitialState()
  {
    var existing := accessories[k];
    existing.device := device;
    refreshed := refreshed + [existing];
    var thermostat := new ThermostatAccessory(this, device.serial);
    thermostats := thermostats[device.serial := thermostat];
  }

  /**
   * The creating branch of the loop in `discoverDevices`: no cached accessory
   * has the device's uuid, so a new one is created, registered and appended;
   * a new state machine is stored under the serial.
   */
  method CreateAccessory(device: DeviceConfig)
    requires FirstWithUuid(Views(accessories), Uuid(device.serial)).None?
    modifies this`accessories, this`thermostats, this`registered
    ensures |accessories| == |old(accessories)| + 1 && accessories == old(accessories) + [accessories[|old(accessories)|]]
    ensures var a := accessories[|old(accessories)|];
      fresh(a) && a.device == device && a.uuid == Uuid(device.serial) && a.displayName == device.name
    ensures Views(accessories) == old(Views(accessories)) + [AccessoryView(Uuid(device.serial), device)]
    ensures registered == old(registered) + [accessories[|old(accessories)|]]
    ensures device.serial in thermostats && thermostats == old(thermostats)[device.serial := thermostats[device.serial]]
    ensures fresh(thermostats[device.serial])
    ensures thermostats[device.serial].serial == device.serial && thermostats[device.serial].platform == this
    ensures thermostats[device.serial].State() == InitialState()
  {
    var accessory := new PlatformAccessory(device.name, Uuid(device.serial), device);
    var thermostat := new ThermostatAccessory(this, device.serial);
    thermostats := thermostats[device.serial := thermostat];
    registered := registered + [accessory];
    accessories := accessories + [accessory];
  }

  /** The restoring branch of one pass, with what it does to the loop's bookkeeping. */
  method RestorePass(device: DeviceConfig, ghost pass: Pass, k: nat)
    requires pass.i < |config.devices| && device == config.devices[pass.i]
    requires FirstWithUuid(Views(accessories), Uuid(device.serial)) == Some(k)
    requires Layout(config.devices, Views(accessories), accessories, registered, pass)
    requires ThermostatsSince(config.devices, thermostats, pass, this)
    requires RefreshLog(config.devices, Views(accessories), accessories, refreshed, pass)
    modifies this`thermostats, this`refreshed, accessories[k]
    ensures Layout(config.devices, Views(accessories), accessories, registered, pass.Next(device.serial))
    ensures ThermostatsSince(config.devices, thermostats, pass.Next(device.serial), this)
    ensures RefreshLog(config.devices, Views(accessories), accessories, refreshed, pass.Next(device.serial))
    ensures refreshed == old(refreshed) + [old(accessories)[k]]
  {
    RestoreAccessory(k, device);
    ThermostatsStep(config.devices, old(thermostats), pass, this, thermostats[device.serial]);
    RestoreStep(config.devices, old(Views(accessories)), Views(accessories), accessories, registered, pass, k);
    RestoreLogStep(config.devices, old(Views(accessories)), Views(accessories), accessories, old(refreshed), pass, k);
  }

  /** The creating branch of one pass, with what it does to the loop's bookkeeping. */
  method CreatePass(device: DeviceConfig, ghost pass: Pass)
    requires pass.i < |config.devices| && device == config.devices[pass.i]
    requires FirstWithUuid(Views(accessories), Uuid(device.serial)).None?
    requires Layout(config.devices, Views(accessories), accessories, registered, pass)
    requires ThermostatsSince(config.devices, thermostats, pass, this)
    requires RefreshLog(config.devices, Views(accessories), accessories, refreshed, pass)
    modifies this`accessories, this`thermostats, this`registered
    ensures Layout(config.devices, Views(accessories), accessories, registered, pass.Next(device.serial))
    ensures ThermostatsSince(config.devices, thermostats, pass.Next(device.serial), this)
    ensures RefreshLog(config.devices, Views(accessories), accessories, refreshed, pass.Next(device.serial))
    ensures |accessories| == |old(accessories)| + 1 && accessories == old(accessories) + [accessories[|old(accessories)|]]
    ensures Views(accessories) == old(Views(accessories)) + [AccessoryView(Uuid(device.serial), device)]
    ensures fresh(accessories[|old(accessories)|])
  {
    CreateAccessory(device);
    ThermostatsStep(config.devices, old(thermostats), pass, this, thermostats[device.serial]);
    CreateStep(config.devices, old(Views(accessories)), old(accessories), old(registered), pass, accessories[|old(accessories)|]);
    CreateLogStep(config.devices, old(Views(accessories)), old(accessories), refreshed, pass, accessories[|old(accessories)|]);
  }

  /**
   * One pass of the loop in `discoverDevices`: restore the first cached
   * accessory with the device's uuid, or create a new one. `pass` is the
   * loop's progress so far. Exactly one thing happens per device: the first
   * cached accessory with its uuid is refreshed, or one new accessory is added.
   */
  method DiscoverDevice(device: DeviceConfig, ghost pass: Pass)
    requires pass.i < |config.devices| && device == config.devices[pass.i]
    requires Layout(config.devices, Views(accessories), accessories, registered, pass)
    requires ThermostatsSince(config.devices, thermostats, pass, this)
    requires RefreshLog(config.devices, Views(accessories), accessories, refreshed, pass)
    modifies this`accessories, this`thermostats, this`registered, this`refreshed
    modifies Cached(accessories, Uuid(device.serial))
    ensures Layout(config.devices, Views(accessories), accessories, registered, pass.Next(device.serial))
    ensures ThermostatsSince(config.devices, thermostats, pass.Next(device.serial), this)
    ensures RefreshLog(config.devices, Views(accessories), accessories, refreshed, pass.Next(device.serial))
    ensures var found := FirstWithUuid(old(Views(accessories)), Uuid(device.serial));
      found.Some? ==> accessories == old(accessories) && refreshed == old(refreshed) + [old(accessories)[found.value]]
    ensures var found := FirstWithUuid(old(Views(accessories)), Uuid(device.serial));
      found.None? ==> (refreshed == old(refreshed) && |accessories| == |old(accessories)| + 1
        && Views(accessories) == old(Views(accessories)) + [AccessoryView(Uuid(device.serial), device)])
    ensures old(accessories) <= accessories && |accessories| <= |old(accessories)| + 1
    ensures forall k :: |old(accessories)| <= k < |accessories| ==> fresh(accessories[k])
  {
    var found := FirstWithUuid(Views(accessories), Uuid(device.serial));
    if found.Some? {
      RestorePass(device, pass, found.value);
      assert accessories == old(accessories);
    } else {
      CreatePass(device, pass);
      forall k | |old(accessories)| <= k < |accessories|
        ensures fresh(accessories[k])
      {
        assert k == |old(accessories)|;
      }
    }
  }

  /**
   * The removal step closing `discoverDevices`: the calls it makes to
   * `unregisterPlatformAccessories`, one with the unconfigured accessories if there are any.
   */
  method UnregisterUnconfigured() returns (unregisterCalls: seq<seq<PlatformAccessory>>)
    ensures unregisterCalls == (if Removal() == [] then [] else [Removal()])
  {
    var configuredSerials := Serials(config.devices);
    var accessoriesToRemove := Unconfigured(accessories, configuredSerials);
    unregisterCalls := [];
    if |accessoriesToRemove| > 0 {
      unregisterCalls := [accessoriesToRemove];
    }
  }

  /**
   * The loop of `discoverDevices`: every configured device is restored or
   * created, in order; `touched` holds the serials it handled.
   */
  method DiscoverConfigured() returns (ghost touched: set<string>)
    modifies this`accessories, this`thermostats, this`registered, this`refreshed, accessories
    ensures Layout(config.devices, Views(accessories), accessories, registered,
      Pass(|config.devices|, touched, old(accessories), old(Views(accessories)), old(thermostats), old(registered), old(refreshed)))
    ensures ThermostatsSince(config.devices, thermostats,
      Pass(|config.devices|, touched, old(accessories), old(Views(accessories)), old(thermostats), old(registered), old(refreshed)), this)
    ensures RefreshLog(config.devices, Views(accessories), accessories, refreshed,
      Pass(|config.devices|, touched, old(accessories), old(Views(accessories)), old(thermostats), old(registered), old(refreshed)))
    ensures forall k :: |old(accessories)| <= k < |accessories| ==> fresh(accessories[k])
  {
    var devices := config.devices;
    ghost var pass := Pass(0, {}, accessories, Views(accessories), thermostats, registered, refreshed);
    var i := 0;
    while i < |devices|
      invariant i == pass.i <= |devices|
      invariant pass.accessories == old(accessories) && pass.views == old(Views(accessories))
      invariant pass.thermostats == old(thermostats) && pass.registered == old(registered) && pass.refreshed == old(refreshed)
      invariant Layout(devices, Views(accessories), accessories, registered, pass)
      invariant ThermostatsSince(devices, thermostats, pass, this)
      invariant RefreshLog(devices, Views(accessories), accessories, refreshed, pass)
      invariant forall k :: |old(accessories)| <= k < |accessories| ==> fresh(accessories[k])
    {
      forall a | a in Cached(accessories, Uuid(devices[i].serial))
        ensures a in old(accessories) || fresh(a)
      {
        var k := FirstWithUuid(Views(accessories), Uuid(devices[i].serial)).value;
        if k < |old(accessories)| {
          assert a == old(accessories)[k];
        }
      }
      ghost var before := accessories;
      DiscoverDevice(devices[i], pass);
      forall k | |old(accessories)| <= k < |before|
        ensures fresh(accessories[k])
      {
        assert accessories[k] == before[k];
      }
      pass := pass.Next(devices[i].serial);
      i := i + 1;
    }
    touched := pass.touched;
    assert pass == Pass(|config.devices|, touched, old(accessories), old(Views(accessories)), old(thermostats), old(registered), old(refreshed));
  }

  /**
   * The loop of `discoverDevices` with what it leaves stated on the
   * accessories themselves, before the removal step.
   */
  method ReconcileConfigured()
    modifies this`accessories, this`thermostats, this`registered, this`refreshed, accessories
    ensures Installed(thermostats, set d | d in config.devices :: d.serial, this)
    ensures forall s :: s in thermostats <==> s in old(thermostats) || s in Serials(config.devices)
    ensures forall s :: s in old(thermostats) && s !in Serials(config.devices) ==> thermostats[s] == old(thermostats[s])
    ensures old(accessories) <= accessories
    ensures forall k :: |old(accessories)| <= k < |accessories| ==> fresh(accessories[k]) && accessories[k].device in config.devices
    ensures registered == old(registered) + accessories[|old(accessories)|..]
    ensures forall d :: d in config.devices ==> RepresentedIn(Views(accessories), d.serial)
    ensures KeptOrRestored(old(Views(accessories)), Views(accessories), config.devices)
    ensures old(refreshed) <= refreshed
    ensures forall j :: |old(refreshed)| <= j < |refreshed| ==> RestoredIn(Views(accessories), accessories, config.devices, refreshed[j])
    ensures |refreshed| - |old(refreshed)| + |accessories| - |old(accessories)| == |config.devices|
    ensures forall a :: a in Removal() ==> a in old(accessories)
    ensures forall k :: 0 <= k < |old(accessories)| && accessories[k] !in refreshed[|old(refreshed)|..] ==>
      accessories[k].device == old(accessories[k].device)
    ensures forall k :: 0 <= k < |old(accessories)| ==>
      (old(accessories[k].device.serial) !in Serials(config.devices)
       && !RestoredIn(Views(accessories), accessories, config.devices, accessories[k])) ==> accessories[k] in Removal()
  {
    ghost var touched := DiscoverConfigured();
    ghost var pass := Pass(|config.devices|, touched, old(accessories), old(Views(accessories)), old(thermostats), old(registered), old(refreshed));
    DiscoveryComplete(config.devices, Views(accessories), accessories, registered, thermostats, pass, this);
    assert RefreshLog(config.devices, Views(accessories), accessories, refreshed, pass);
    forall k | 0 <= k < |old(accessories)| && accessories[k] !in refreshed[|old(refreshed)|..]
      ensures accessories[k].device == old(accessories[k].device)
    {
      assert accessories[k] == old(accessories)[k];
      assert Views(accessories)[k].device == accessories[k].device;
      assert old(Views(accessories))[k].device == old(accessories[k].device);
    }
    forall k | 0 <= k < |old(accessories)| &&
        old(accessories[k].device.serial) !in Serials(config.devices)
        && !RestoredIn(Views(accessories), accessories, config.devices, accessories[k])
      ensures accessories[k].device.serial !in Serials(config.devices)
    {
      assert accessories[k] !in refreshed[|old(refreshed)|..];
    }
    forall k | |old(accessories)| <= k < |accessories|
      ensures accessories[k].device in config.devices && accessories[k].device.serial in Serials(config.devices)
    {
      assert Views(accessories)[k].device == accessories[k].device;
    }
    forall a | a in Removal()
      ensures a in old(accessories)
    {
      var k :| 0 <= k < |accessories| && accessories[k] == a;
      assert k < |old(accessories)|;
      assert a == old(accessories)[k];
    }
  }

  /**
   * `discoverDevices`: restore or create an accessory for every configured
   * device, then unregister the cached accessories whose serial is no longer configured.
   */
  method DiscoverDevices() returns (unregisterCalls: seq<seq<PlatformAccessory>>)
    modifies this`accessories, this`thermostats, this`registered, this`refreshed, accessories
    ensures Installed(thermostats, set d | d in config.devices :: d.serial, this)
    ensures forall s :: s in thermostats <==> s in old(thermostats) || s in Serials(config.devices)
    ensures forall s :: s in old(thermostats) && s !in Serials(config.devices) ==> thermostats[s] == old(thermostats[s])
    ensures old(accessories) <= accessories
    ensures forall k :: |old(accessories)| <= k < |accessories| ==> fresh(accessories[k]) && accessories[k].device in config.devices
    ensures registered == old(registered) + accessories[|old(accessories)|..]
    ensures forall d :: d in config.devices ==> RepresentedIn(Views(accessories), d.serial)
    ensures KeptOrRestored(old(Views(accessories)), Views(accessories), config.devices)
    ensures old(refreshed) <= refreshed
    ensures forall j :: |old(refreshed)| <= j < |refreshed| ==> RestoredIn(Views(accessories), accessories, config.devices, refreshed[j])
    ensures |refreshed| - |old(refreshed)| + |accessories| - |old(accessories)| == |config.devices|
    ensures forall a :: a in Removal() ==> a in old(accessories)
    ensures forall k :: 0 <= k < |old(accessories)| && accessories[k] !in refreshed[|old(refreshed)|..] ==>
      accessories[k].device == old(accessories[k].device)
    ensures forall k :: 0 <= k < |old(accessories)| ==>
      (old(accessories[k].device.serial) !in Serials(config.devices)
       && !RestoredIn(Views(accessories), accessories, config.devices, accessories[k])) ==> accessories[k] in Removal()
    ensures unregisterCalls == (if Removal() == [] then [] else [Removal()])
  {
    ReconcileConfigured();
    unregisterCalls := UnregisterUnconfigured();
  }
}
