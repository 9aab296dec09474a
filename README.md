# Thermostat bridge: a verified model

This project models the core of a Homebridge plugin that exposes MQTT-connected
thermostats to HomeKit. Two parts are modelled:

- **The per-thermostat state machine** (`ThermostatAccessory`, src/thermostatAccessory.ts).
  - Device reports arrive through the `update*` handlers and are applied to the state record.
  - User actions arrive through the `handle*Set` handlers. Each changes the state
    optimistically and publishes one command.
  - The getters read the state, substituting defaults for unset values.
  - Two mode tables translate between the device's `off/heat/cool/range` and HomeKit's
    `OFF/HEAT/COOL/AUTO`.
  - The current heating/cooling activity is derived from the mode and `target - current`,
    with a dead band of 0.5 degrees.
- **The platform's message routing** (`NoLongerEvilThermostatPlatform`, src/platform.ts).
  - Inbound topics are split on `/`, checked against the prefix and segment count, and
    looked up by serial.
  - Payloads are decoded as JSON, then as a number, then as the raw text.
  - The decoded value is dispatched to at most one handler.
  - Outbound commands go to `prefix/serial/objectType/field/set` when a client is connected.
  - Each configured device gets a list of nine topics to subscribe to.
  - Discovery reconciles the configured devices with the cached accessories: it restores
    or creates an accessory per device, installs one state machine per serial, and lists
    the cached accessories whose serial is no longer configured.

## Layout

- `values.dfy`: JavaScript values as decoded from a payload (`Value`), truthiness, the
  numeric coercion used by `-`, and payload decoding (`Decode`).
- `homekit.dfy`: the HomeKit characteristic constants with their numeric codes, and the
  values pushed to the host (`HostPush`).
- `topics.dfy`: `split('/')` and its inverse `Join`, with the round-trip lemmas.
- `thermostat_accessory.dfy`: the state record, the mode tables, the activity rule
  (`Recomputed`), the effect of each report (`Applied`) and of each user action
  (`AfterUserAction`), and the class `ThermostatAccessory`. Each method of the class is
  proved to move its state as those functions say. The `update*` handlers and
  `HandleTargetHeatingCoolingStateSet` append to its ghost log of host pushes. The other
  set handlers push nothing: they only publish one command through the platform.
- `discovery.dfy`: the host framework's cached accessory, the `find` by uuid, the removal
  filter, and the bookkeeping that one pass of the discovery loop preserves. This
  bookkeeping is stated over value snapshots (`Views`), so each pass is a lemma.
- `platform.dfy`: topic parsing and building, the dispatch chain, and the class `Platform`
  with `PublishCommand`, `SubscribeToTopics`, `HandleMessage`, `ConfigureAccessory` and
  `DiscoverDevices`.

Effects on the outside world are recorded in ghost logs on `Platform`. They are the
commands published, the messages handed to the MQTT client, the topics subscribed, and
the accessories registered and updated. The calls to `unregisterPlatformAccessories` are
returned by `DiscoverDevices`. `updateCharacteristic` calls are logged on each
`ThermostatAccessory`.

Points where the code behaves differently from what one might assume; the model follows the code:

- Current and target temperature start at 20, not unset (src/thermostatAccessory.ts:21-23).
- `updateMode` stores an unrecognised mode string as it is (src/thermostatAccessory.ts:269).
  Only the HomeKit target state falls back to OFF.
- Only current-temperature and mode changes recompute the activity. The target-temperature
  handlers do not.
- `handleTargetHeatingCoolingStateSet` stores the raw incoming code as the target state,
  even when it is not one of HomeKit's four (src/thermostatAccessory.ts:231).
- The subscribed availability topic has only three segments (src/platform.ts:116). The
  router's four-segment check therefore drops it (src/platform.ts:136), so the
  availability branch of the dispatch chain is unreachable from subscribed topics.
- In range mode the activity rule compares against the single target temperature, not the
  low/high thresholds (src/thermostatAccessory.ts:200-215).

## Model

| member | source | states |
|---|---|---|
| Decode | src/platform.ts:150-164 | a payload JSON.parse accepts decodes to its JSON value; otherwise to parseFloat's number when that is not NaN; otherwise to the raw text |
| NumberOf | src/thermostatAccessory.ts:201 | the number `-` takes from a value: numbers as they are, booleans 1 or 0, null 0, a string of white space only (the empty string included) 0, any other string and every object or array NaN |
| Truthy | src/thermostatAccessory.ts:322-324 | a value is truthy iff it is not `false`, `0`, the empty string or `null` |
| OrDefault | src/thermostatAccessory.ts:101 | `t ?? d` is the stored value when it is set and not null, and the default otherwise |
| CurrentHeatingCoolingState.Code | src/thermostatAccessory.ts:199-214 | the current-state constants have the codes 0..2 |
| TargetHeatingCoolingState.Code | src/thermostatAccessory.ts:236-247 | the target-state constants have the codes 0..3 |
| ActiveState.Code | src/thermostatAccessory.ts:300-302 | the fan's Active constants have the codes 0..1 |
| OccupancyState.Code | src/thermostatAccessory.ts:332-334 | the occupancy constants have the codes 0..1 |
| Split | src/platform.ts:133 | `split('/')` always yields at least one segment, and no segment contains the separator |
| JoinSplit | src/platform.ts:133 | joining the segments of a split with the separator gives back the topic |
| SplitJoin | src/platform.ts:197 | splitting a topic built from separator-free segments gives back exactly those segments |
| TopicSegments | src/platform.ts:108-116 | a topic built from slash-free segments splits back into them |
| TopicPrefix | src/platform.ts:132 | the prefix is the configured one when non-empty, otherwise `nolongerevil`; never empty |
| Platform.Prefix | src/platform.ts:132 | the prefix a platform routes, subscribes and publishes with is never empty, and is either `nolongerevil` or its configured prefix |
| TopicExtends | src/platform.ts:140-142 | the topic built from the first k segments is a prefix of the topic built from all of them |
| ParseTopic | src/platform.ts:133-142 | a topic passes iff it has at least four segments and the first equals the prefix; the address is segments 1..3, all slash-free, and the topic starts with them |
| TopicParsesToAddress | src/platform.ts:140-142 | a topic built from prefix, serial, object type, field and any further slash-free segments parses to that address; trailing segments are ignored |
| DeviceTopics | src/platform.ts:107-117 | nine topics per device, each starting `prefix/serial/` |
| AllTopics | src/platform.ts:104-117 | nine topics per configured device |
| AllTopicsBlocks | src/platform.ts:104-117 | the i-th block of nine topics is the i-th device's topics, in order |
| SubscribedStateTopicsRoute | src/platform.ts:170-183 | each of the eight state topics of a device parses to that device's address and reaches a handler |
| AvailabilityTopicDropped | src/platform.ts:136 | the availability topic has three segments and fails the four-segment check |
| CommandTopic | src/platform.ts:197 | the command topic is `prefix/serial/objectType/field/set`, spelled out character by character |
| EchoedValue | src/platform.ts:198 | a published number reads back as that number, a boolean as that boolean and a mode name as that text |
| CommandTopicSegments | src/platform.ts:197 | a command topic splits into prefix, serial, object type, field and `set`, and parses back to the command's address |
| Dispatch | src/platform.ts:168-187 | a handler is reached iff the field is `current_temperature` or the (object type, field) pair is one of the six scoped pairs; the report carries the decoded value, and `away` is negated; `availability` only logs |
| AwayMeansNotOccupied | src/platform.ts:182-183 | `away = true` leaves occupancy not detected |
| CommandEchoIsStable | src/thermostatAccessory.ts:229-266 | a command echoed back by the device on its own object type and field leaves the optimistic state unchanged, for every action with a valid target code |
| OutOfRangeTargetCodeIsNotStable | src/thermostatAccessory.ts:248-249 | every target code outside 0..3 is published as `off`, and the echoed `off` resets the stored target state to OFF, which differs from the code |
| TargetStateOfMode | src/thermostatAccessory.ts:273-288 | off→OFF, heat→HEAT, cool→COOL, range→AUTO, anything else OFF, in both directions of each case |
| ModeOfTargetCode | src/thermostatAccessory.ts:235-250 | OFF→off, HEAT→heat, COOL→cool, AUTO→range, any other code off |
| ModeTablesRoundTripFromHomeKit | src/thermostatAccessory.ts:235-250 | HomeKit to device mode and back is the identity on the four target states |
| ModeTablesRoundTripFromDevice | src/thermostatAccessory.ts:273-288 | device mode to HomeKit and back is the identity on off/heat/cool/range |
| ModeTranslationStable | src/thermostatAccessory.ts:273-288 | translating any mode value to HomeKit, back and again gives the first translation |
| Difference | src/thermostatAccessory.ts:201 | `target - current` is defined exactly when both are numbers, and then adds back to the target |
| Recomputed | src/thermostatAccessory.ts:197-216 | off mode gives OFF; an unset temperature keeps the previous activity; otherwise HEAT iff diff > 0.5 in heat/range, COOL iff diff < -0.5 in cool/range |
| BoundaryAndUnknownModeAreOff | src/thermostatAccessory.ts:204-215 | a difference of exactly 0.5, or any unrecognised mode, gives OFF |
| BlankCurrentTemperatureCountsAsZero | src/thermostatAccessory.ts:201-209 | a white-space current temperature counts as 0 degrees: in heat mode with a target above 0.5 the activity is HEAT |
| EmptyCurrentTemperatureHeats | src/thermostatAccessory.ts:201-209 | an empty current temperature, mode heat and target 20 give HEAT |
| Applied | src/thermostatAccessory.ts:105-345 | each report keeps the state consistent; only current-temperature and mode reports change the activity; a mode report sets the target state by the table |
| ActiveOf | src/thermostatAccessory.ts:322-324 | the fan is ACTIVE iff the stored value is truthy |
| OccupancyOf | src/thermostatAccessory.ts:339-341 | occupancy is detected iff the flag is set |
| PushesOf | src/thermostatAccessory.ts:105-345 | every report pushes one value, and current-temperature and mode reports push the recomputed activity as well |
| ReportIdempotent | src/thermostatAccessory.ts:320-345 | delivering the same report twice leaves the state the first delivery left |
| ModeOffReportStopsActivity | src/thermostatAccessory.ts:198-199 | a mode report of `off` leaves no activity and target state OFF, whatever the temperatures |
| UnsetTemperatureKeepsActivity | src/thermostatAccessory.ts:200 | with a temperature unset and mode not off, a mode report keeps the previous activity |
| AfterUserAction | src/thermostatAccessory.ts:229-266 | each action keeps the state consistent; only a target-state action changes the activity; it stores the raw code and the mapped mode; the fan is set active iff the code is ACTIVE |
| CommandOf | src/thermostatAccessory.ts:124-129 | every action publishes for its own serial, under `device` for the fan and `shared` otherwise |
| InitialState | src/thermostatAccessory.ts:21-28 | the initial state is consistent |
| ThermostatAccessory.constructor | src/thermostatAccessory.ts:10-28 | temperatures 20, thresholds unset, mode off, both activity and target state OFF, fan false, occupancy detected, no pushes |
| ThermostatAccessory.HandleCurrentTemperatureGet | src/thermostatAccessory.ts:101-103 | the stored value, or 20 when unset or null |
| ThermostatAccessory.HandleTargetTemperatureGet | src/thermostatAccessory.ts:115-117 | the stored value, or 20 when unset or null |
| ThermostatAccessory.HandleCoolingThresholdTemperatureGet | src/thermostatAccessory.ts:141-143 | the stored value, or 24 when unset or null |
| ThermostatAccessory.HandleHeatingThresholdTemperatureGet | src/thermostatAccessory.ts:167-169 | the stored value, or 18 when unset or null |
| ThermostatAccessory.HandleCurrentHeatingCoolingStateGet | src/thermostatAccessory.ts:193-195 | a code in 0..2, and OFF whenever the mode is off |
| ThermostatAccessory.HandleTargetHeatingCoolingStateGet | src/thermostatAccessory.ts:225-227 | a valid code always agrees with the stored mode |
| ThermostatAccessory.HandleFanActiveGet | src/thermostatAccessory.ts:299-303 | ACTIVE iff the stored fan value is truthy |
| ThermostatAccessory.HandleOccupancyDetectedGet | src/thermostatAccessory.ts:331-335 | detected iff the occupancy flag is set |
| ThermostatAccessory.UpdateCurrentHeatingCoolingState | src/thermostatAccessory.ts:197-222 | the activity becomes `Recomputed` of mode and temperatures and is pushed, even when unchanged |
| ThermostatAccessory.UpdateCurrentTemperature | src/thermostatAccessory.ts:105-112 | the state becomes `Applied` of the report; the temperature and the activity are pushed |
| ThermostatAccessory.UpdateTargetTemperature | src/thermostatAccessory.ts:134-138 | only the target temperature changes; it is pushed |
| ThermostatAccessory.UpdateTargetTemperatureHigh | src/thermostatAccessory.ts:160-164 | only the high threshold changes; it is pushed |
| ThermostatAccessory.UpdateTargetTemperatureLow | src/thermostatAccessory.ts:186-190 | only the low threshold changes; it is pushed |
| ThermostatAccessory.UpdateMode | src/thermostatAccessory.ts:268-296 | the mode is stored as given, the target state set by the table and the activity recomputed; both are pushed |
| ThermostatAccessory.UpdateFanState | src/thermostatAccessory.ts:320-328 | only the fan value changes; ACTIVE or INACTIVE is pushed by truthiness |
| ThermostatAccessory.UpdateOccupancy | src/thermostatAccessory.ts:337-345 | only the occupancy flag changes; it is pushed |
| ThermostatAccessory.HandleTargetTemperatureSet | src/thermostatAccessory.ts:119-132 | only the target temperature changes; one `shared/target_temperature` command is published |
| ThermostatAccessory.HandleCoolingThresholdTemperatureSet | src/thermostatAccessory.ts:145-158 | only the high threshold changes; one `shared/target_temperature_high` command is published |
| ThermostatAccessory.HandleHeatingThresholdTemperatureSet | src/thermostatAccessory.ts:171-184 | only the low threshold changes; one `shared/target_temperature_low` command is published |
| ThermostatAccessory.HandleTargetHeatingCoolingStateSet | src/thermostatAccessory.ts:229-266 | the raw code is stored, the mode set by the table, one `shared/target_temperature_type` command published and the activity recomputed and pushed |
| ThermostatAccessory.HandleFanActiveSet | src/thermostatAccessory.ts:305-318 | the fan becomes true iff the code is ACTIVE; one `device/fan_timer_active` command is published |
| Platform.constructor | src/platform.ts:18-20 | no accessories, no state machines, empty logs |
| Platform.Transmitted | src/platform.ts:191-197 | a message is sent iff the client exists and is connected, and then exactly one, on the command topic |
| Platform.PublishCommand | src/platform.ts:190-207 | the call is logged; the message goes out only through a connected client |
| Platform.SubscribeEach | src/platform.ts:119-127 | every topic of the list is subscribed, in order |
| Platform.SubscribeToTopics | src/platform.ts:97-129 | nothing without a client; otherwise the nine topics of every configured device, device by device |
| Platform.HandleMessage | src/platform.ts:131-188 | a topic that fails to parse or names an unknown serial changes nothing; otherwise only that serial's state machine changes, by exactly one report when dispatch reaches a handler and not at all otherwise |
| Platform.ConfigureAccessory | src/platform.ts:209-212 | the cached accessory is appended |
| Platform.RestoreAccessory | src/platform.ts:219-226 | the first cached accessory with the uuid takes the device config and is logged as updated, and every entry that is another object keeps its view; a new initial state machine is installed under the serial |
| Platform.CreateAccessory | src/platform.ts:227-238 | a new accessory with the device's name, uuid and config is appended and registered; a new initial state machine is installed under the serial |
| Platform.RestorePass | src/platform.ts:219-226 | a pass that finds a cached accessory for its device keeps the loop's bookkeeping and appends exactly that accessory to the refresh log |
| Platform.CreatePass | src/platform.ts:227-238 | a pass that finds none appends exactly one fresh accessory holding the device, with the device's uuid, and keeps the loop's bookkeeping |
| Platform.DiscoverDevice | src/platform.ts:215-239 | one pass does exactly one thing for its device: when `find` returns a cached accessory, the accessories stay and the refresh log grows by exactly that accessory; otherwise the refresh log stays and exactly one fresh accessory holding the device is appended; either way it extends what the earlier passes left |
| Platform.DiscoverConfigured | src/platform.ts:215-239 | after the loop every configured device is represented and has its own state machine; all added accessories are fresh, configured and registered; an accessory cached before the loop whose view changed was passed to the update call, and then holds a configured device of its own uuid; each accessory passed to the update call is the one `find` returns for its uuid; the update calls and the added accessories together number the configured devices (which device caused which is stated per pass by `Platform.DiscoverDevice`) |
| Platform.ReconcileConfigured | src/platform.ts:214-239 | the loop's outcome on the accessories themselves (split from `DiscoverDevices` only to keep each proof small): every configured serial gets a state machine and other entries stay; accessories are only appended, each new one configured and registered; a cached accessory not passed to the update call keeps its device; each accessory passed is the one `find` returns for its uuid and holds a configured device; the update calls and the added accessories together number the configured devices; the removal list holds only accessories cached before, and every cached one whose serial was unconfigured and that `find` did not restore |
| Platform.Removal | src/platform.ts:242-246 | an accessory is in the removal list iff it is cached and its device serial is not configured; the list is the cached accessories at the unconfigured indices, in increasing order, each once |
| Platform.UnregisterUnconfigured | src/platform.ts:241-251 | the calls made to `unregisterPlatformAccessories`: one, with the removal list, when it is non-empty, and none otherwise |
| Platform.DiscoverDevices | src/platform.ts:214-252 | every configured serial gets a state machine; other entries stay; accessories are only appended, each new one configured and registered; every configured device is represented; a cached accessory not passed to the update call keeps its device; every accessory passed is the one `find` returns for its uuid and holds a configured device; the update calls and the added accessories together number the configured devices; the removal list holds only accessories cached before, and every cached one whose serial was unconfigured and that `find` did not restore; the calls to `unregisterPlatformAccessories` are one with the removal list when it is non-empty, and none otherwise |
| PlatformAccessory.constructor | src/platform.ts:230-231 | the accessory holds its name, uuid and device config |
| FirstWithUuid | src/platform.ts:217 | the index of the first accessory with the uuid, or none when no accessory has it |
| FirstWithUuidAppend | src/platform.ts:237 | appending accessories does not change which one `find` returns for a uuid already present |
| FirstWithUuidAppendNew | src/platform.ts:237 | an appended accessory is found for its uuid when none came before it |
| FirstWithUuidSameUuids | src/platform.ts:222 | changing an accessory's config does not change what `find` returns |
| Cached | src/platform.ts:217 | at most the one accessory `find` returns, with that uuid |
| Serials | src/platform.ts:242 | the serials of the configured devices, in order |
| Unconfigured | src/platform.ts:243-246 | every listed accessory is cached with an unconfigured serial, and every such accessory is listed |
| UnconfiguredIndicesExact | src/platform.ts:243-246 | the indices the filter keeps are strictly increasing and are exactly those whose device serial is not configured |
| UnconfiguredInOrder | src/platform.ts:243-246 | the filter's result is the accessories at those indices, in order: order and multiplicity as `Array.prototype.filter` keeps them |
| PickedAt | src/platform.ts:243-246 | the j-th accessory picked by a list of indices is the accessory at the j-th index |
| SerialSet | src/platform.ts:242 | the serials met by index are exactly those of the configured devices |
| ThermostatsStep | src/platform.ts:226 | installing the device's state machine extends the serial map the earlier passes left |
| RestoreStep | src/platform.ts:219-226 | a restoring pass preserves the loop's bookkeeping and represents its device |
| KeptAfterRefresh | src/platform.ts:222 | giving the first accessory with a device's uuid that device keeps every cached accessory either as it was or holding a configured device of its own uuid |
| RestoredAfterRefresh | src/platform.ts:222-223 | after that restore every accessory passed to the update call, the new one included, is still the first with its uuid and holds a configured device of that uuid |
| ChangedAfterRefresh | src/platform.ts:222 | after a change to the restored object alone, every cached entry whose view differs from before the loop is that object or was refreshed already |
| RestoreLogStep | src/platform.ts:219-226 | a restoring pass adds its accessory to the refresh log and keeps the log's bookkeeping |
| CreateLogStep | src/platform.ts:227-238 | a creating pass leaves the refresh log as it was and keeps its bookkeeping |
| UnmatchedUuidNotRestored | src/platform.ts:217 | an accessory whose uuid is that of no configured device is not one `find` restored |
| ShadowedNotRestored | src/platform.ts:217 | an accessory behind an earlier, different accessory with the same uuid is not one `find` restored |
| CreateStep | src/platform.ts:227-238 | a creating pass preserves the loop's bookkeeping and represents its device |
| DiscoveryComplete | src/platform.ts:214-239 | after all passes every configured serial has its own state machine and is represented, and every added accessory holds a configured device |

## Left out

- The MQTT connection (`connectMQTT`, client id, event callbacks, subscribe and publish acknowledgements, shutdown) is network I/O. The client is a value: absent, or present and connected or not.
- Homebridge service and characteristic wiring, `onGet`/`onSet` binding, the accessory-information characteristics and the temperature display units are host-framework calls. Pushes are logged as ghost events instead.
- `uuid.generate` is taken as an injective function of the serial.
- `registerPlatformAccessories`, `updatePlatformAccessories` and `unregisterPlatformAccessories` are foreign calls, kept as ghost logs.
- The internals of `JSON.parse` and `parseFloat` are foreign. They are parameters of the platform, returning none where they throw or give NaN.
- UTF-8 decoding of the payload buffer is not modelled: the payload is a string.
- Rendering a command value with `String(value)` is not modelled: a message carries the value itself.
- IEEE rounding in `target - current` is not modelled: temperatures are exact reals.
- Infinities are not represented: a `Num` is finite. `JSON.parse("1e999")` and `parseFloat("Infinity")` give Infinity in JavaScript, and an infinite difference then gives HEAT or COOL. The abstract `parseJson` and `parseFloat` can only return a finite number or none.
- NumberOf: a string that is not white space only is taken as NaN, while JavaScript would coerce a numeric string such as "21" (reachable from a JSON string payload) to its number. Arrays and objects are one value, taken as NaN, while JavaScript gives 0 for `[]` and the number of the element for a one-element array such as `[21]`.
- EchoedValue: takes as given what `JSON.parse` and `parseFloat` return for the text of a published value, rather than deriving it from `Decode` with those two as parameters.
- `async` on the set handlers is dropped: nothing is awaited, so they are synchronous.
- Logging, including the availability debug line, is left out.
- Config validation in the platform constructor (src/platform.ts:33-41) is left out. The model starts from a platform that passed it.
- src/index.ts only registers the plugin and is not part of this model.
- src/types.ts holds declarations only. Its records are `ThermostatState`, `DeviceConfig` and `PlatformConfig`.
- Platform.DiscoverDevices: does not restate that each installed state machine is fresh and in its initial state, because the whole-loop invariant stays cheaper without it; Platform.RestoreAccessory and Platform.CreateAccessory state both for each one they install.
- Platform.DiscoverConfigured, Platform.ReconcileConfigured, Platform.DiscoverDevices: state the exact outcome of each device's pass only through `Platform.DiscoverDevice`, and for the whole loop only the totals (update calls plus added accessories equal the configured devices) and what each update call and each added accessory holds. A whole-loop statement that lists, device by device, the accessory each one refreshed makes the loop invariant too costly to prove.
