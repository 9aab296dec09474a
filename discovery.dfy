// Device discovery of src/platform.ts (`configureAccessory`, `discoverDevices`):
// the accessories the host framework caches, how a configured device finds
// its cached accessory by uuid, and what each pass of the discovery loop
// leaves behind. The loop's bookkeeping is stated over values (a snapshot of
// the accessories and the serial-to-state-machine map), so that one pass is
// a lemma about those values.

/** A host-framework accessory: its uuid, and the device config kept in `context.device`. */
class PlatformAccessory {
  const displayName: string
  const uuid: Uuid
  var device: DeviceConfig

  constructor (displayName: string, uuid: Uuid, device: DeviceConfig)
    ensures this.displayName == displayName && this.uuid == uuid && this.device == device
  {
    this.displayName := displayName;
    this.uuid := uuid;
    this.device := device;
  }
}

/** What discovery sees of an accessory: its uuid and the device config it holds. */
datatype AccessoryView = AccessoryView(uuid: Uuid, device: DeviceConfig)

/** A snapshot of the accessories, one view per accessory, in order. */
function Views(accessories: seq<PlatformAccessory>): (vs: seq<AccessoryView>)
  reads accessories
  ensures |vs| == |accessories|
  ensures forall i :: 0 <= i < |accessories| ==> vs[i] == AccessoryView(accessories[i].uuid, accessories[i].device)
{
  seq(|accessories|, i requires 0 <= i < |accessories| reads accessories => AccessoryView(accessories[i].uuid, accessories[i].device))
}

/** `accessories.find(a => a.UUID === uuid)`: the index of the first accessory with that uuid. */
function FirstWithUuid(vs: seq<AccessoryView>, u: Uuid): (r: Option<nat>)
  ensures r.Some? ==> r.value < |vs| && vs[r.value].uuid == u
  ensures r.Some? ==> forall j :: 0 <= j < r.value ==> vs[j].uuid != u
  ensures r.None? ==> forall j :: 0 <= j < |vs| ==> vs[j].uuid != u
{
  if |vs| == 0 then None
  else if vs[0].uuid == u then Some(0)
  else match FirstWithUuid(vs[1..], u)
    case None => None
    case Some(i) => Some(i + 1)
}

/** Appending accessories never changes which one `find` returns first for a uuid already present. */
lemma FirstWithUuidAppend(vs: seq<AccessoryView>, more: seq<AccessoryView>, u: Uuid)
  requires FirstWithUuid(vs, u).Some?
  ensures FirstWithUuid(vs + more, u) == FirstWithUuid(vs, u)
{
  var f := FirstWithUuid(vs, u).value;
  var all := vs + more;
  assert all[f] == vs[f];
  assert FirstWithUuid(all, u).Some?;
}

/** An appended accessory is what `find` returns for its uuid when none came before it. */
lemma FirstWithUuidAppendNew(vs: seq<AccessoryView>, v: AccessoryView)
  requires FirstWithUuid(vs, v.uuid).None?
  ensures FirstWithUuid(vs + [v], v.uuid) == Some(|vs|)
{
  var all := vs + [v];
  assert all[|vs|] == v;
  assert FirstWithUuid(all, v.uuid).Some?;
}

/** `find` looks at uuids only: snapshots with the same uuids give the same answer. */
lemma FirstWithUuidSameUuids(vs: seq<AccessoryView>, ws: seq<AccessoryView>, u: Uuid)
  requires |vs| == |ws|
  requires forall i :: 0 <= i < |vs| ==> vs[i].uuid == ws[i].uuid
  ensures FirstWithUuid(vs, u) == FirstWithUuid(ws, u)
{
  var f, g := FirstWithUuid(vs, u), FirstWithUuid(ws, u);
  if f.Some? {
    assert ws[f.value].uuid == u;
  }
  if g.Some? {
    assert vs[g.value].uuid == u;
  }
}

/** The accessory `find` would restore for uuid `u`, as a frame: empty when there is none. */
function Cached(accessories: seq<PlatformAccessory>, u: Uuid): (c: set<PlatformAccessory>)
  reads accessories
  ensures |c| <= 1
  ensures forall a :: a in c ==> a in accessories && a.uuid == u
{
  match FirstWithUuid(Views(accessories), u)
  case None => {}
  case Some(k) => {accessories[k]}
}

/** The configured serials, `config.devices.map(d => d.serial)`. */
function Serials(devices: seq<DeviceConfig>): (serials: seq<string>)
  ensures |serials| == |devices|
  ensures forall i :: 0 <= i < |devices| ==> serials[i] == devices[i].serial
{
  seq(|devices|, i requires 0 <= i < |devices| => devices[i].serial)
}

/**
 * The removal filter of `discoverDevices`: accessories whose device serial is
 * not configured, in order (`UnconfiguredInOrder` states order and multiplicity).
 */
function Unconfigured(accessories: seq<PlatformAccessory>, serials: seq<string>): (r: seq<PlatformAccessory>)
  reads accessories
  ensures |r| <= |accessories|
  ensures forall i :: 0 <= i < |r| ==> r[i] in accessories && r[i].device.serial !in serials
  ensures forall i :: 0 <= i < |accessories| && accessories[i].device.serial !in serials ==> accessories[i] in r
  decreases |accessories|
{
  if |accessories| == 0 then []
  else
    var init, last := accessories[..|accessories| - 1], accessories[|accessories| - 1];
    var rest := Unconfigured(init, serials);
    assert forall i :: 0 <= i < |init| ==> accessories[i] == init[i];
    if last.device.serial in serials then rest else rest + [last]
}

/**
 * The indices below `n` of the accessories whose device serial is not in
 * `serials` (`UnconfiguredIndicesExact`: each once, in increasing order).
 */
function UnconfiguredIndices(accessories: seq<PlatformAccessory>, serials: seq<string>, n: nat): (ks: seq<nat>)
  requires n <= |accessories|
  reads accessories
  ensures IndicesBelow(ks, n)
  decreases n
{
  if n == 0 then []
  else
    var ks := UnconfiguredIndices(accessories, serials, n - 1);
    if accessories[n - 1].device.serial in serials then ks else ks + [n - 1]
}

/** The unconfigured indices are strictly increasing and are exactly those whose serial is not in `serials`. */
lemma {:induction false} UnconfiguredIndicesExact(accessories: seq<PlatformAccessory>, serials: seq<string>, n: nat)
  requires n <= |accessories|
  ensures var ks := UnconfiguredIndices(accessories, serials, n);
    && (forall j, l :: 0 <= j < l < |ks| ==> ks[j] < ks[l])
    && (forall i :: 0 <= i < n ==> (i in ks <==> accessories[i].device.serial !in serials))
  decreases n
{
  if n > 0 {
    UnconfiguredIndicesExact(accessories, serials, n - 1);
  }
}

/** Picking one more index appends the accessory at it. */
lemma PickedSnoc(accessories: seq<PlatformAccessory>, ks: seq<nat>, k: nat)
  requires IndicesBelow(ks, |accessories|) && k < |accessories|
  ensures IndicesBelow(ks + [k], |accessories|)
  ensures Picked(accessories, ks + [k]) == Picked(accessories, ks) + [accessories[k]]
{
  assert (ks + [k])[..|ks|] == ks;
}

/** The indices below `n` depend only on the first `n` accessories. */
lemma {:induction false} UnconfiguredIndicesPrefix(accessories: seq<PlatformAccessory>, longer: seq<PlatformAccessory>,
                                                   serials: seq<string>, n: nat)
  requires accessories <= longer && n <= |accessories|
  ensures UnconfiguredIndices(accessories, serials, n) == UnconfiguredIndices(longer, serials, n)
  decreases n
{
  if n > 0 {
    UnconfiguredIndicesPrefix(accessories, longer, serials, n - 1);
    assert accessories[n - 1] == longer[n - 1];
  }
}

/**
 * The removal filter keeps exactly the accessories at the unconfigured
 * indices, in increasing order, each once: the order and multiplicity of
 * `Array.prototype.filter`.
 */
lemma {:induction false} UnconfiguredInOrder(accessories: seq<PlatformAccessory>, serials: seq<string>)
  ensures Unconfigured(accessories, serials) == Picked(accessories, UnconfiguredIndices(accessories, serials, |accessories|))
  decreases |accessories|
{
  if |accessories| > 0 {
    var n := |accessories|;
    var init := accessories[..n - 1];
    UnconfiguredInOrder(init, serials);
    UnconfiguredIndicesPrefix(init, accessories, serials, n - 1);
    var ks := UnconfiguredIndices(accessories, serials, n - 1);
    PickedPrefix(init, accessories, ks);
    if accessories[n - 1].device.serial !in serials {
      calc {
        Unconfigured(accessories, serials);
        Unconfigured(init, serials) + [accessories[n - 1]];
        Picked(accessories, ks) + [accessories[n - 1]];
        { PickedSnoc(accessories, ks, n - 1); }
        Picked(accessories, ks + [n - 1]);
      }
    }
  }
}

/** The serials met by index are the serials of the configured devices. */
lemma SerialSet(devices: seq<DeviceConfig>, serials: set<string>)
  requires forall j :: 0 <= j < |devices| ==> devices[j].serial in serials
  requires forall s :: s in serials ==> s in Serials(devices)
  ensures serials == set d | d in devices :: d.serial
  ensures forall s :: s in serials <==> s in Serials(devices)
{
  forall s | s in Serials(devices)
    ensures s in serials
  {
    var j :| 0 <= j < |devices| && Serials(devices)[j] == s;
  }
  forall s | s in serials
    ensures s in set d | d in devices :: d.serial
  {
    var j :| 0 <= j < |devices| && Serials(devices)[j] == s;
    assert devices[j] in devices;
  }
  forall s | s in set d | d in devices :: d.serial
    ensures s in serials
  {
    var d :| d in devices && d.serial == s;
    var j :| 0 <= j < |devices| && devices[j] == d;
  }
}

// ---------------------------------------------------------------------------
// What the discovery loop leaves
// ---------------------------------------------------------------------------

/** The first accessory carrying the uuid of `serial` exists and holds that serial's config. */
predicate RepresentedIn(vs: seq<AccessoryView>, serial: string)
{
  var f := FirstWithUuid(vs, Uuid(serial));
  f.Some? && vs[f.value].device.serial == serial
}

/** Every accessory from index `n` on holds the config of one of `devices`. */
predicate ConfiguredFrom(vs: seq<AccessoryView>, n: nat, devices: seq<DeviceConfig>)
{
  n <= |vs| && forall k :: n <= k < |vs| ==> vs[k].device in devices
}

/** Every serial in `serials` has a state machine of its own for platform `p` in `thermostats`. */
ghost predicate Installed(thermostats: map<string, ThermostatAccessory>, serials: set<string>, p: Platform)
{
  forall s :: s in serials ==> s in thermostats && thermostats[s].serial == s && thermostats[s].platform == p
}

/**
 * Progress of the discovery loop: passes done, serials handled, and the
 * platform's parts before the loop (with the snapshot `views` of its accessories).
 */
datatype Pass = Pass(
  i: nat,
  touched: set<string>,
  accessories: seq<PlatformAccessory>,
  views: seq<AccessoryView>,
  thermostats: map<string, ThermostatAccessory>,
  registered: seq<PlatformAccessory>,
  refreshed: seq<PlatformAccessory>)
{
  /** The progress after one more pass, for the device with serial `serial`. */
  function Next(serial: string): (next: Pass)
    ensures next.i == i + 1 && next.touched == touched + {serial}
    ensures next.accessories == accessories && next.views == views && next.thermostats == thermostats
    ensures next.registered == registered && next.refreshed == refreshed
  {
    this.(i := i + 1, touched := touched + {serial})
  }
}

/**
 * After `pass.i` passes of the discovery loop over `devices`: every handled
 * serial has a state machine of its own, and every other entry is as before the loop.
 */
ghost predicate ThermostatsSince(devices: seq<DeviceConfig>, thermostats: map<string, ThermostatAccessory>, pass: Pass, p: Platform)
{
  && (forall j :: 0 <= j < pass.i <= |devices| ==> devices[j].serial in pass.touched)
  && (forall s :: s in pass.touched ==> s in Serials(devices))
  && Installed(thermostats, pass.touched, p)
  && (forall s :: s in thermostats <==> s in pass.thermostats || s in pass.touched)
  && (forall s :: s in pass.thermostats && s !in pass.touched ==> thermostats[s] == pass.thermostats[s])
}

/**
 * `vs` is the snapshot `before` after discovery passes: every accessory keeps
 * its uuid, and one whose config changed now holds a configured device whose
 * uuid is its own.
 */
predicate KeptOrRestored(before: seq<AccessoryView>, vs: seq<AccessoryView>, devices: seq<DeviceConfig>)
{
  && |before| <= |vs|
  && forall i :: 0 <= i < |before| ==>
       && vs[i].uuid == before[i].uuid
       && (vs[i] == before[i] || (vs[i].device in devices && vs[i].uuid == Uuid(vs[i].device.serial)))
}

/**
 * Accessory `r`, passed to `updatePlatformAccessories`, is the first in
 * `accessories` with its uuid, and holds a configured device whose uuid is its own.
 */
ghost predicate RestoredIn(vs: seq<AccessoryView>, accessories: seq<PlatformAccessory>, devices: seq<DeviceConfig>, r: PlatformAccessory)
{
  var f := FirstWithUuid(vs, r.uuid);
  && f.Some? && f.value < |accessories| && accessories[f.value] == r
  && vs[f.value].device in devices && vs[f.value].uuid == Uuid(vs[f.value].device.serial)
}

/** An accessory whose uuid is that of no configured device is not one `find` restored. */
lemma UnmatchedUuidNotRestored(vs: seq<AccessoryView>, accessories: seq<PlatformAccessory>, devices: seq<DeviceConfig>, k: nat)
  requires |vs| == |accessories| && k < |vs| && vs[k].uuid == accessories[k].uuid
  requires forall d :: d in devices ==> accessories[k].uuid != Uuid(d.serial)
  ensures !RestoredIn(vs, accessories, devices, accessories[k])
{
}

/**
 * An accessory behind an earlier, different accessory with the same uuid is
 * not one `find` restored: `find` returns an accessory before it, and none
 * of those is the same object.
 */
lemma ShadowedNotRestored(vs: seq<AccessoryView>, accessories: seq<PlatformAccessory>, devices: seq<DeviceConfig>, j: nat, k: nat)
  requires |vs| == |accessories| && (forall i :: 0 <= i < |vs| ==> vs[i].uuid == accessories[i].uuid)
  requires j < k < |vs| && accessories[j].uuid == accessories[k].uuid
  requires forall i :: 0 <= i < k ==> accessories[i] != accessories[k]
  ensures !RestoredIn(vs, accessories, devices, accessories[k])
{
  var u := accessories[k].uuid;
  assert vs[j].uuid == u;
  var f := FirstWithUuid(vs, u).value;
  assert f <= j;
}

/**
 * The accessories after `pass.i` passes of the discovery loop over `devices`,
 * with `vs` their snapshot: those before the loop are kept in order, the ones
 * after them hold configured devices and were registered, and every handled
 * device is represented.
 */
ghost predicate Layout(devices: seq<DeviceConfig>, vs: seq<AccessoryView>, accessories: seq<PlatformAccessory>,
                       registered: seq<PlatformAccessory>, pass: Pass)
{
  && pass.i <= |devices|
  && |vs| == |accessories|
  && (forall i :: 0 <= i < |vs| ==> vs[i].uuid == accessories[i].uuid)
  && pass.accessories <= accessories
  && ConfiguredFrom(vs, |pass.accessories|, devices)
  && registered == pass.registered + accessories[|pass.accessories|..]
  && (forall j :: 0 <= j < pass.i ==> RepresentedIn(vs, devices[j].serial))
}


/**
 * The refresh log after `pass.i` passes, with `vs` the snapshot of
 * `accessories`: the accessories before the loop (snapshot `pass.views`)
 * changed only by restoring, every accessory refreshed since was restored,
 * and each pass either refreshed or appended one accessory.
 */
ghost predicate RefreshLog(devices: seq<DeviceConfig>, vs: seq<AccessoryView>, accessories: seq<PlatformAccessory>,
                     refreshed: seq<PlatformAccessory>, pass: Pass)
{
  && |vs| == |accessories|
  && (forall i :: 0 <= i < |vs| ==> vs[i].uuid == accessories[i].uuid)
  && |pass.views| == |pass.accessories| <= |accessories|
  && KeptOrRestored(pass.views, vs, devices)
  && pass.refreshed <= refreshed
  && (forall j :: |pass.refreshed| <= j < |refreshed| ==> RestoredIn(vs, accessories, devices, refreshed[j]))
  && (forall i :: 0 <= i < |pass.views| && vs[i] != pass.views[i] ==> accessories[i] in refreshed[|pass.refreshed|..])
  && |refreshed| - |pass.refreshed| + |accessories| - |pass.accessories| == pass.i
}

/** Every index in `ks` is below `n`. */
predicate IndicesBelow(ks: seq<nat>, n: nat)
{
  forall j :: 0 <= j < |ks| ==> ks[j] < n
}

/** The accessories at the indices `ks`, in order (`PickedAt` states it index by index). */
function Picked(accessories: seq<PlatformAccessory>, ks: seq<nat>): (r: seq<PlatformAccessory>)
  requires IndicesBelow(ks, |accessories|)
  ensures |r| == |ks|
  decreases |ks|
{
  if |ks| == 0 then [] else Picked(accessories, ks[..|ks| - 1]) + [accessories[ks[|ks| - 1]]]
}

/** The `j`-th accessory picked is the one at the `j`-th index. */
lemma {:induction false} PickedAt(accessories: seq<PlatformAccessory>, ks: seq<nat>)
  requires IndicesBelow(ks, |accessories|)
  ensures forall j :: 0 <= j < |ks| ==> Picked(accessories, ks)[j] == accessories[ks[j]]
  decreases |ks|
{
  if |ks| > 0 {
    var init := ks[..|ks| - 1];
    PickedAt(accessories, init);
    forall j | 0 <= j < |ks| - 1
      ensures Picked(accessories, ks)[j] == accessories[ks[j]]
    {
      assert ks[j] == init[j];
    }
  }
}

/** Extending the accessories does not change what indices into the shorter sequence pick. */
lemma {:induction false} PickedPrefix(accessories: seq<PlatformAccessory>, longer: seq<PlatformAccessory>, ks: seq<nat>)
  requires accessories <= longer && IndicesBelow(ks, |accessories|)
  ensures IndicesBelow(ks, |longer|) && Picked(longer, ks) == Picked(accessories, ks)
  decreases |ks|
{
  if |ks| > 0 {
    PickedPrefix(accessories, longer, ks[..|ks| - 1]);
    assert longer[ks[|ks| - 1]] == accessories[ks[|ks| - 1]];
  }
}

/** Storing a new state machine for the pass's device extends what the passes before it left. */
lemma ThermostatsStep(devices: seq<DeviceConfig>, thermostats: map<string, ThermostatAccessory>, pass: Pass, p: Platform, t: ThermostatAccessory)
  requires pass.i < |devices| && ThermostatsSince(devices, thermostats, pass, p)
  requires t.serial == devices[pass.i].serial && t.platform == p
  ensures ThermostatsSince(devices, thermostats[devices[pass.i].serial := t], pass.Next(devices[pass.i].serial), p)
{
  assert Serials(devices)[pass.i] == devices[pass.i].serial;
}

/**
 * `ws` is `vs` after the accessory at `k` took `device`'s config: that
 * accessory, and any entry that is the same object, now holds `device`;
 * every other entry is unchanged.
 */
predicate Refreshed(vs: seq<AccessoryView>, ws: seq<AccessoryView>, k: nat, device: DeviceConfig)
{
  && |ws| == |vs| && k < |vs|
  && ws[k] == AccessoryView(vs[k].uuid, device)
  && forall i :: 0 <= i < |vs| ==> ws[i].uuid == vs[i].uuid && (ws[i] == vs[i] || ws[i] == ws[k])
}

/**
 * `ws` is `vs` after a change to the object `accessories[k]` alone: every
 * entry that is another object keeps its view.
 */
predicate OthersKept(vs: seq<AccessoryView>, ws: seq<AccessoryView>, accessories: seq<PlatformAccessory>, k: nat)
{
  && |ws| == |vs| == |accessories| && k < |vs|
  && forall i :: 0 <= i < |vs| && accessories[i] != accessories[k] ==> ws[i] == vs[i]
}

/**
 * After a change to the object `accessories[k]` alone, an entry whose view
 * differs from `before` is that object or was refreshed already.
 */
lemma ChangedAfterRefresh(before: seq<AccessoryView>, vs: seq<AccessoryView>, ws: seq<AccessoryView>,
                          accessories: seq<PlatformAccessory>, refreshed: seq<PlatformAccessory>, from: nat, k: nat)
  requires |before| <= |vs| && from <= |refreshed| && OthersKept(vs, ws, accessories, k)
  requires forall i :: 0 <= i < |before| && vs[i] != before[i] ==> accessories[i] in refreshed[from..]
  ensures forall i :: 0 <= i < |before| && ws[i] != before[i] ==> accessories[i] in (refreshed + [accessories[k]])[from..]
{
  var log := (refreshed + [accessories[k]])[from..];
  assert log == refreshed[from..] + [accessories[k]];
  forall i | 0 <= i < |before| && ws[i] != before[i]
    ensures accessories[i] in log
  {
    if vs[i] == before[i] {
      assert accessories[i] == accessories[k];
    }
  }
}

/** Refreshing the accessory at `k` with a configured device of its own uuid keeps `KeptOrRestored`. */
lemma KeptAfterRefresh(before: seq<AccessoryView>, vs: seq<AccessoryView>, ws: seq<AccessoryView>,
                       devices: seq<DeviceConfig>, k: nat, device: DeviceConfig)
  requires KeptOrRestored(before, vs, devices)
  requires Refreshed(vs, ws, k, device) && device in devices && vs[k].uuid == Uuid(device.serial)
  ensures KeptOrRestored(before, ws, devices)
{
  forall i | 0 <= i < |before|
    ensures ws[i].uuid == before[i].uuid
    ensures ws[i] == before[i] || (ws[i].device in devices && ws[i].uuid == Uuid(ws[i].device.serial))
  {
    if ws[i] != vs[i] {
      assert ws[i] == ws[k];
    }
  }
}

/**
 * Refreshing the accessory at `k` (the first with its uuid) with a configured
 * device of its own uuid keeps every refreshed accessory restored, and adds it.
 */
lemma RestoredAfterRefresh(vs: seq<AccessoryView>, ws: seq<AccessoryView>, accessories: seq<PlatformAccessory>,
                           devices: seq<DeviceConfig>, refreshed: seq<PlatformAccessory>, from: nat, k: nat, device: DeviceConfig)
  requires |vs| == |accessories| && (forall i :: 0 <= i < |vs| ==> vs[i].uuid == accessories[i].uuid)
  requires from <= |refreshed|
  requires forall j :: from <= j < |refreshed| ==> RestoredIn(vs, accessories, devices, refreshed[j])
  requires Refreshed(vs, ws, k, device) && device in devices
  requires FirstWithUuid(vs, Uuid(device.serial)) == Some(k)
  ensures forall j :: from <= j < |refreshed| + 1 ==> RestoredIn(ws, accessories, devices, (refreshed + [accessories[k]])[j])
{
  var refreshed' := refreshed + [accessories[k]];
  forall j | from <= j < |refreshed'|
    ensures RestoredIn(ws, accessories, devices, refreshed'[j])
  {
    var r := refreshed'[j];
    FirstWithUuidSameUuids(vs, ws, r.uuid);
    if j < |refreshed| {
      assert r == refreshed[j];
      var f := FirstWithUuid(vs, r.uuid).value;
      if ws[f] != vs[f] {
        assert ws[f] == ws[k];
      }
    } else {
      assert r == accessories[k];
    }
  }
}

/** A pass that restores the cached accessory of its device extends the layout the passes before it left. */
lemma RestoreStep(devices: seq<DeviceConfig>, vs: seq<AccessoryView>, ws: seq<AccessoryView>, accessories: seq<PlatformAccessory>,
                  registered: seq<PlatformAccessory>, pass: Pass, k: nat)
  requires pass.i < |devices| && Layout(devices, vs, accessories, registered, pass)
  requires FirstWithUuid(vs, Uuid(devices[pass.i].serial)) == Some(k)
  requires Refreshed(vs, ws, k, devices[pass.i])
  ensures Layout(devices, ws, accessories, registered, pass.Next(devices[pass.i].serial))
{
  var device := devices[pass.i];
  forall j | 0 <= j < pass.i + 1
    ensures RepresentedIn(ws, devices[j].serial)
  {
    var u := Uuid(devices[j].serial);
    FirstWithUuidSameUuids(vs, ws, u);
    var f := FirstWithUuid(vs, u).value;
    if j < pass.i && ws[f] != vs[f] {
      assert Uuid(devices[j].serial) == Uuid(device.serial);
    }
  }
  forall i | |pass.accessories| <= i < |ws|
    ensures ws[i].device in devices
  {
  }
}

/** A pass that restores the cached accessory of its device extends the refresh log by that accessory. */
lemma RestoreLogStep(devices: seq<DeviceConfig>, vs: seq<AccessoryView>, ws: seq<AccessoryView>, accessories: seq<PlatformAccessory>,
                     refreshed: seq<PlatformAccessory>, pass: Pass, k: nat)
  requires pass.i < |devices| && RefreshLog(devices, vs, accessories, refreshed, pass)
  requires FirstWithUuid(vs, Uuid(devices[pass.i].serial)) == Some(k)
  requires Refreshed(vs, ws, k, devices[pass.i]) && OthersKept(vs, ws, accessories, k)
  ensures RefreshLog(devices, ws, accessories, refreshed + [accessories[k]], pass.Next(devices[pass.i].serial))
{
  ChangedAfterRefresh(pass.views, vs, ws, accessories, refreshed, |pass.refreshed|, k);
  KeptAfterRefresh(pass.views, vs, ws, devices, k, devices[pass.i]);
  RestoredAfterRefresh(vs, ws, accessories, devices, refreshed, |pass.refreshed|, k, devices[pass.i]);
}

/** A pass that creates and appends a new accessory for its device extends the layout the passes before it left. */
lemma CreateStep(devices: seq<DeviceConfig>, vs: seq<AccessoryView>, accessories: seq<PlatformAccessory>,
                 registered: seq<PlatformAccessory>, pass: Pass, a: PlatformAccessory)
  requires pass.i < |devices| && Layout(devices, vs, accessories, registered, pass)
  requires FirstWithUuid(vs, Uuid(devices[pass.i].serial)).None?
  requires a.uuid == Uuid(devices[pass.i].serial)
  ensures var v := AccessoryView(Uuid(devices[pass.i].serial), devices[pass.i]);
    Layout(devices, vs + [v], accessories + [a], registered + [a], pass.Next(devices[pass.i].serial))
{
  var device := devices[pass.i];
  var v := AccessoryView(Uuid(device.serial), device);
  FirstWithUuidAppendNew(vs, v);
  forall j | 0 <= j < pass.i
    ensures RepresentedIn(vs + [v], devices[j].serial)
  {
    FirstWithUuidAppend(vs, [v], Uuid(devices[j].serial));
    var f := FirstWithUuid(vs, Uuid(devices[j].serial)).value;
    assert (vs + [v])[f] == vs[f];
  }
  assert (accessories + [a])[|pass.accessories|..] == accessories[|pass.accessories|..] + [a];
}

/** A pass that appends a new accessory for its device leaves the refresh log as it was. */
lemma CreateLogStep(devices: seq<DeviceConfig>, vs: seq<AccessoryView>, accessories: seq<PlatformAccessory>,
                    refreshed: seq<PlatformAccessory>, pass: Pass, a: PlatformAccessory)
  requires pass.i < |devices| && RefreshLog(devices, vs, accessories, refreshed, pass)
  requires FirstWithUuid(vs, Uuid(devices[pass.i].serial)).None?
  requires a.uuid == Uuid(devices[pass.i].serial)
  ensures var v := AccessoryView(Uuid(devices[pass.i].serial), devices[pass.i]);
    RefreshLog(devices, vs + [v], accessories + [a], refreshed, pass.Next(devices[pass.i].serial))
{
  var v := AccessoryView(Uuid(devices[pass.i].serial), devices[pass.i]);
  forall j | |pass.refreshed| <= j < |refreshed|
    ensures RestoredIn(vs + [v], accessories + [a], devices, refreshed[j])
  {
    var r := refreshed[j];
    assert RestoredIn(vs, accessories, devices, r);
    FirstWithUuidAppend(vs, [v], r.uuid);
    var f := FirstWithUuid(vs, r.uuid).value;
    assert (vs + [v])[f] == vs[f] && (accessories + [a])[f] == accessories[f];
  }
  forall i | 0 <= i < |pass.views| && (vs + [v])[i] != pass.views[i]
    ensures (accessories + [a])[i] in refreshed[|pass.refreshed|..]
  {
    assert (vs + [v])[i] == vs[i] && (accessories + [a])[i] == accessories[i];
  }
}

/**
 * What the discovery loop leaves once every device has had its pass: every
 * configured serial has its own state machine and is represented, the other
 * state machines are as before, every accessory added holds a configured
 * device, the accessories from before changed only by restoring, and each
 * device either refreshed or added one accessory.
 */
lemma DiscoveryComplete(devices: seq<DeviceConfig>, vs: seq<AccessoryView>, accessories: seq<PlatformAccessory>,
                        registered: seq<PlatformAccessory>,
                        thermostats: map<string, ThermostatAccessory>, pass: Pass, p: Platform)
  requires pass.i == |devices| && Layout(devices, vs, accessories, registered, pass)
  requires ThermostatsSince(devices, thermostats, pass, p)
  ensures Installed(thermostats, set d | d in devices :: d.serial, p)
  ensures forall s :: s in thermostats <==> s in pass.thermostats || s in Serials(devices)
  ensures forall s :: s in pass.thermostats && s !in Serials(devices) ==> thermostats[s] == pass.thermostats[s]
  ensures forall d :: d in devices ==> RepresentedIn(vs, d.serial)
  ensures forall k :: |pass.accessories| <= k < |vs| ==> vs[k].device in devices && vs[k].device.serial in Serials(devices)
{
  SerialSet(devices, pass.touched);
  forall d | d in devices
    ensures RepresentedIn(vs, d.serial)
  {
    var j :| 0 <= j < |devices| && devices[j] == d;
  }
  forall k | |pass.accessories| <= k < |vs|
    ensures vs[k].device.serial in Serials(devices)
  {
    assert vs[k].device in devices;
    var j :| 0 <= j < |devices| && devices[j] == vs[k].device;
    assert Serials(devices)[j] == vs[k].device.serial;
  }
}
