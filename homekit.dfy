// The HomeKit characteristic constants the thermostat accessory reads and
// pushes. Each constant keeps the numeric code HomeKit gives it.

/** Characteristic.CurrentHeatingCoolingState: what the unit is doing now. */
datatype CurrentHeatingCoolingState = CurrentOff | CurrentHeat | CurrentCool
{
  function Code(): (c: int)
    ensures 0 <= c <= 2
  {
    match this
    case CurrentOff => 0
    case CurrentHeat => 1
    case CurrentCool => 2
  }
}

/** Characteristic.TargetHeatingCoolingState: the mode the user asks for. */
datatype TargetHeatingCoolingState = TargetOff | TargetHeat | TargetCool | TargetAuto
{
  function Code(): (c: int)
    ensures 0 <= c <= 3
  {
    match this
    case TargetOff => 0
    case TargetHeat => 1
    case TargetCool => 2
    case TargetAuto => 3
  }
}

/** Characteristic.Active on the fan service. */
datatype ActiveState = Inactive | Active
{
  function Code(): (c: int)
    ensures 0 <= c <= 1
  {
    match this
    case Inactive => 0
    case Active => 1
  }
}

/** Characteristic.OccupancyDetected on the occupancy sensor service. */
datatype OccupancyState = OccupancyNotDetected | OccupancyDetected
{
  function Code(): (c: int)
    ensures 0 <= c <= 1
  {
    match this
    case OccupancyNotDetected => 0
    case OccupancyDetected => 1
  }
}

/** One `updateCharacteristic` call: a value pushed to the host framework. */
datatype HostPush =
  | PushCurrentTemperature(temperature: Value)
  | PushTargetTemperature(temperature: Value)
  | PushCoolingThreshold(temperature: Value)
  | PushHeatingThreshold(temperature: Value)
  | PushCurrentState(current: CurrentHeatingCoolingState)
  | PushTargetState(target: TargetHeatingCoolingState)
  | PushFanActive(active: ActiveState)
  | PushOccupancy(occupancy: OccupancyState)
