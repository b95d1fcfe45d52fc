/** What the endpoint's activity sensor reports and what the server keeps of it. */
module Activity {
  import opened Calendar

  datatype Option<+T> = None | Some(value: T)

  /** Session states, in the order in which they win an overlap. */
  datatype State = ACTIVE | IDLE | LOCKED | DISCONNECTED | UNKNOWN

  function Priority(s: State): nat {
    match s
    case ACTIVE => 0
    case IDLE => 1
    case LOCKED => 2
    case DISCONNECTED => 3
    case UNKNOWN => 4
  }

  /** Canonical UUID text orders like the number it spells, so a device is that number. */
  type Device = nat

  /** Everything two adjacent samples must share to be stored as one interval. */
  datatype Reading = Reading(
    user: Option<string>, state: State,
    process: Option<string>, category: Option<string>, browser: Option<string>,
    version: Option<nat>)

  /** One stored interval: the half-open span [started, ended) on one device. */
  datatype Interval = Interval(
    device: Device, reading: Reading, started: Instant, ended: Instant, seen: Instant)
}
