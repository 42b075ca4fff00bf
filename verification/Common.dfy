/** Types every module of the model shares. */
module Common {

  datatype Option<+T> = None | Some(value: T)

  /** A row identifier: an opaque string, compared for equality only unless a module says otherwise. */
  type Uid = string

  const DAY_MS: int := 86400000

  /** The UTC day an instant, in milliseconds, falls on. */
  function Day(ms: int): int {
    ms / DAY_MS
  }

  /** 0 is Sunday, as for `getUTCDay`, `getDay` and `EXTRACT(DOW ...)`. */
  function Weekday(ms: int): int {
    (Day(ms) + 4) % 7
  }
}
