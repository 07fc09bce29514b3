// What the other modules share: optional columns, database time, bytes.
module Common {
  datatype Option<+T> = None | Some(value: T)

  // Microseconds, the resolution of a timestamptz column.
  type Time = int

  const SECOND: Time := 1_000_000
  const MINUTE: Time := 60 * SECOND
  const DAY: Time := 24 * 60 * MINUTE

  type Byte = b: int | 0 <= b < 256

  type Bytes = seq<Byte>

  function Max(a: nat, b: nat): nat {
    if a > b then a else b
  }
}
