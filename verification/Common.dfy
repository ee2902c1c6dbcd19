/** What several modules share. */
module Common {

  type Byte = x: int | 0 <= x < 0x100

  datatype Option<T> = None | Some(value: T)

  /** The two values of an attribute. */
  datatype ValueState = Reported | Desired

  function Max(a: nat, b: nat): nat { if a < b then b else a }
}
