/** The two shapes every other module needs. */
module Prelude {
  datatype Option<+T> = None | Some(value: T)

  /** Row, group and asset ids. They are uuids: all that is used is equality and order. */
  type Id = nat
}
