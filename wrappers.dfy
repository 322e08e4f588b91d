/** The TypeScript `T | null` fields of the simulator's records. */
module Wrappers {
  datatype Option<+T> = None | Some(value: T)
}
