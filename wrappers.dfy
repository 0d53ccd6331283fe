/** The optional values of the record: a TypeScript `T | null` or an absent `field?: T`. */
module Wrappers {

  datatype Option<+T> = None | Some(value: T)
}
