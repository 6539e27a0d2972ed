/** The optional value used for the page's nullable state. */
module Wrappers {

  /** `T | null` */
  datatype Option<+T> = None | Some(value: T)
}
