/** Option and the two ways a Python call can end: it returns a value or raises. */
module Wrappers {

  datatype Option<+T> = None | Some(value: T)

  /** `Raised` stands for an exception the source does not catch; its text is the message. */
  datatype Outcome<+T> = Returned(value: T) | Raised(error: string)
}
