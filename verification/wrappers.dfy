/** The optional value used wherever the app has a `T | null` field or an
    absent result. */
module Wrappers {

  datatype Option<+T> = None | Some(value: T)
}
