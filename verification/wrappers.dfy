/** The optional-value type used for every fallible step of the model: a
    faulting user-memory read, a failed readlink, a sample too short to
    decode, a Go slice expression that would panic. */
module Wrappers {

  datatype Option<+T> = None | Some(value: T)
}
