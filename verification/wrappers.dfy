/** A Go value of interface type `error` is either nil or some error: Option
    stands for that nil-or-value shape throughout the model. */
module Wrappers {

  datatype Option<+T> = None | Some(value: T)
}
