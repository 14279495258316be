/** Small shared datatypes. */
module Util {

  datatype Option<T> = None | Some(value: T)
}
