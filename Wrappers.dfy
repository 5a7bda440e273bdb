/** The optional value used for every field the source declares with `?`. */
module Wrappers {

  datatype Option<+T> = None | Some(value: T)
}
