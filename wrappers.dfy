/** The optional value used for C pointers that may be NULL and for
    configuration fields that may still hold nginx's "unset" sentinel. */
module Wrappers {

  datatype Option<+T> = None | Some(value: T)
}
