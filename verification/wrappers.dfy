/** The optional value used wherever the browser code may end without a result:
    a comparator or a callback that threw, or a reader that found no match. */
module Wrappers {

  datatype Option<+T> = None | Some(value: T)
}
