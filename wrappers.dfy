/** The optional value used for Python's `Optional[...]` fields and `None` results. */
module Wrappers {

  datatype Option<+T> = None | Some(value: T)
}
