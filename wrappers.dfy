/** The Option type used for Python's `Optional[...]` results (`None` or a value). */
module Wrappers {

  datatype Option<+T> = None | Some(value: T)
}
