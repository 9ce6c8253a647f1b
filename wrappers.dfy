/** The optional value used wherever the views read something that may be absent
    (a lookup that finds nothing, a field that is None). */
module Wrappers {

  datatype Option<+T> = None | Some(value: T)
}
