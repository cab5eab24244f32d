/** The "absent or present" result used where the engine returns an empty shared pointer. */
module Wrappers {

  datatype Option<+T> = None | Some(value: T)

}
