/** JavaScript `null` for a nullable field: `None` stands for `null`. */
module Wrappers {

  datatype Option<+T> = None | Some(value: T)
}
