/** A nullable value: `None` stands for the store's and the client's `null`. */
module Wrappers {

  datatype Option<+T> = None | Some(value: T)
}
