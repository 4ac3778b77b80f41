/** Optional values: `None` stands for the `null` that the reductions return
    when the list of orders is empty. */
module Wrappers {

  datatype Option<+T> = None | Some(value: T)
}
