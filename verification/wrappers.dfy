/** Optional values shared by every module of the model. */
module Wrappers {

  /** `None` stands for JavaScript's `null`/`NaN`/thrown-parse outcomes,
      depending on the function that returns it. */
  datatype Option<+T> = None | Some(value: T)
}
