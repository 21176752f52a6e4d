/** Small result types shared by the whole model. */
module Wrappers {

  /** An optional value: Rust's `Option<T>`. */
  datatype Option<+T> = None | Some(value: T)

  /** Why an operation aborted. Each constructor stands for one `expect` or `unwrap`
      in the store that panics instead of returning an error. */
  datatype Panic =
    | MissingLeaf      // `set_data`: "Old data not found on set"
    | MissingComputed  // `computed_execute_getter` / `computed_execute_setter`
    | MissingCache     // `set_computed`: "Old data not found on set"
    | TypeMismatch     // `unwrap()` of a typed extraction whose tag did not match

  /** Outcome of a store operation that can abort or, in the model, run out of
      recursion fuel where the original would keep recursing. */
  datatype Result<+T> = Ok(value: T) | Aborted(panic: Panic) | OutOfFuel
}
