/** The optional-value type used throughout the model for Python's `None`. */
module Common {

  datatype Option<+T> = None | Some(value: T)

}
