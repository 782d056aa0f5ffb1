/** The optional-value wrapper used across the model: a missing key, or a
    JavaScript value that may be `null`. */
module Options {

  datatype Option<+T> = None | Some(value: T)
}
