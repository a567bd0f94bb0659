/** The option type shared by every part of the model. */
module Common {

  datatype Option<+T> = None | Some(value: T)
}
