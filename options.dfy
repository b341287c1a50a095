/** The optional value used where the model of a library call can come back empty. */
module Options {

  datatype Option<+T> = None | Some(value: T)
}
