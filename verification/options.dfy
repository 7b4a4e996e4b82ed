/** An optional value: the model's stand-in for a null pointer or a failed parse. */
module Options {

  datatype Option<+T> = None | Some(value: T)
}
