/** A value or nothing: the null pointers and failures of the modelled code. */
module Options {

  datatype Option<+T> = None | Some(value: T)
}
