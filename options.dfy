// The optional value used wherever the source returns null.
module Options {

  datatype Option<+T> = None | Some(value: T)

}
