/** The optional value used wherever the source works with a nullable reference. */
module Options {

  datatype Option<+T> = None | Some(value: T)

}
