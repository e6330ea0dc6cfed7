/** The optional value used where the source has a Swift optional. */
module Optional {

  datatype Option<+T> = None | Some(value: T)
}
