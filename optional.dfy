/** C#'s nullable `int?` and a reference that may be missing. */
module Optional {

  datatype Option<+T> = None | Some(value: T)
}
