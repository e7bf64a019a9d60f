/** The optional value that stands for Python's `None`, shared by every other module. */
module Optional {
  datatype Option<+T> = None | Some(value: T)
}
