/** The one datatype shared by every module: a value that may be missing. */
module Options {
  datatype Option<+T> = None | Some(value: T)
}
