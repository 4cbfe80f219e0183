/** A value that may be missing: Python's None, Java's and the database's null. */
module Options {

  datatype Option<T> = None | Some(value: T)
}
