/** A value that may be missing: pandas' NaN / NaT / None cell. */
module Optional {

  datatype Option<+T> = None | Some(value: T)
}
