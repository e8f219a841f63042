/** A value that may be missing: pandas' NaN / NaT cell. */
module Options {

  datatype Option<+T> = None | Some(value: T)

}
