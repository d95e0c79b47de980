/** The optional value used wherever the page code yields `null`, `undefined` or NaN. */
module Common {
  datatype Option<+T> = None | Some(value: T)
}
