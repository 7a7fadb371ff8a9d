/** The JavaScript distinction between a present value and `undefined`. */
module Options {

  /** `None` stands for `undefined`: a property the object does not have. */
  datatype Option<+T> = None | Some(value: T)
}
