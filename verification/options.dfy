/** The optional-value datatype used wherever the game has an `undefined`. */
module Options {

  /** `None` stands for JavaScript's `undefined`. */
  datatype Option<T> = None | Some(value: T)
}
