/** Small shared wrapper types. */
module Common {

  /** An optional value: `None` stands for the absence of a result. */
  datatype Option<T> = None | Some(value: T)
}
