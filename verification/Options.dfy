/** The optional value that stands for a missing row, key or bound (`None` in the source). */
module Options {

  datatype Option<+T> = None | Some(value: T)
}
