/** The optional value used where the program has "nothing to write". */
module Options {
  datatype Option<+T> = None | Some(value: T)
}
