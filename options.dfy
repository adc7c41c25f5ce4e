/** The optional value used for the nullable edge slot and for parse results. */
module Options {

  datatype Option<+T> = None | Some(value: T)
}
