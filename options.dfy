/** The optional value returned by lookups and by parsing. */
module Options {

  datatype Option<+T> = None | Some(value: T)
}
