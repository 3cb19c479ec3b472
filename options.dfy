/** The optional value used for Go's comma-ok lookups and for "no fault". */
module Options {

  datatype Option<+T> = None | Some(value: T)
}
