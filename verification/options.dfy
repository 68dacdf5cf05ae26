/** The usual Some/None datatype, used where the page script would
    meet `null` or `undefined`. */
module Options {

  datatype Option<+T> = None | Some(value: T)

}
