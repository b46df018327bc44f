/** A value that may be absent: a JavaScript field that may be `undefined` or `null`. */
module Options {

  datatype Option<+T> = None | Some(value: T)
}
