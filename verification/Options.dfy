/** Values that may be absent: nil pointers, failed look-ups and unset fields. */
module Options {

  datatype Option<+T> = None | Some(value: T)
}
