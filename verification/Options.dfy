/** Results that may be missing, and the ways a call of the source can end. */
module Options {

  datatype Option<+T> = None | Some(value: T)

  datatype Status = Fine | Error | Panic
}
