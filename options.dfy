/** The optional value used by the lifecycle state machine. */
module Options {

  datatype Option<+T> = None | Some(value: T)
}
