/** The optional value used for the kernel's nullable table pointers. */
module Options {

  datatype Option<+T> = None | Some(value: T)
}
