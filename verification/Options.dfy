/** The result of an operation that can halt the machine (EXIT in include/exit.h). */
module Options {
  datatype Option<+T> = None | Some(value: T)
}
