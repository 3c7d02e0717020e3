/** An optional value: `None` stands for the `null` (or the thrown error) of the JavaScript code. */
module Options {

  datatype Option<+T> = None | Some(value: T)
}
