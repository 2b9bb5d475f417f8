/** The optional value used wherever the JavaScript code returns `undefined`
    or passes `null`. */
module Options {

  datatype Option<+T> = None | Some(value: T)
}
