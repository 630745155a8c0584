/** The optional value used throughout the model: JavaScript's `undefined`/`null`
    (and, for parsed numbers, `NaN`) become `None`. */
module Options {

  datatype Option<+T> = None | Some(value: T)
}
