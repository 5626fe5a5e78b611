/** An optional value: used for a provider field that may be missing and for
    the clipboard text that is only produced when copying is allowed. */
module Optional {

  datatype Option<+T> = None | Some(value: T)
}
