/** The optional value used wherever the source works with a JavaScript
    array slot that may hold `undefined`. */
module Options {

  datatype Option<+T> = None | Some(value: T)

}
