/** The Option datatype used for the screen's nullable values (JavaScript `null` / `undefined`). */
module Wrappers {

  datatype Option<+T> = None | Some(value: T)

}
