/** The JavaScript `null` / optional-value convention of the game state. */
module Wrappers {

  datatype Option<T> = None | Some(value: T)

}
