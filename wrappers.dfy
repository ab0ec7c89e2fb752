/** The optional value that stands for `undefined`/`null` in the repository's TypeScript. */
module Wrappers {

  datatype Option<+T> = None | Some(value: T)
}
