/** An optional value: the matchers' "no match" and the row decoder's "no kind". */
module Wrappers {

  datatype Option<+T> = None | Some(value: T)
}
