/** The optional-value datatype used for values the browser may not hold:
    a missing store key or a missing `release_date` field. */
module Wrappers {

  datatype Option<+T> = None | Some(value: T)

}
