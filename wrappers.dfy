/** The optional value used for JavaScript results that may be missing (NaN, -1 sentinels). */
module Wrappers {

  datatype Option<+T> = None | Some(value: T)

}
