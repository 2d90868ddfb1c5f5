/** The optional value used wherever the dashboard reads something that may be
    absent: a missing CSV field (JavaScript `undefined`), a failed date parse
    (`null`), a label search that finds nothing. */
module Wrappers {

  datatype Option<+T> = None | Some(value: T)
}
