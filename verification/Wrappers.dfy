/** The conventional Some/None datatype: the homography solver's "no solution"
    and a smoothed matrix whose normalisation divided by zero are both None. */
module Wrappers {

  datatype Option<+T> = None | Some(value: T)
}
