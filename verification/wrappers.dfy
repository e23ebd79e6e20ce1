/** The Some/None datatype used wherever the bridge may find nothing (a missing
    device, a declined classification, an unset descriptor field). */
module Wrappers {

  datatype Option<+T> = None | Some(value: T)
}
