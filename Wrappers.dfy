/** Python's `None`-or-value, used for optional results and optional inputs. */
module Wrappers {

  datatype Option<+T> = None | Some(value: T)
}
