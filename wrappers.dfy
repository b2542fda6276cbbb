/** The optional value a Python lookup such as `dict.get` or `_get` hands back. */
module Wrappers {

  datatype Option<+T> = None | Some(value: T)
}
