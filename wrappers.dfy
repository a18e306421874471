/** The optional values the page model needs: a missing attribute, a missing element. */
module Wrappers {
  datatype Option<+T> = None | Some(value: T)
}
