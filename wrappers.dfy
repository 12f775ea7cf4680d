/** `None` or a value: Python's `Optional`, a missing key, a lookup that found nothing. */
module Wrappers {
  datatype Option<T> = None | Some(value: T)
}
