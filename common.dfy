/** The optional value used wherever the source has an `Option` or a lookup that may miss. */
module Wrappers {

  datatype Option<+T> = None | Some(value: T)
}

/** Clock readings. `NaiveDateTime` values are opaque instants here; the handlers never compare them. */
module Clock {

  type Instant = nat
}
