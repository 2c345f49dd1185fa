/** The optional value used for the fetcher's "body or unavailable" outcome. */
module Wrappers {

  datatype Option<+T> = None | Some(value: T)
}
