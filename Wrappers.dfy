/** Optional values, used for absent attributes, absent text and failed parses. */
module Wrappers {

  datatype Option<+T> = None | Some(value: T)
}
