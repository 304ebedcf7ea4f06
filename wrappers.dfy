/** The optional value used wherever a document, a field or a lookup may be absent. */
module Wrappers {

  datatype Option<+T> = None | Some(value: T)
}
