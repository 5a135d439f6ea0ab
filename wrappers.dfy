/** Optional values: a Java reference that may be null, or a FHIR element that may be absent. */
module Wrappers {

  datatype Option<+T> = None | Some(value: T)
}
