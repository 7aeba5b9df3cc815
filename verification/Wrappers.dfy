// Values that may be absent: nullable columns and lookups that find no row.
module Wrappers {

  datatype Option<+T> = None | Some(value: T)
}
