/** The optional value used for nullable Go fields (pointers, gorm.DeletedAt)
    and for operations that may fail. */
module Wrappers {
  datatype Option<+T> = None | Some(value: T)
}
