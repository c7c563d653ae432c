/** Swift's optional values (`T?`): either absent or holding one value. */
module Optional {

  datatype Option<+T> = None | Some(value: T)
}
