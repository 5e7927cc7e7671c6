/** Java's nullable references, made explicit. */
module Wrappers {

  /** `None` stands for Java `null`. */
  datatype Option<+T> = None | Some(value: T)
}
