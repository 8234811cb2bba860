/** The optional value used wherever the tracker keeps a Python `None`. */
module Wrappers {

  /** `None` stands for Python's `None`; `Some(v)` for a present value. */
  datatype Option<+T> = None | Some(value: T)
}
