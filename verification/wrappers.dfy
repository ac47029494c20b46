/** The optional-value datatype shared by every module of the model: `None`
    stands for Python's `None`, and for a lookup or parse that raised. */
module Wrappers {

  datatype Option<+T> = None | Some(value: T)
}
