/** The usual Some/None wrapper; None stands for a Python exception
    (KeyError or TypeError) raised while reading the dataset. */
module Wrappers {
  datatype Option<+T> = None | Some(value: T)
}
