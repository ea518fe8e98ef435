/** Types shared by the model's modules. */
module Basics {
  type Name = string

  datatype Option<+T> = None | Some(value: T)
}
