/** Option and Result, the two ways the scripts report "nothing" and "an exception". */
module Wrappers {

  datatype Option<+T> = None | Some(value: T)

  /** `Err` stands for a raised Python exception; `msg` names its kind. */
  datatype Result<+T> = Ok(value: T) | Err(msg: string)
}
