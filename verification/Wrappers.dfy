/** What every module of the model shares: the optional value, and JavaScript's largest safe integer. */
module Wrappers {
  datatype Option<+T> = None | Some(value: T)

  const MAX_SAFE: int := 0x1F_FFFF_FFFF_FFFF
}
