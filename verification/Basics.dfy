/** Small shared datatypes. */
module Basics {
  datatype Option<+T> = None | Some(value: T)

  /** Account addresses in canonical (lower-case, trimmed) form. */
  type Address = string

  type Positive = n: nat | 0 < n witness 1

  const MAX_UINT64: int := 0xFFFF_FFFF_FFFF_FFFF
}
