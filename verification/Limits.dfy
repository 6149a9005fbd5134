/** The largest values of the machine integers that durable records are made of. */
module Limits {
  const U32_MAX: nat := 0xffff_ffff
  const U64_MAX: nat := 0xffff_ffff_ffff_ffff
}
