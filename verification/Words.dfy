// Machine words of the C sources: `uint64_t` with its real maximum, bytes, and
// the two-bit slot masks of the reduction latch.

module Words {
  const U64_MAX: int := 0xFFFF_FFFF_FFFF_FFFF

  type u64 = x: int | 0 <= x <= U64_MAX

  type u8 = x: int | 0 <= x <= 255

  datatype Option<+T> = None | Some(value: T)
}
