/** Machine integer widths used by the game and its wire format. */
module Primitives {

  /** Rust `u8`. */
  type byte = x: int | 0 <= x < 0x100

  /** Rust `u32`. */
  type u32 = x: int | 0 <= x < 0x1_0000_0000

  /** Rust `u64`. */
  type u64 = x: int | 0 <= x < 0x1_0000_0000_0000_0000

  /** Rust `usize` on the 64-bit targets the game is built for. */
  type usize = u64

  /** renet's `NETCODE_USER_DATA_BYTES`: the size of the user data a client hands to the server. */
  const NetcodeUserDataBytes: nat := 256
}
