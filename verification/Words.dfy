/** The machine integers of the firmware, their casts and their wrap-around. */
module MachineWords {

  type u8 = x: int | 0 <= x < 0x100
  type u16 = x: int | 0 <= x < 0x1_0000
  type u32 = x: int | 0 <= x < 0x1_0000_0000
  type i16 = x: int | -0x8000 <= x < 0x8000
  type i32 = x: int | -0x8000_0000 <= x < 0x8000_0000

  const TWO32: int := 0x1_0000_0000

  function Add32(a: u32, b: u32): (s: u32)
  {
    if a + b < TWO32 then a + b else a + b - TWO32
  }

  /** The elapsed time between two readings of a 32-bit clock. */
  function Sub32(a: u32, b: u32): (d: u32)
  {
    if a >= b then a - b else a - b + TWO32
  }

  // ---- Casts between signed and unsigned of one width ------------------------------

  function ToU16(v: i16): (u: u16)
  {
    if v < 0 then v + 0x1_0000 else v
  }

  function ToI16(u: u16): (v: i16)
    ensures ToU16(v) == u
  {
    if u >= 0x8000 then u - 0x1_0000 else u
  }

  function ToU32(v: i32): (u: u32)
  {
    if v < 0 then v + TWO32 else v
  }

  function ToI32(u: u32): (v: i32)
    ensures ToU32(v) == u
  {
    if u >= 0x8000_0000 then u - TWO32 else u
  }
}

module Options {

  datatype Option<T> = None | Some(value: T)
}
