/**
 * Value types shared by the model of the Amethyst back-end of RLTK:
 * machine integers, the Option and Result wrappers, the panics a Rust debug
 * build raises, and the console cell (`Tile`) with its colours.
 */
module Types {

  /** One past the largest `u32`. */
  const U32_LIMIT: nat := 0x1_0000_0000

  /** Rust's `u32`. */
  type uint32 = x: nat | x < 0x1_0000_0000

  /** Rust's `u8`; a glyph code is one byte. */
  type uint8 = x: nat | x < 0x100

  datatype Option<+T> = None | Some(value: T)

  /** Why a Rust debug build stops: an integer operation overflowed, a slice
      was indexed past its end, or an `assert!` failed with a message. */
  datatype Panic =
    | ArithmeticOverflow
    | IndexOutOfBounds
    | AssertionFailed(message: string)

  /** The outcome of code that either returns normally or panics. */
  datatype Result<+T> = Ok(value: T) | Panicked(reason: Panic)

  /** An RGB colour. RLTK's `RGB` stores each channel as an `f32`; here a
      channel is a real number, because the bridge only copies channels. */
  datatype Rgb = Rgb(r: real, g: real, b: real)

  /** Amethyst's `Srgba`: a colour with an alpha channel. */
  datatype Srgba = Srgba(red: real, green: real, blue: real, alpha: real)

  /** One cell of a simple console: glyph code, foreground, background. */
  datatype Tile = Tile(glyph: uint8, fg: Rgb, bg: Rgb)

  /** The colour `c` drawn fully opaque (`Srgba::new(c.r, c.g, c.b, 1.0)`). */
  function Opaque(c: Rgb): Srgba
  {
    Srgba(c.r, c.g, c.b, 1.0)
  }

  /** Checked `u32` subtraction: `None` where a debug build panics. */
  function CheckedSub(a: uint32, b: uint32): (r: Option<uint32>)
    ensures r.Some? <==> b <= a
    ensures r.Some? ==> r.value + b == a
  {
    if b <= a then Some(a - b) else None
  }

  /** Checked `u32` multiplication. */
  function CheckedMul(a: uint32, b: uint32): (r: Option<uint32>)
    ensures r.Some? <==> a * b < U32_LIMIT
    ensures r.Some? ==> r.value == a * b
  {
    if a * b < U32_LIMIT then Some(a * b) else None
  }

  /** Checked `u32` addition. */
  function CheckedAdd(a: uint32, b: uint32): (r: Option<uint32>)
    ensures r.Some? <==> a + b < U32_LIMIT
    ensures r.Some? ==> r.value == a + b
  {
    if a + b < U32_LIMIT then Some(a + b) else None
  }

  /** Multiplication by a natural number is monotonic. */
  lemma MulMonotonic(a: nat, b: nat, w: nat)
    requires a <= b
    ensures a * w <= b * w
  {
  }
}
