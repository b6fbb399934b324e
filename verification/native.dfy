/**
 * What the wrapper sees of the native Open Image Denoise library: opaque
 * handles, 32-bit float pixel values, error codes, and the fixed-width
 * integers of the Rust side.
 */
module Native {

  /** A 32-bit float, carried as its bit pattern: the wrapper only stores and forwards pixels. */
  type F32 = bv32

  /** The bit pattern of Rust's `f32::NAN`, the "let the engine choose" input scale. */
  const NaN: F32 := 0x7FC0_0000

  /** An opaque native handle (OIDNDevice, OIDNBuffer, OIDNFilter); 0 is the null pointer. */
  type Handle = nat

  const Null: Handle := 0

  /** `usize` on a 64-bit target. */
  const USizeLimit: int := 0x1_0000_0000_0000_0000

  type USize = x: int | 0 <= x < USizeLimit

  /** `u32`, the representation of the native quality enumeration. */
  type U32 = x: int | 0 <= x < 0x1_0000_0000

  /**
   * The identity a device hands to every buffer it creates (an `Arc` allocation
   * on the Rust side). Only its address matters: two tokens are the same device
   * exactly when they are the same object.
   */
  class Token {
    constructor () {}
  }

  /** OIDN's error codes, plus the wrapper's own InvalidImageDimensions. */
  datatype Error =
    | NoError
    | Unknown
    | InvalidArgument
    | InvalidOperation
    | OutOfMemory
    | UnsupportedHardware
    | Cancelled
    | InvalidImageDimensions

  /** The `as i32` cast of a `u32`: two's-complement reinterpretation of the same 32 bits. */
  function AsI32(q: U32): (r: int)
    ensures -0x8000_0000 <= r < 0x8000_0000
    ensures (q - r) % 0x1_0000_0000 == 0
    ensures q < 0x8000_0000 ==> r == q
  {
    if q < 0x8000_0000 then q else q - 0x1_0000_0000
  }

  /** How many times `x` occurs in `s`; used to count native calls in a log. */
  function Occurrences<T(==)>(s: seq<T>, x: T): (n: nat)
    ensures n <= |s|
    ensures n == 0 <==> x !in s
  {
    if s == [] then 0 else (if s[0] == x then 1 else 0) + Occurrences(s[1..], x)
  }

  lemma {:induction false} OccurrencesConcat<T>(a: seq<T>, b: seq<T>, x: T)
    ensures Occurrences(a + b, x) == Occurrences(a, x) + Occurrences(b, x)
  {
    if a == [] {
      assert a + b == b;
    } else {
      assert (a + b)[0] == a[0];
      assert (a + b)[1..] == a[1..] + b;
      OccurrencesConcat(a[1..], b, x);
    }
  }
}
