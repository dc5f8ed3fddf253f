/**
 * Shared vocabulary of the X2JPEG model: an Option type, bytes, and the
 * C++ integer widths the server relies on (`int` is 32 bits, `size_t` 64).
 */
module Common {

  datatype Option<+T> = None | Some(value: T)

  /** One byte of an encoded JPEG frame. */
  newtype Byte = x: int | 0 <= x < 256

  /** A compressed frame as the encoder hands it over (a `std::vector<unsigned char>`). */
  type Bytes = seq<Byte>

  const IntMin: int := -0x8000_0000
  const IntMax: int := 0x7FFF_FFFF
  const SizeTModulus: int := 0x1_0000_0000_0000_0000

  /** The value fits a 32-bit C++ `int`. */
  predicate InInt32(v: int) {
    IntMin <= v <= IntMax
  }

  /**
   * The usual arithmetic conversion of an `int` operand to `size_t` when it is
   * compared with a `size_t`: the value modulo 2^64.
   */
  function ToSizeT(v: int): (r: int)
    requires InInt32(v)
    ensures 0 <= r < SizeTModulus
    ensures v >= 0 ==> r == v
    ensures v < 0 ==> r == SizeTModulus + v
  {
    v % SizeTModulus
  }
}
