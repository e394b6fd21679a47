/** Kernel-level vocabulary the test driver is written against: status codes,
    fixed-width integers, handles, and the little-endian layout of a 32-bit
    word in a raw byte buffer. */
module Zx {

  type Int32 = x: int | -0x8000_0000 <= x < 0x8000_0000
  type Uint32 = x: int | 0 <= x < 0x1_0000_0000
  type Byte = x: int | 0 <= x < 0x100

  /** A C `char`: one byte, seen as a character. */
  type CChar = c: char | c as int < 0x100

  /** The bytes of a C character buffer or name. */
  type ByteString = seq<CChar>

  /** zx_status_t: zero is success, errors are negative. */
  type Status = Int32

  const OK: Status := 0
  const ERR_NOT_SUPPORTED: Status := -2
  const ERR_INVALID_ARGS: Status := -10
  const ERR_BUFFER_TOO_SMALL: Status := -15

  /** zx_handle_t: an opaque 32-bit value naming a kernel object. */
  type Handle = Uint32

  const HANDLE_INVALID: Handle := 0

  /** sizeof(zx_handle_t) */
  const HANDLE_SIZE: nat := 4

  datatype Option<+T> = None | Some(value: T)

  function Min(a: nat, b: nat): (m: nat)
    ensures m <= a && m <= b
    ensures m == a || m == b
  {
    if a < b then a else b
  }

  /** The four bytes a 32-bit word occupies in memory, least significant first. */
  function EncodeU32(x: Uint32): (b: seq<Byte>)
    ensures |b| == 4
    ensures b[0] as int + 0x100 * (b[1] as int + 0x100 * (b[2] as int + 0x100 * b[3] as int)) == x
  {
    var x1 := x / 0x100;
    var x2 := x1 / 0x100;
    [x % 0x100, x1 % 0x100, x2 % 0x100, x2 / 0x100]
  }

  /** Reading a 32-bit word from four bytes of memory (`*(uint32_t*)p`). */
  function DecodeU32(b: seq<Byte>): (x: Uint32)
    requires |b| == 4
    ensures EncodeU32(x) == b
  {
    var b0, b1, b2, b3 := b[0] as int, b[1] as int, b[2] as int, b[3] as int;
    var x2 := b2 + 0x100 * b3;
    var x1 := b1 + 0x100 * x2;
    LowByte(b0, x1);
    LowByte(b1, x2);
    LowByte(b2, b3);
    b0 + 0x100 * x1
  }

  lemma DecodeEncodeU32(x: Uint32)
    ensures DecodeU32(EncodeU32(x)) == x
  {
  }

  /** Splitting `lo + 256 * hi` back into its low byte and the rest. */
  lemma LowByte(lo: int, hi: int)
    requires 0 <= lo < 0x100
    ensures (lo + 0x100 * hi) % 0x100 == lo
    ensures (lo + 0x100 * hi) / 0x100 == hi
  {
  }
}
