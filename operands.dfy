/**
 * Bytes and 16-bit words, and the operand packer: two operand bytes form
 * one 16-bit word, the first byte in the high half and the second in the
 * low half.
 *
 * Values are unsigned numbers. The C masks and shifts are written as their
 * arithmetic equivalents on unsigned values: `x & 0xFF` is `x % 256`,
 * `x >> 8` is `x / 256`, `(x << 8) | y` with `y < 256` is `x * 256 + y`.
 * On a platform where `char` is signed, the C casts `(uint16_t) c` and
 * `(size_t) c` would sign-extend a byte >= 0x80; that implementation-defined
 * behaviour is not modelled.
 */
module Operands {

  type Byte = b: int | 0 <= b < 256
  type Word = w: int | 0 <= w < 0x1_0000

  /** The word `(hi << 8) | lo`: `hi` is its high byte and `lo` its low byte. */
  function Combine(hi: Byte, lo: Byte): (w: Word)
    ensures w / 256 == hi && w % 256 == lo
  {
    hi * 256 + lo
  }

  /** `cpu_splitargs`: the high byte `(args >> 8) & 0xFF` and the low byte `args & 0xFF`. */
  function SplitArgs(args: Word): (r: (Byte, Byte))
    ensures Combine(r.0, r.1) == args
  {
    ((args / 256) % 256, args % 256)
  }

  /** Two byte pairs with the same combined word are the same pair. */
  lemma CombineInjective(h1: Byte, l1: Byte, h2: Byte, l2: Byte)
    requires Combine(h1, l1) == Combine(h2, l2)
    ensures h1 == h2 && l1 == l2
  {
  }

  /** Splitting a combined word gives back both bytes, in order. */
  lemma SplitCombine(hi: Byte, lo: Byte)
    ensures SplitArgs(Combine(hi, lo)) == (hi, lo)
  {
  }

  /** The low byte of an address, `a & 0xff`. */
  function LowByte(a: nat): Byte {
    a % 256
  }

  /** The second byte of an address, `(a >> 8) & 0xff`. */
  function HighByte(a: nat): Byte {
    (a / 256) % 256
  }

  /** Recombining the two low bytes of an address keeps its low 16 bits. */
  lemma CombineBytes(a: nat)
    ensures Combine(HighByte(a), LowByte(a)) == a % 0x1_0000
  {
    var q := a / 256;
    assert a == q * 256 + a % 256;
    assert q == (q / 256) * 256 + q % 256;
    assert a == (q / 256) * 0x1_0000 + ((q % 256) * 256 + a % 256);
  }

  /** The 16-bit address with the two low bytes of `a` exchanged. */
  function Swapped(a: nat): Word {
    Combine(LowByte(a), HighByte(a))
  }

  /** Swapping twice gives the low 16 bits back. */
  lemma SwappedTwice(a: nat)
    ensures Swapped(Swapped(a)) == a % 0x1_0000
  {
    var s := Swapped(a);
    SplitCombine(LowByte(a), HighByte(a));
    assert HighByte(s) == LowByte(a) && LowByte(s) == HighByte(a);
    CombineBytes(a);
  }

  /** Swapping keeps an address's low 16 bits exactly when its two low bytes agree. */
  lemma SwappedFixed(a: nat)
    ensures Swapped(a) == a % 0x1_0000 <==> HighByte(a) == LowByte(a)
  {
  }
}
