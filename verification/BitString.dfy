/** The bit string an LZX stream stands for: little-endian 16-bit words, the
    most significant bit of each word first (internal/wim/lzx/lzx.go:117-143). */
module BitString {
  import opened Arith

  type Bit = x: int | 0 <= x < 2

  /** The low n bits of v, most significant first. */
  function ToBits(v: nat, n: nat): (r: seq<Bit>)
    ensures |r| == n
  {
    if n == 0 then [] else ToBits(v / 2, n - 1) + [v % 2]
  }

  function Word(data: seq<Byte>, w: nat): (v: nat)
    requires 2 * w + 1 < |data|
    ensures v < 65536
  {
    data[2 * w + 1] as int * 256 + data[2 * w]
  }

  /** The bits of the first n words. */
  function WordBits(data: seq<Byte>, n: nat): (r: seq<Bit>)
    requires 2 * n <= |data|
    ensures |r| == 16 * n
  {
    if n == 0 then [] else WordBits(data, n - 1) + ToBits(Word(data, n - 1), 16)
  }

  /** The whole bit string; a trailing odd byte carries no bits. */
  function BitsOf(data: seq<Byte>): (r: seq<Bit>)
    ensures |r| == 16 * (|data| / 2)
  {
    WordBits(data, |data| / 2)
  }

  /** The n bits from bit pos on, read as a number with the first bit highest. */
  function Peek(bits: seq<Bit>, pos: nat, n: nat): nat
    requires n == 0 || pos + n <= |bits|
  {
    if n == 0 then 0 else 2 * Peek(bits, pos, n - 1) + bits[pos + n - 1]
  }

  lemma {:induction false} PeekBound(bits: seq<Bit>, pos: nat, n: nat)
    requires n == 0 || pos + n <= |bits|
    ensures Peek(bits, pos, n) < Pow2(n)
  {
    if n > 0 {
      PeekBound(bits, pos, n - 1);
    }
  }

  lemma {:induction false} PeekSplit(bits: seq<Bit>, pos: nat, m: nat, n: nat)
    requires m + n == 0 || pos + m + n <= |bits|
    ensures Peek(bits, pos, m + n) == Shl(Peek(bits, pos, m), n) + Peek(bits, pos + m, n)
  {
    if n > 0 {
      PeekSplit(bits, pos, m, n - 1);
    }
  }

  /** Reading bits that spell v gives v back. */
  lemma {:induction false} PeekToBits(bits: seq<Bit>, pos: nat, v: nat, n: nat)
    requires pos + n <= |bits| && v < Pow2(n)
    requires bits[pos..pos + n] == ToBits(v, n)
    ensures Peek(bits, pos, n) == v
  {
    if n > 0 {
      var s := bits[pos..pos + n];
      assert bits[pos..pos + (n - 1)] == s[..n - 1] == ToBits(v / 2, n - 1);
      PeekToBits(bits, pos, v / 2, n - 1);
      assert bits[pos + n - 1] == s[n - 1];
    }
  }

  lemma {:induction false} WordBitsAt(data: seq<Byte>, n: nat, w: nat)
    requires 2 * n <= |data| && w < n
    ensures WordBits(data, n)[16 * w..16 * w + 16] == ToBits(Word(data, w), 16)
  {
    if w < n - 1 {
      WordBitsAt(data, n - 1, w);
      assert WordBits(data, n)[16 * w..16 * w + 16] == WordBits(data, n - 1)[16 * w..16 * w + 16];
    }
  }

  /** A whole word of the bit string is the little-endian value of its bytes. */
  lemma PeekWord(data: seq<Byte>, w: nat)
    requires 2 * w + 1 < |data|
    ensures 16 * w + 16 <= |BitsOf(data)|
    ensures Peek(BitsOf(data), 16 * w, 16) == Word(data, w) == (data[2 * w] as int) + 256 * (data[2 * w + 1] as int)
  {
    WordBitsAt(data, |data| / 2, w);
    Below16(Word(data, w));
    PeekToBits(BitsOf(data), 16 * w, Word(data, w), 16);
  }

  lemma Below16(v: nat)
    requires v < 65536
    ensures v < Pow2(16)
  {
    Pow2Values();
  }
}
