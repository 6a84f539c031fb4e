/** Byte memory shared by host and device, and its little-endian 32-bit accesses. */
module Bytes {

  type byte = x: int | 0 <= x < 0x100

  type u32 = x: int | 0 <= x < 0x1_0000_0000

  const U32_MODULUS: int := 0x1_0000_0000

  /** The word at offset `at`. */
  function Read32(mem: seq<byte>, at: nat): u32
    requires at + 4 <= |mem|
  {
    var b0: int, b1: int, b2: int, b3: int := mem[at], mem[at + 1], mem[at + 2], mem[at + 3];
    b0 + 0x100 * b1 + 0x1_0000 * b2 + 0x100_0000 * b3
  }

  /** The four bytes of a word, lowest first. */
  function Word(value: u32): (b: seq<byte>)
    ensures |b| == 4 && Read32(b, 0) == value
  {
    var upper := value / 0x100;
    var half := upper / 0x100;
    [value % 0x100, upper % 0x100, half % 0x100, half / 0x100]
  }

  /** Memory with `data` copied to offset `at`. */
  function Write(mem: seq<byte>, at: nat, data: seq<byte>): (m: seq<byte>)
    requires at + |data| <= |mem|
    ensures |m| == |mem|
    ensures forall i :: at <= i < at + |data| ==> m[i] == data[i - at]
    ensures forall i :: 0 <= i < |m| && !(at <= i < at + |data|) ==> m[i] == mem[i]
  {
    seq(|mem|, i requires 0 <= i < |mem| => if at <= i < at + |data| then data[i - at] else mem[i])
  }

  function Min(a: nat, b: nat): nat {
    if a < b then a else b
  }

  /** A word depends on its own four bytes only. */
  lemma Read32Same(a: seq<byte>, i: nat, b: seq<byte>, j: nat)
    requires i + 4 <= |a| && j + 4 <= |b|
    requires a[i..i + 4] == b[j..j + 4]
    ensures Read32(a, i) == Read32(b, j)
  {
    var w, v := a[i..i + 4], b[j..j + 4];
    assert w[0] == v[0] && w[1] == v[1] && w[2] == v[2] && w[3] == v[3];
  }
}
