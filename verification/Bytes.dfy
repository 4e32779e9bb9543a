/** Bytes and big-endian integers. */
module Bytes {

  type Byte = x: int | 0 <= x < 256

  const U32: nat := 0x1_0000_0000
  const U64: nat := 0x1_0000_0000_0000_0000

  /** `binary.BigEndian.PutUint32`, which keeps the low 32 bits. */
  function Put32(n: nat): (b: seq<Byte>)
    ensures |b| == 4
  {
    [n / 0x100_0000 % 256, n / 0x1_0000 % 256, n / 0x100 % 256, n % 256]
  }

  function Get32(b: seq<Byte>): nat
    requires |b| == 4
  {
    var b0: int, b1: int, b2: int, b3: int := b[0], b[1], b[2], b[3];
    0x100_0000 * b0 + 0x1_0000 * b1 + 0x100 * b2 + b3
  }

  /** `binary.BigEndian.PutUint64`. */
  function Put64(n: nat): (b: seq<Byte>)
    ensures |b| == 8
  {
    Put32(n / U32) + Put32(n % U32)
  }

  /** Every 32-bit value is read back. */
  lemma Get32Put32(n: nat)
    requires n < U32
    ensures Get32(Put32(n)) == n
  {
    var a := n / 0x100;
    var b := a / 0x100;
    assert n / 0x1_0000 == b && n / 0x100_0000 == b / 0x100;
  }

  lemma Put32Injective(m: nat, n: nat)
    requires m < U32 && n < U32 && Put32(m) == Put32(n)
    ensures m == n
  {
    Get32Put32(m);
    Get32Put32(n);
  }

  lemma Put64Injective(m: nat, n: nat)
    requires m < U64 && n < U64 && Put64(m) == Put64(n)
    ensures m == n
  {
    var a, b := Put64(m), Put64(n);
    assert a[..4] == Put32(m / U32) && b[..4] == Put32(n / U32);
    assert a[4..] == Put32(m % U32) && b[4..] == Put32(n % U32);
    Put32Injective(m / U32, n / U32);
    Put32Injective(m % U32, n % U32);
  }

  /** The most significant byte comes first. */
  lemma BigEndian(a: Byte, b: Byte, c: Byte, d: Byte)
    ensures Put32(((a * 256 + b) * 256 + c) * 256 + d) == [a, b, c, d]
  {
    var n: nat := ((a * 256 + b) * 256 + c) * 256 + d;
    assert n / 0x100 == (a * 256 + b) * 256 + c;
    assert n / 0x1_0000 == n / 0x100 / 0x100 == a * 256 + b;
    assert n / 0x100_0000 == n / 0x1_0000 / 0x100 == a;
  }
}
