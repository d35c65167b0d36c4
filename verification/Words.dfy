/** Bytes and machine integers. */
module Words {
  type Byte = b: int | 0 <= b < 256
  type Int32 = n: int | -0x8000_0000 <= n < 0x8000_0000

  /** The value of an int32_t after an addition, in two's complement. */
  function Wrap32(n: int): Int32 {
    (n + 0x8000_0000) % 0x1_0000_0000 - 0x8000_0000
  }

  function Signed8(b: Byte): int {
    if b < 0x80 then b else b - 0x100
  }

  /** Two and four bytes, the lowest first. */
  function Signed16(b0: Byte, b1: Byte): int {
    var n := b0 + 0x100 * b1;
    if n < 0x8000 then n else n - 0x1_0000
  }

  function Signed32(b0: Byte, b1: Byte, b2: Byte, b3: Byte): Int32 {
    var n := b0 + 0x100 * b1 + 0x1_0000 * b2 + 0x100_0000 * b3;
    if n < 0x8000_0000 then n else n - 0x1_0000_0000
  }

  function Low(n: int): Byte { n % 0x100 }

  lemma Int32Bytes(n: Int32)
    ensures Signed32(Low(n), Low(n / 0x100), Low(n / 0x1_0000), Low(n / 0x100_0000)) == n
  {
    var m := n / 0x100;
    var k := m / 0x100;
    var j := k / 0x100;
    assert n == 0x100 * m + n % 0x100 && m == 0x100 * k + m % 0x100 && k == 0x100 * j + k % 0x100;
    assert n / 0x1_0000 == k;
    assert n / 0x100_0000 == j;
    assert -0x80 <= j < 0x80;
    assert j % 0x100 == if j < 0 then j + 0x100 else j;
  }
}
