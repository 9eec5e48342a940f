/** Fixed-width machine values shared by the probe and the Go consumers:
    unsigned and signed integer ranges, fixed-size byte buffers, and the
    little- and big-endian packings of a 32-bit word into four bytes.
    The host is little-endian (x86-64), as the consumers' hard-coded
    `binary.LittleEndian` assumes. */
module Machine {

  type byte = x: int | 0 <= x < 0x100
  type u16 = x: int | 0 <= x < 0x1_0000
  type u32 = x: int | 0 <= x < 0x1_0000_0000
  type u64 = x: int | 0 <= x < 0x1_0000_0000_0000_0000
  type int32 = x: int | -0x8000_0000 <= x < 0x8000_0000
  type int64 = x: int | -0x8000_0000_0000_0000 <= x < 0x8000_0000_0000_0000

  /** A `[16]byte` / `u8[16]` process-name buffer. */
  type Comm = s: seq<byte> | |s| == 16 witness seq(16, _ => 0)

  /** The byte with index `i` (0 = least significant) of `n`, i.e. `(n >> 8i) & 0xff`. */
  function ByteOf(n: nat, i: nat): byte
    requires i < 4
  {
    if i == 0 then n % 0x100
    else if i == 1 then (n / 0x100) % 0x100
    else if i == 2 then (n / 0x1_0000) % 0x100
    else (n / 0x100_0000) % 0x100
  }

  /** A 16-bit value stored in host (little-endian) order. */
  function LE16(b: seq<byte>): (r: u16)
    requires |b| == 2
    // the low byte of the value is byte 0 and the high byte is byte 1
    ensures r % 0x100 == b[0] && r / 0x100 == b[1]
  {
    DivModUnique(b[0], b[1]);
    b[0] as int + 0x100 * (b[1] as int)
  }

  /** `binary.LittleEndian.Uint32`: byte 0 is the least significant. */
  function LE32(b: seq<byte>): u32
    requires |b| == 4
  {
    var b0: int, b1: int, b2: int, b3: int := b[0], b[1], b[2], b[3];
    b0 + 0x100 * (b1 + 0x100 * (b2 + 0x100 * b3))
  }

  /** `binary.LittleEndian.PutUint32`. */
  function PutLE32(n: u32): (b: seq<byte>)
    ensures |b| == 4
    ensures forall i :: 0 <= i < 4 ==> b[i] == ByteOf(n, i)
  {
    [ByteOf(n, 0), ByteOf(n, 1), ByteOf(n, 2), ByteOf(n, 3)]
  }

  /** `binary.BigEndian.PutUint32`: byte 0 is the most significant. */
  function PutBE32(n: u32): (b: seq<byte>)
    ensures |b| == 4
    ensures forall i :: 0 <= i < 4 ==> b[i] == ByteOf(n, 3 - i)
  {
    [ByteOf(n, 3), ByteOf(n, 2), ByteOf(n, 1), ByteOf(n, 0)]
  }

  /** `binary.BigEndian.Uint32`. */
  function BE32(b: seq<byte>): u32
    requires |b| == 4
  {
    LE32(Reverse4(b))
  }

  function Reverse4(b: seq<byte>): (r: seq<byte>)
    requires |b| == 4
    ensures |r| == 4 && forall i :: 0 <= i < 4 ==> r[i] == b[3 - i]
  {
    [b[3], b[2], b[1], b[0]]
  }

  /** Reading back what `PutLE32` wrote gives the original word. */
  lemma LE32OfPutLE32(n: u32)
    ensures LE32(PutLE32(n)) == n
  {
    var b := PutLE32(n);
    var q1 := n / 0x100;
    var q2 := q1 / 0x100;
    var q3 := q2 / 0x100;
    DivDiv(n, q1, q2);
    DivDiv3(n, q1, q2, q3);
    assert b[0] as int == n % 0x100 && b[1] as int == q1 % 0x100;
    assert b[2] as int == q2 % 0x100 && b[3] as int == q3;
    assert n == b[0] as int + 0x100 * q1;
    assert q1 == b[1] as int + 0x100 * q2;
    assert q2 == b[2] as int + 0x100 * q3;
  }

  /** Big-endian reading undoes big-endian packing. */
  lemma BE32OfPutBE32(n: u32)
    ensures BE32(PutBE32(n)) == n
  {
    assert Reverse4(PutBE32(n)) == PutLE32(n);
    LE32OfPutLE32(n);
  }

  /** Little-endian reading is a bijection: packing what was read gives the bytes back. */
  lemma PutLE32OfLE32(b: seq<byte>)
    requires |b| == 4
    ensures PutLE32(LE32(b)) == b
  {
    var n := LE32(b);
    var b0: int, b1: int, b2: int, b3: int := b[0], b[1], b[2], b[3];
    var q2 := b2 + 0x100 * b3;
    var q1 := b1 + 0x100 * q2;
    assert n == b0 + 0x100 * q1;
    DivModUnique(b0, q1);
    DivModUnique(b1, q2);
    DivModUnique(b2, b3);
    DivDiv(n, q1, q2);
    DivDiv3(n, q1, q2, b3);
    var r := PutLE32(n);
    assert r[0] == b0 && r[1] == q1 % 0x100 == b1;
    assert r[2] == q2 % 0x100 == b2 && r[3] == b3 % 0x100 == b3;
  }

  /** The two packings are mirror images of each other. */
  lemma PutBE32IsReversedLE(n: u32)
    ensures PutBE32(n) == Reverse4(PutLE32(n))
  {
  }

  lemma DivModUnique(a: int, q: int)
    requires 0 <= a < 0x100 && 0 <= q
    ensures (a + 0x100 * q) / 0x100 == q
    ensures (a + 0x100 * q) % 0x100 == a
  {
  }

  lemma DivDiv(n: int, q1: int, q2: int)
    requires 0 <= n && n / 0x100 == q1 && q1 / 0x100 == q2
    ensures n / 0x1_0000 == q2
  {
  }

  lemma DivDiv3(n: int, q1: int, q2: int, q3: int)
    requires 0 <= n && n / 0x100 == q1 && q1 / 0x100 == q2 && q2 / 0x100 == q3
    ensures n / 0x100_0000 == q3
  {
    DivDiv(n, q1, q2);
  }

  /** The upper 32 bits of a 64-bit word (`id >> 32`). */
  function Hi32(x: u64): (r: u32)
    ensures r * 0x1_0000_0000 <= x < (r + 1) * 0x1_0000_0000
  {
    x / 0x1_0000_0000
  }

  /** Go's `int(x)` on a 64-bit platform for a `uint64` x: values from 2^63 up wrap to negatives. */
  function Uint64ToInt(x: u64): (r: int64)
    ensures r == x || r == x - 0x1_0000_0000_0000_0000
    ensures r < 0 <==> x >= 0x8000_0000_0000_0000
  {
    if x < 0x8000_0000_0000_0000 then x else x - 0x1_0000_0000_0000_0000
  }
}
