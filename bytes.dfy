/** Bytes and 32-bit words of the x86 target: pointers, `size_t` and `DWORD`
    are all four bytes wide and stored little-endian. */
module Bytes {

  type byte = b: int | 0 <= b < 0x100
  type u32 = w: int | 0 <= w < 0x1_0000_0000

  const PointerSize: nat := 4
  const Modulus32: int := 0x1_0000_0000

  /** Pointer and DWORD addition, wrapping modulo 2^32. */
  function Add32(a: int, b: int): (r: u32)
    ensures (r - (a + b)) % Modulus32 == 0
  {
    (a + b) % Modulus32
  }

  /** Pointer and DWORD subtraction, wrapping modulo 2^32. */
  function Sub32(a: int, b: int): (r: u32)
    ensures (r - (a - b)) % Modulus32 == 0
  {
    (a - b) % Modulus32
  }

  /** The value of a 32-bit word read as a two's-complement signed integer. */
  function Signed32(w: u32): (r: int)
    ensures -0x8000_0000 <= r < 0x8000_0000
    ensures r % Modulus32 == w
  {
    if w < 0x8000_0000 then w else w - Modulus32
  }

  /** Sign-extension of a byte used as a signed 8-bit displacement. */
  function Signed8(b: byte): (r: int)
    ensures -0x80 <= r < 0x80
    ensures r % 0x100 == b
  {
    if b < 0x80 then b else b - 0x100
  }

  /** Little-endian encoding of a 32-bit word. */
  function LE32(w: u32): (s: seq<byte>)
    ensures |s| == 4
  {
    [w % 0x100, (w / 0x100) % 0x100, (w / 0x1_0000) % 0x100, w / 0x100_0000]
  }

  /** The 32-bit word stored little-endian in four bytes. */
  function FromLE32(s: seq<byte>): (w: u32)
    requires |s| == 4
  {
    s[0] as int + 0x100 * s[1] as int + 0x1_0000 * s[2] as int + 0x100_0000 * s[3] as int
  }

  lemma DecodeEncode(w: u32)
    ensures FromLE32(LE32(w)) == w
  {
    var q1, q2, q3 := w / 0x100, w / 0x1_0000, w / 0x100_0000;
    assert w == w % 0x100 + 0x100 * q1;
    assert q1 == q1 % 0x100 + 0x100 * q2;
    assert q2 == q2 % 0x100 + 0x100 * q3;
    assert (w / 0x100) % 0x100 == q1 % 0x100 && (w / 0x1_0000) % 0x100 == q2 % 0x100;
  }

  lemma EncodeDecode(s: seq<byte>)
    requires |s| == 4
    ensures LE32(FromLE32(s)) == s
  {
    var w := FromLE32(s);
    var b0, b1, b2, b3 := s[0] as int, s[1] as int, s[2] as int, s[3] as int;
    DivideExactly(w, b1 + 0x100 * b2 + 0x1_0000 * b3, b0, 0x100);
    DivideExactly(w, b2 + 0x100 * b3, b0 + 0x100 * b1, 0x1_0000);
    DivideExactly(w, b3, b0 + 0x100 * b1 + 0x1_0000 * b2, 0x100_0000);
    DivideExactly(b1 + 0x100 * b2 + 0x1_0000 * b3, b2 + 0x100 * b3, b1, 0x100);
    DivideExactly(b2 + 0x100 * b3, b3, b2, 0x100);
  }

  /** Euclidean division is determined by quotient and remainder. */
  lemma DivideExactly(x: int, q: int, r: int, m: int)
    requires m > 0 && 0 <= r < m && x == q * m + r
    ensures x / m == q && x % m == r
  {
    var q', r' := x / m, x % m;
    var d := q' - q;
    assert d * m == r - r' by {
      assert q' * m - q * m == d * m;
    }
    MultipleBound(d, m);
  }

  /** A nonzero multiple of `m` is at least `m` away from 0. */
  lemma MultipleBound(d: int, m: int)
    requires m > 0
    ensures d >= 1 ==> d * m >= m
    ensures d <= -1 ==> d * m <= -m
  {
    if d >= 1 {
      assert d * m == (d - 1) * m + m;
      assert (d - 1) * m >= 0;
    } else if d <= -1 {
      assert d * m == (d + 1) * m - m;
      assert (d + 1) * m <= 0;
    }
  }

  /** Two words are equal exactly when their encodings are. */
  lemma LE32Injective(a: u32, b: u32)
    ensures LE32(a) == LE32(b) <==> a == b
  {
    if LE32(a) == LE32(b) {
      DecodeEncode(a);
      DecodeEncode(b);
    }
  }

  /** Stepping `k` bytes forward and measuring back gives `k`. */
  lemma AddSub32(a: u32, k: u32)
    ensures Sub32(Add32(a, k), a) == k
    ensures Sub32(Add32(a, k), k) == a
  {
  }

  /** Two forward steps make one. */
  lemma AddAdd32(a: int, j: int, k: int)
    ensures Add32(Add32(a, j), k) == Add32(a, j + k)
  {
  }

  /** A displacement `target - from - n`, taken from `from + n`, lands on
      `target`. */
  lemma RelativeTarget(from: u32, n: int, target: u32)
    ensures Add32(Add32(from, n), Sub32(Sub32(target, from), n)) == target
  {
    var k1 := (from + n) / 0x1_0000_0000;
    var s := Sub32(target, from);
    var k2 := (target - from) / 0x1_0000_0000;
    var k3 := (s - n) / 0x1_0000_0000;
    assert Add32(from, n) == from + n - k1 * 0x1_0000_0000;
    assert s == target - from - k2 * 0x1_0000_0000;
    assert Sub32(s, n) == s - n - k3 * 0x1_0000_0000;
    WrapMultiple(target, -(k1 + k2 + k3));
  }

  /** Adding a whole number of 2^32 wraps back to the same word. */
  lemma WrapMultiple(w: u32, c: int)
    ensures (w + c * 0x1_0000_0000) % Modulus32 == w
  {
  }
}
