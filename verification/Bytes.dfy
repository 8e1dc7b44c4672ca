/** Machine integers, outcomes and big-endian numerals shared by the whole model. */
module Bytes {

  type byte = x: int | 0 <= x < 0x100
  type u32 = x: int | 0 <= x < 0x1_0000_0000
  type u64 = x: int | 0 <= x < WRAP

  /** Unsigned 64-bit arithmetic is modulo this. */
  const WRAP := 0x1_0000_0000_0000_0000

  datatype Option<+T> = None | Some(value: T)

  datatype Result<+T, +E> = Ok(value: T) | Err(error: E)

  // ---- exclusive or, bit by bit ----

  function Pow2(n: nat): (p: nat)
    ensures p > 0
  {
    if n == 0 then 1 else 2 * Pow2(n - 1)
  }

  function XorBits(n: nat, a: nat, b: nat): (r: nat)
    ensures r < Pow2(n)
  {
    if n == 0 then 0 else (if a % 2 == b % 2 then 0 else 1) + 2 * XorBits(n - 1, a / 2, b / 2)
  }

  lemma {:induction false} XorBitsInvolution(n: nat, a: nat, b: nat)
    requires a < Pow2(n)
    ensures XorBits(n, XorBits(n, a, b), b) == a
  {
    if n > 0 {
      XorBitsInvolution(n - 1, a / 2, b / 2);
      var r := XorBits(n, a, b);
      assert r / 2 == XorBits(n - 1, a / 2, b / 2);
      assert r % 2 == if a % 2 == b % 2 then 0 else 1;
    }
  }

  lemma Pow2Of8()
    ensures Pow2(8) == 0x100
  {
    assert Pow2(4) == 16;
    assert Pow2(6) == 64;
  }

  function Xor(a: byte, b: byte): byte {
    Pow2Of8();
    XorBits(8, a, b)
  }

  lemma XorInvolution(a: byte, b: byte)
    ensures Xor(Xor(a, b), b) == a
  {
    Pow2Of8();
    XorBitsInvolution(8, a, b);
  }

  lemma {:induction false} XorBitsExact(n: nat, a: nat, b: nat, k: nat)
    requires k < n
    ensures XorBits(n, a, b) / Pow2(k) % 2 == if a / Pow2(k) % 2 == b / Pow2(k) % 2 then 0 else 1
  {
    var r := XorBits(n, a, b);
    assert r / 2 == XorBits(n - 1, a / 2, b / 2) && r % 2 == if a % 2 == b % 2 then 0 else 1;
    if k > 0 {
      XorBitsExact(n - 1, a / 2, b / 2, k - 1);
      DivTwice(a, Pow2(k - 1));
      DivTwice(b, Pow2(k - 1));
      DivTwice(r, Pow2(k - 1));
    }
  }

  lemma DivTwice(x: nat, m: nat)
    requires m > 0
    ensures x / (2 * m) == x / 2 / m
  {
    var q, r := x / 2 / m, x / 2 % m;
    assert x / 2 == m * q + r;
    assert x == 2 * (m * q + r) + x % 2 == (2 * m) * q + (2 * r + x % 2);
    QuotientIs(x, 2 * m, q, 2 * r + x % 2);
  }

  lemma QuotientIs(x: nat, m: nat, q: nat, r: nat)
    requires m > 0 && x == m * q + r && r < m
    ensures x / m == q
  {
    var d := x / m - q;
    assert x == m * (x / m) + x % m;
    assert m * d == r - x % m;
  }

  /** Exclusive or, bit by bit: a bit is set exactly where the two bytes differ. */
  lemma XorExact(a: byte, b: byte, k: nat)
    requires k < 8
    ensures Xor(a, b) / Pow2(k) % 2 == if a / Pow2(k) % 2 == b / Pow2(k) % 2 then 0 else 1
  {
    XorBitsExact(8, a, b, k);
  }

  /** A byte masked with one value determines the byte. */
  lemma XorCancels(a: byte, b: byte, m: byte)
    ensures Xor(a, m) == Xor(b, m) <==> a == b
  {
    XorInvolution(a, m);
    XorInvolution(b, m);
  }

  // ---- big-endian numerals of a fixed width ----

  function Pow256(w: nat): (p: nat)
    ensures p > 0
  {
    if w == 0 then 1 else 0x100 * Pow256(w - 1)
  }

  function BigEndian(n: nat, w: nat): (s: seq<byte>)
    ensures |s| == w
  {
    if w == 0 then [] else BigEndian(n / 0x100, w - 1) + [n % 0x100]
  }

  function FromBigEndian(s: seq<byte>): (n: nat)
    ensures n < Pow256(|s|)
  {
    if s == [] then 0 else 0x100 * FromBigEndian(s[..|s| - 1]) + s[|s| - 1]
  }

  lemma {:induction false} BigEndianRoundTrip(n: nat, w: nat)
    requires n < Pow256(w)
    ensures FromBigEndian(BigEndian(n, w)) == n
  {
    if w > 0 {
      BigEndianRoundTrip(n / 0x100, w - 1);
      var s := BigEndian(n, w);
      assert s[..|s| - 1] == BigEndian(n / 0x100, w - 1);
    }
  }

  lemma {:induction false} FromBigEndianRoundTrip(s: seq<byte>)
    ensures BigEndian(FromBigEndian(s), |s|) == s
  {
    if s != [] {
      FromBigEndianRoundTrip(s[..|s| - 1]);
      assert s == s[..|s| - 1] + [s[|s| - 1]];
    }
  }

  lemma BigEndianInjective(n: nat, m: nat, w: nat)
    requires n < Pow256(w) && m < Pow256(w)
    ensures BigEndian(n, w) == BigEndian(m, w) <==> n == m
  {
    BigEndianRoundTrip(n, w);
    BigEndianRoundTrip(m, w);
  }

  lemma LowDigits(n: nat, m: nat)
    requires m > 0
    ensures n % (0x100 * m) / 0x100 == n / 0x100 % m && n % (0x100 * m) % 0x100 == n % 0x100
  {
    var q, r := n / 0x100 / m, n / 0x100 % m;
    assert n / 0x100 == m * q + r;
    var low := 0x100 * r + n % 0x100;
    assert n == 0x100 * (m * q + r) + n % 0x100 == (0x100 * m) * q + low;
    assert r <= m - 1 && low < 0x100 * m;
    QuotientIs(n, 0x100 * m, q, low);
    assert n % (0x100 * m) == low;
  }

  /** A numeral of `w` bytes is that of the number modulo 256 to the `w`. */
  lemma {:induction false} BigEndianWraps(n: nat, w: nat)
    ensures BigEndian(n, w) == BigEndian(n % Pow256(w), w)
  {
    if w > 0 {
      LowDigits(n, Pow256(w - 1));
      BigEndianWraps(n / 0x100, w - 1);
    }
  }

  lemma Pow256Of4()
    ensures Pow256(4) == 0x1_0000_0000
  {
    assert Pow256(2) == 0x1_0000;
  }

  lemma Pow256Of8()
    ensures Pow256(8) == WRAP
  {
    Pow256Of4();
    assert Pow256(6) == 0x1_0000_0000_0000;
  }

  /** The 32-bit number whose bytes these are, the first being worth most. */
  function Word(a: int, b: int, c: int, d: int): int {
    0x100_0000 * a + 0x1_0000 * b + 0x100 * c + d
  }

  /** Four bytes, most significant first, whatever is beyond 32 bits being dropped. */
  lemma FourBytes(n: nat)
    ensures BigEndian(n, 4) == [n / 0x100_0000 % 0x100, n / 0x1_0000 % 0x100, n / 0x100 % 0x100, n % 0x100]
  {
    assert n / 0x100 / 0x100 == n / 0x1_0000 && n / 0x100 / 0x100 / 0x100 == n / 0x100_0000;
    assert BigEndian(n, 4) == BigEndian(n / 0x100, 3) + [n % 0x100];
    assert BigEndian(n / 0x100, 3) == BigEndian(n / 0x1_0000, 2) + [n / 0x100 % 0x100];
    assert BigEndian(n / 0x1_0000, 2) == BigEndian(n / 0x100_0000, 1) + [n / 0x1_0000 % 0x100];
    assert BigEndian(n / 0x100_0000, 1) == [] + [n / 0x100_0000 % 0x100];
  }

  lemma WordOfBytes(n: u32)
    ensures var s := BigEndian(n, 4); Word(s[0], s[1], s[2], s[3]) == n
  {
    FourBytes(n);
    var a, b, c := n / 0x100_0000, n / 0x1_0000, n / 0x100;
    assert b == 0x100 * a + b % 0x100 && c == 0x100 * b + c % 0x100 && n == 0x100 * c + n % 0x100;
  }
}
