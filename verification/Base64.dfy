/** Standard Base64 with padding, as section 4 of RFC 4648 defines it: the encoder both sides use
    and the strict decoder of the server. */
module Base64 {
  import opened Bytes

  type sextet = x: int | 0 <= x < 64

  const PAD: char := '='

  function CharOf(v: sextet): char {
    if v < 26 then 'A' + v as char
    else if v < 52 then 'a' + (v - 26) as char
    else if v < 62 then '0' + (v - 52) as char
    else if v == 62 then '+'
    else '/'
  }

  function ValueOf(ch: char): Option<sextet> {
    if 'A' <= ch <= 'Z' then Some(ch as int - 65)
    else if 'a' <= ch <= 'z' then Some(ch as int - 97 + 26)
    else if '0' <= ch <= '9' then Some(ch as int - 48 + 52)
    else if ch == '+' then Some(62)
    else if ch == '/' then Some(63)
    else None
  }

  lemma Alphabet(ch: char, v: sextet)
    ensures ValueOf(ch) == Some(v) <==> ch == CharOf(v)
    ensures ValueOf(PAD) == None
  {
  }

  // ---- one group of four characters ----

  function Group3(a: byte, b: byte, c: byte): string {
    [CharOf(a / 4), CharOf(a % 4 * 16 + b / 16), CharOf(b % 16 * 4 + c / 64), CharOf(c % 64)]
  }

  function Group2(a: byte, b: byte): string {
    [CharOf(a / 4), CharOf(a % 4 * 16 + b / 16), CharOf(b % 16 * 4), PAD]
  }

  function Group1(a: byte): string {
    [CharOf(a / 4), CharOf(a % 4 * 16), PAD, PAD]
  }

  /** Eight bits from the end of one sextet and the beginning of the next. */
  function Join(x: sextet, y: sextet, keep: nat): byte
    requires keep in {4, 16, 64}
  {
    var v: int := x;
    if keep == 64 then 4 * v + y / 16 else if keep == 16 then v % 16 * 16 + y / 4 else v % 4 * 64 + y
  }

  function Ungroup(g: string): Option<seq<byte>>
    requires |g| == 4
  {
    match (ValueOf(g[0]), ValueOf(g[1]), ValueOf(g[2]), ValueOf(g[3]))
    case (Some(p), Some(q), Some(r), Some(t)) => Some([Join(p, q, 64), Join(q, r, 16), Join(r, t, 4)])
    case (Some(p), Some(q), Some(r), None) =>
      if g[3] == PAD && r % 4 == 0 then Some([Join(p, q, 64), Join(q, r, 16)]) else None
    case (Some(p), Some(q), None, None) =>
      if g[2] == PAD && g[3] == PAD && q % 16 == 0 then Some([Join(p, q, 64)]) else None
    case _ => None
  }

  lemma Joins(a: byte, b: byte, c: byte, p: sextet, q: sextet, r: sextet, t: sextet)
    ensures (p == a / 4 && q == a % 4 * 16 + b / 16 && r == b % 16 * 4 + c / 64 && t == c % 64)
       <==> (a == Join(p, q, 64) && b == Join(q, r, 16) && c == Join(r, t, 4))
  {
    if a == Join(p, q, 64) && b == Join(q, r, 16) {
      assert p == a / 4 && q == a % 4 * 16 + b / 16;
    }
  }

  lemma Ungroup3(g: string, a: byte, b: byte, c: byte)
    requires |g| == 4
    ensures Ungroup(g) == Some([a, b, c]) <==> g == Group3(a, b, c)
  {
    var s := Group3(a, b, c);
    var p, q, r, t := a / 4, a % 4 * 16 + b / 16, b % 16 * 4 + c / 64, c % 64;
    Alphabet(s[0], p); Alphabet(s[1], q); Alphabet(s[2], r); Alphabet(s[3], t);
    Joins(a, b, c, p, q, r, t);
    if Ungroup(g) == Some([a, b, c]) {
      Joins(a, b, c, ValueOf(g[0]).value, ValueOf(g[1]).value, ValueOf(g[2]).value, ValueOf(g[3]).value);
      Alphabet(g[0], p); Alphabet(g[1], q); Alphabet(g[2], r); Alphabet(g[3], t);
    }
  }

  lemma Ungroup2(g: string, a: byte, b: byte)
    requires |g| == 4
    ensures Ungroup(g) == Some([a, b]) <==> g == Group2(a, b)
  {
    var s := Group2(a, b);
    var p, q, r := a / 4, a % 4 * 16 + b / 16, b % 16 * 4;
    Alphabet(s[0], p); Alphabet(s[1], q); Alphabet(s[2], r);
    Joins(a, b, 0, p, q, r, 0);
    if Ungroup(g) == Some([a, b]) {
      Joins(a, b, 0, ValueOf(g[0]).value, ValueOf(g[1]).value, ValueOf(g[2]).value, 0);
      Alphabet(g[0], p); Alphabet(g[1], q); Alphabet(g[2], r);
    }
  }

  lemma Ungroup1(g: string, a: byte)
    requires |g| == 4
    ensures Ungroup(g) == Some([a]) <==> g == Group1(a)
  {
    var s := Group1(a);
    var p, q := a / 4, a % 4 * 16;
    Alphabet(s[0], p); Alphabet(s[1], q);
    Joins(a, 0, 0, p, q, 0, 0);
    if Ungroup(g) == Some([a]) {
      Joins(a, 0, 0, ValueOf(g[0]).value, ValueOf(g[1]).value, 0, 0);
      Alphabet(g[0], p); Alphabet(g[1], q);
    }
  }

  function GroupOf(b: seq<byte>): (g: string)
    requires 1 <= |b| <= 3
    ensures |g| == 4
  {
    if |b| == 1 then Group1(b[0]) else if |b| == 2 then Group2(b[0], b[1]) else Group3(b[0], b[1], b[2])
  }

  lemma UngroupExact(g: string, b: seq<byte>)
    requires |g| == 4 && 1 <= |b| <= 3
    ensures Ungroup(g) == Some(b) <==> g == GroupOf(b)
  {
    if |b| == 1 {
      Ungroup1(g, b[0]);
      assert b == [b[0]];
    } else if |b| == 2 {
      Ungroup2(g, b[0], b[1]);
      assert b == [b[0], b[1]];
    } else {
      Ungroup3(g, b[0], b[1], b[2]);
      assert b == [b[0], b[1], b[2]];
    }
  }

  // ---- whole strings ----

  function Encode(b: seq<byte>): (s: string)
    ensures |s| == (|b| + 2) / 3 * 4
    decreases |b|
  {
    if b == [] then []
    else var n := if |b| < 3 then |b| else 3; GroupOf(b[..n]) + Encode(b[n..])
  }

  /** Padding only at the very end, and no stray bits in the last character before it. */
  function Decode(s: string): Option<seq<byte>>
    decreases |s|
  {
    if s == [] then Some([])
    else if |s| < 4 then None
    else
      match (Ungroup(s[..4]), Decode(s[4..]))
      case (Some(first), Some(rest)) => if |first| == 3 || rest == [] then Some(first + rest) else None
      case _ => None
  }

  /** A string decodes to `b` exactly when it is the encoding of `b`: the two are inverse, and the
      decoder accepts nothing the encoder would not print. */
  lemma {:induction false} Canonical(s: string, b: seq<byte>)
    ensures Decode(s) == Some(b) <==> s == Encode(b)
    decreases |s|
  {
    if |s| >= 4 {
      assert s == s[..4] + s[4..];
      if Decode(s) == Some(b) {
        var first, rest := Ungroup(s[..4]).value, Decode(s[4..]).value;
        assert first == b[..|first|] && rest == b[|first|..];
        Canonical(s[4..], rest);
        UngroupExact(s[..4], first);
      } else if b != [] {
        var n := if |b| < 3 then |b| else 3;
        Canonical(s[4..], b[n..]);
        UngroupExact(s[..4], b[..n]);
        assert b == b[..n] + b[n..];
      }
    }
  }

  // ---- which characters, and what they stand for ----

  const UPPER: string :=
    ['A', 'B', 'C', 'D', 'E', 'F', 'G', 'H', 'I', 'J', 'K', 'L', 'M', 'N', 'O', 'P', 'Q', 'R', 'S', 'T', 'U',
     'V', 'W', 'X', 'Y', 'Z']
  const LOWER: string :=
    ['a', 'b', 'c', 'd', 'e', 'f', 'g', 'h', 'i', 'j', 'k', 'l', 'm', 'n', 'o', 'p', 'q', 'r', 's', 't', 'u',
     'v', 'w', 'x', 'y', 'z']
  const DECIMALS: string := ['0', '1', '2', '3', '4', '5', '6', '7', '8', '9']

  /** The alphabet of section 4 of RFC 4648, in order. */
  const ALPHABET: string := UPPER + LOWER + DECIMALS + ['+', '/']

  lemma UpperAt(k: nat)
    requires k < 26
    ensures UPPER[k] == 'A' + k as char
  {
  }

  lemma LowerAt(k: nat)
    requires k < 26
    ensures LOWER[k] == 'a' + k as char
  {
  }

  lemma AlphabetExact(ch: char, v: sextet)
    ensures |ALPHABET| == 64 && CharOf(v) == ALPHABET[v]
    ensures ValueOf(ch) == Some(v) <==> ch == ALPHABET[v]
  {
    Alphabet(ch, v);
    if v < 26 {
      UpperAt(v);
    } else if v < 52 {
      LowerAt(v - 26);
      assert ALPHABET[v] == LOWER[v - 26];
    } else if v < 62 {
      assert ALPHABET[v] == DECIMALS[v - 52];
    }
  }

  /** Four characters stand for the number whose base-64 digits they are, and that is the number whose
      base-256 digits are the three bytes; what is missing at the end of the bytes counts as zero bits. */
  lemma GroupExact(b: seq<byte>, p: sextet, q: sextet, r: sextet, t: sextet)
    requires 1 <= |b| <= 3
    ensures |b| == 3 ==> (Bits(p, q, r, t) == Word(0, b[0], b[1], b[2])
                          <==> GroupOf(b) == [ALPHABET[p], ALPHABET[q], ALPHABET[r], ALPHABET[t]])
    ensures |b| == 2 ==> (Bits(p, q, r, 0) == Word(0, b[0], b[1], 0)
                          <==> GroupOf(b) == [ALPHABET[p], ALPHABET[q], ALPHABET[r], '='])
    ensures |b| == 1 ==> (Bits(p, q, 0, 0) == Word(0, b[0], 0, 0)
                          <==> GroupOf(b) == [ALPHABET[p], ALPHABET[q], '=', '='])
  {
    var b1, b2 := if |b| > 1 then b[1] else 0, if |b| > 2 then b[2] else 0;
    SextetsExact(b[0], b1, b2, p, q, r, t);
    SextetsExact(b[0], b1, b2, p, q, r, 0);
    SextetsExact(b[0], b1, b2, p, q, 0, 0);
    SameChar(b[0] / 4, p);
    SameChar(b[0] % 4 * 16 + b1 / 16, q);
    SameChar(b1 % 16 * 4 + b2 / 64, r);
    SameChar(b2 % 64, t);
  }

  function Bits(p: int, q: int, r: int, t: int): int {
    0x4_0000 * p + 0x1000 * q + 0x40 * r + t
  }

  lemma SameChar(v: sextet, w: sextet)
    ensures CharOf(v) == ALPHABET[w] <==> v == w
  {
    AlphabetExact(CharOf(v), w);
    Alphabet(CharOf(v), v);
  }

  lemma SextetsExact(a: byte, b: byte, c: byte, p: sextet, q: sextet, r: sextet, t: sextet)
    ensures Bits(p, q, r, t) == Word(0, a, b, c)
            <==> p == a / 4 && q == a % 4 * 16 + b / 16 && r == b % 16 * 4 + c / 64 && t == c % 64
  {
  }

  function GroupEnd(n: nat, i: nat): nat {
    if 3 * i + 3 <= n then 3 * i + 3 else n
  }

  lemma FirstGroup(b: seq<byte>)
    requires b != []
    ensures var n := GroupEnd(|b|, 0);
      Encode(b) == GroupOf(b[..n]) + Encode(b[n..]) && |Encode(b)| >= 4 && Encode(b)[..4] == GroupOf(b[..n])
  {
    var n := GroupEnd(|b|, 0);
    assert Encode(b) == GroupOf(b[..n]) + Encode(b[n..]);
  }

  /** Three bytes in front print as one group in front. */
  lemma EncodeStep(g: seq<byte>, rest: seq<byte>)
    requires |g| == 3
    ensures Encode(g + rest) == GroupOf(g) + Encode(rest)
  {
    assert (g + rest)[..3] == g && (g + rest)[3..] == rest;
  }

  /** The two examples the repository gives. */
  lemma PrintedExample()
    ensures Encode([0xDE, 0xAD, 0xBE, 0xEF]) == ['3', 'q', '2', '+', '7', 'w', '=', '=']
  {
    var b: seq<byte> := [0xDE, 0xAD, 0xBE, 0xEF];
    FirstGroup(b);
    FirstGroup(b[3..]);
    assert b[..3] == [0xDE, 0xAD, 0xBE] && b[3..] == [0xEF] && b[3..][..1] == [0xEF] && b[3..][1..] == [];
  }

  lemma ReadExample()
    ensures Decode(['A', 'Q', 'I', 'D']) == Some([1, 2, 3])
  {
    var b: seq<byte> := [1, 2, 3];
    FirstGroup(b);
    assert b[..3] == b && b[3..] == [];
    Canonical(['A', 'Q', 'I', 'D'], b);
  }
}
