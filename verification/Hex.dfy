/** Hexadecimal key entry, as section 8 of RFC 4648 defines it: printed in lower case by the UI,
    read in either case by the agent. */
module Hex {
  import opened Bytes

  type nibble = x: int | 0 <= x < 16

  function DigitOf(v: nibble): char {
    if v < 10 then '0' + v as char else 'a' + (v - 10) as char
  }

  function ValueOf(ch: char): Option<nibble> {
    if '0' <= ch <= '9' then Some(ch as int - 48)
    else if 'a' <= ch <= 'f' then Some(ch as int - 97 + 10)
    else if 'A' <= ch <= 'F' then Some(ch as int - 65 + 10)
    else None
  }

  lemma Digits(v: nibble)
    ensures ValueOf(DigitOf(v)) == Some(v)
  {
  }

  function Pair(hi: nibble, lo: nibble): byte {
    var v: int := hi;
    16 * v + lo
  }

  function Encode(b: seq<byte>): (s: string)
    ensures |s| == 2 * |b|
  {
    if b == [] then [] else [DigitOf(b[0] / 16), DigitOf(b[0] % 16)] + Encode(b[1..])
  }

  function Decode(s: string): Option<seq<byte>>
    decreases |s|
  {
    if s == [] then Some([])
    else if |s| == 1 then None
    else
      match (ValueOf(s[0]), ValueOf(s[1]), Decode(s[2..]))
      case (Some(hi), Some(lo), Some(rest)) => Some([Pair(hi, lo)] + rest)
      case _ => None
  }

  lemma {:induction false} DecodeEncode(b: seq<byte>)
    ensures Decode(Encode(b)) == Some(b)
  {
    if b != [] {
      DecodeEncode(b[1..]);
      Digits(b[0] / 16);
      Digits(b[0] % 16);
      assert Encode(b)[2..] == Encode(b[1..]);
      assert b == [b[0]] + b[1..];
    }
  }

  predicate AllHex(s: string) {
    forall i :: 0 <= i < |s| ==> ValueOf(s[i]).Some?
  }

  /** Exactly the even-length strings of hexadecimal digits decode, to half their length. */
  lemma {:induction false} DecodableExact(s: string)
    ensures Decode(s).Some? <==> AllHex(s) && |s| % 2 == 0
    ensures Decode(s).Some? ==> 2 * |Decode(s).value| == |s|
    decreases |s|
  {
    if |s| >= 2 {
      DecodableExact(s[2..]);
      assert AllHex(s) <==> ValueOf(s[0]).Some? && ValueOf(s[1]).Some? && AllHex(s[2..]) by {
        if AllHex(s) {
          forall i | 0 <= i < |s[2..]| ensures ValueOf(s[2..][i]).Some? { assert s[2..][i] == s[i + 2]; }
        }
        if AllHex(s[2..]) {
          forall i | 2 <= i < |s| ensures ValueOf(s[i]).Some? { assert s[i] == s[2..][i - 2]; }
        }
      }
    }
  }

  // ---- what the digits mean ----

  /** The sixteen digits in order. */
  const DIGITS: string := ['0', '1', '2', '3', '4', '5', '6', '7', '8', '9', 'a', 'b', 'c', 'd', 'e', 'f']

  /** ASCII lower case, defined on characters alone. */
  function Lower(ch: char): char {
    if 'A' <= ch <= 'Z' then ch + 32 as char else ch
  }

  function LowerAll(s: string): (t: string)
    ensures |t| == |s| && forall i :: 0 <= i < |s| ==> t[i] == Lower(s[i])
  {
    if s == [] then [] else [Lower(s[0])] + LowerAll(s[1..])
  }

  /** A character is read as `v` exactly when, in lower case, it is the digit at position `v`. */
  lemma DigitExact(ch: char, v: nibble)
    ensures ValueOf(ch) == Some(v) <==> Lower(ch) == DIGITS[v]
    ensures DigitOf(v) == DIGITS[v]
  {
  }

  lemma PairExact(hi: nibble, lo: nibble, b: byte)
    ensures Pair(hi, lo) == b <==> hi == b / 16 && lo == b % 16
  {
  }

  /** Any string decodes to `b` exactly when, put in lower case, it is what `b` is printed as. */
  lemma {:induction false} DecodeExact(s: string, b: seq<byte>)
    ensures Decode(s) == Some(b) <==> LowerAll(s) == Encode(b)
    decreases |s|
  {
    if |s| >= 2 && b != [] {
      DecodeExact(s[2..], b[1..]);
      var t := LowerAll(s);
      assert t[2..] == LowerAll(s[2..]) by {
        assert forall i :: 0 <= i < |s| - 2 ==> s[2..][i] == s[i + 2];
      }
      assert t == [t[0], t[1]] + t[2..];
      assert b == [b[0]] + b[1..];
      FirstPair(s, b);
      assert Encode(b) == [DigitOf(b[0] / 16), DigitOf(b[0] % 16)] + Encode(b[1..]);
      assert Encode(b)[2..] == Encode(b[1..]);
    }
  }

  lemma FirstPair(s: string, b: seq<byte>)
    requires |s| >= 2 && b != []
    ensures (ValueOf(s[0]).Some? && ValueOf(s[1]).Some? && Pair(ValueOf(s[0]).value, ValueOf(s[1]).value) == b[0])
            <==> Lower(s[0]) == DigitOf(b[0] / 16) && Lower(s[1]) == DigitOf(b[0] % 16)
  {
    DigitExact(s[0], b[0] / 16);
    DigitExact(s[1], b[0] % 16);
    if ValueOf(s[0]).Some? && ValueOf(s[1]).Some? {
      PairExact(ValueOf(s[0]).value, ValueOf(s[1]).value, b[0]);
    }
  }

  /** The two digits of the `i`-th byte, the more significant one first. */
  lemma {:induction false} EncodeAt(b: seq<byte>, i: nat)
    requires i < |b|
    ensures Encode(b)[2 * i] == DIGITS[b[i] / 16] && Encode(b)[2 * i + 1] == DIGITS[b[i] % 16]
  {
    if i > 0 {
      EncodeAt(b[1..], i - 1);
    } else {
      DigitExact(Encode(b)[0], b[0] / 16);
      DigitExact(Encode(b)[1], b[0] % 16);
    }
  }

  /** Typed text, as the bytes it stands for: each from two digits, whatever their case. */
  lemma DecodedAt(s: string, b: seq<byte>, i: nat)
    requires Decode(s) == Some(b) && i < |b|
    ensures |s| == 2 * |b| && Lower(s[2 * i]) == DIGITS[b[i] / 16] && Lower(s[2 * i + 1]) == DIGITS[b[i] % 16]
  {
    DecodeExact(s, b);
    EncodeAt(b, i);
    var t := LowerAll(s);
    assert t[2 * i] == Lower(s[2 * i]) && t[2 * i + 1] == Lower(s[2 * i + 1]);
  }
}
