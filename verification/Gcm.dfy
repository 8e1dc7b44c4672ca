/** AES-GCM as sections 7.1 and 7.2 of NIST SP 800-38D build it from a block cipher,
    with the 96-bit nonces, 128-bit tags and length limits of section 5.1 of RFC 5116.
    The block cipher and the GHASH multiplication chain are left uninterpreted. */
module Gcm {
  import opened Bytes

  type Block = s: seq<byte> | |s| == 16 witness seq(16, _ => 0)

  /** The two library primitives: E_K(block) and GHASH_H(blocks). */
  datatype Cipher = Cipher(
    encrypt: (seq<byte>, Block) -> Block,
    ghash: (Block, seq<byte>) -> Block)

  const NONCE_LEN := 12
  const TAG_LEN := 16
  const P_MAX := 0x10_0000_0000 - 31
  const A_MAX := 0x2000_0000_0000_0000 - 1

  function CounterBlock(nonce: seq<byte>, n: nat): Block
    requires |nonce| == NONCE_LEN
  {
    nonce + BigEndian(n, 4)
  }

  function KeyStream(c: Cipher, key: seq<byte>, nonce: seq<byte>, i: nat): byte
    requires |nonce| == NONCE_LEN
  {
    c.encrypt(key, CounterBlock(nonce, 2 + i / 16))[i % 16]
  }

  function Gctr(c: Cipher, key: seq<byte>, nonce: seq<byte>, x: seq<byte>): (y: seq<byte>)
    requires |nonce| == NONCE_LEN
    ensures |y| == |x|
  {
    seq(|x|, i requires 0 <= i < |x| => Xor(x[i], KeyStream(c, key, nonce, i)))
  }

  lemma GctrInvolution(c: Cipher, key: seq<byte>, nonce: seq<byte>, x: seq<byte>)
    requires |nonce| == NONCE_LEN
    ensures Gctr(c, key, nonce, Gctr(c, key, nonce, x)) == x
  {
    forall i | 0 <= i < |x|
      ensures Gctr(c, key, nonce, Gctr(c, key, nonce, x))[i] == x[i]
    {
      XorInvolution(x[i], KeyStream(c, key, nonce, i));
    }
  }

  function ZeroPad(s: seq<byte>): seq<byte> {
    s + seq((16 - |s| % 16) % 16, _ => 0)
  }

  function XorBlocks(a: Block, b: Block): Block {
    seq(16, i requires 0 <= i < 16 => Xor(a[i], b[i]))
  }

  /** What GHASH is applied to: AAD and ciphertext, each padded to whole blocks, and their bit lengths. */
  function TagInput(aad: seq<byte>, ct: seq<byte>): seq<byte> {
    ZeroPad(aad) + ZeroPad(ct) + (BigEndian(8 * |aad|, 8) + BigEndian(8 * |ct|, 8))
  }

  function Tag(c: Cipher, key: seq<byte>, nonce: seq<byte>, aad: seq<byte>, ct: seq<byte>): Block
    requires |nonce| == NONCE_LEN
  {
    var h := c.encrypt(key, seq(16, _ => 0));
    XorBlocks(c.ghash(h, TagInput(aad, ct)), c.encrypt(key, CounterBlock(nonce, 1)))
  }

  /** Authenticated encryption: ciphertext then tag, or nothing over the length limits. */
  function Seal(c: Cipher, key: seq<byte>, nonce: seq<byte>, aad: seq<byte>, pt: seq<byte>): Option<seq<byte>>
    requires |nonce| == NONCE_LEN
  {
    if |pt| > P_MAX || |aad| > A_MAX then None
    else
      var ct := Gctr(c, key, nonce, pt);
      Some(ct + Tag(c, key, nonce, aad, ct))
  }

  /** Authenticated decryption: the plaintext, or FAIL. */
  function Open(c: Cipher, key: seq<byte>, nonce: seq<byte>, aad: seq<byte>, body: seq<byte>): Option<seq<byte>>
    requires |nonce| == NONCE_LEN && |body| >= TAG_LEN
  {
    var n := |body| - TAG_LEN;
    if n > P_MAX || |aad| > A_MAX || body[n..] != Tag(c, key, nonce, aad, body[..n]) then None
    else Some(Gctr(c, key, nonce, body[..n]))
  }

  /** Opening what was sealed gives the plaintext back, and only sealed bodies open:
      for one key, nonce and AAD the two functions are inverse partial bijections. */
  lemma SealOpenInverse(c: Cipher, key: seq<byte>, nonce: seq<byte>, aad: seq<byte>, pt: seq<byte>, body: seq<byte>)
    requires |nonce| == NONCE_LEN && |body| >= TAG_LEN
    ensures Seal(c, key, nonce, aad, pt) == Some(body) <==> Open(c, key, nonce, aad, body) == Some(pt)
  {
    var n := |body| - TAG_LEN;
    GctrInvolution(c, key, nonce, pt);
    GctrInvolution(c, key, nonce, body[..n]);
    assert body == body[..n] + body[n..];
    if Seal(c, key, nonce, aad, pt) == Some(body) {
      var ct := Gctr(c, key, nonce, pt);
      assert body[..n] == ct && body[n..] == Tag(c, key, nonce, aad, ct);
    }
  }

  // ---- what the tag depends on ----

  lemma SameSuffix(a: seq<byte>, b: seq<byte>, a': seq<byte>, b': seq<byte>)
    requires a + b == a' + b' && (|b| == |b'| || |a| == |a'|)
    ensures a == a' && b == b'
  {
    assert a == (a + b)[..|a|] && a' == (a' + b')[..|a'|];
    assert b == (a + b)[|a|..] && b' == (a' + b')[|a'|..];
  }

  function PaddedLength(n: nat): nat { n + (16 - n % 16) % 16 }

  lemma PadInjective(s: seq<byte>, s': seq<byte>)
    ensures |ZeroPad(s)| == PaddedLength(|s|)
    ensures |s| == |s'| && ZeroPad(s) == ZeroPad(s') ==> s == s'
  {
    assert ZeroPad(s)[..|s|] == s;
    if |s| == |s'| && ZeroPad(s) == ZeroPad(s') {
      assert ZeroPad(s')[..|s'|] == s';
    }
  }

  lemma LengthsInjective(n: nat, m: nat, n': nat, m': nat)
    requires 8 * n < WRAP && 8 * m < WRAP && 8 * n' < WRAP && 8 * m' < WRAP
    requires BigEndian(8 * n, 8) + BigEndian(8 * m, 8) == BigEndian(8 * n', 8) + BigEndian(8 * m', 8)
    ensures n == n' && m == m'
  {
    SameSuffix(BigEndian(8 * n, 8), BigEndian(8 * m, 8), BigEndian(8 * n', 8), BigEndian(8 * m', 8));
    Pow256Of8();
    BigEndianInjective(8 * n, 8 * n', 8);
    BigEndianInjective(8 * m, 8 * m', 8);
  }

  /** What is handed to GHASH determines both the AAD and the ciphertext. */
  lemma TagInputInjective(aad: seq<byte>, ct: seq<byte>, aad': seq<byte>, ct': seq<byte>)
    requires |aad| <= A_MAX && |aad'| <= A_MAX && |ct| <= P_MAX && |ct'| <= P_MAX
    ensures TagInput(aad, ct) == TagInput(aad', ct') <==> aad == aad' && ct == ct'
  {
    if TagInput(aad, ct) == TagInput(aad', ct') {
      var l, l' := BigEndian(8 * |aad|, 8) + BigEndian(8 * |ct|, 8), BigEndian(8 * |aad'|, 8) + BigEndian(8 * |ct'|, 8);
      SameSuffix(ZeroPad(aad) + ZeroPad(ct), l, ZeroPad(aad') + ZeroPad(ct'), l');
      LengthsInjective(|aad|, |ct|, |aad'|, |ct'|);
      PadInjective(aad, aad');
      PadInjective(aad', aad);
      SameSuffix(ZeroPad(aad), ZeroPad(ct), ZeroPad(aad'), ZeroPad(ct'));
      PadInjective(ct, ct');
    }
  }

  lemma MaskCancels(a: Block, b: Block, mask: Block)
    ensures XorBlocks(a, mask) == XorBlocks(b, mask) <==> a == b
  {
    if XorBlocks(a, mask) == XorBlocks(b, mask) {
      forall i | 0 <= i < 16 ensures a[i] == b[i] {
        assert XorBlocks(a, mask)[i] == XorBlocks(b, mask)[i];
        XorCancels(a[i], b[i], mask[i]);
      }
    }
  }

  function HashOf(c: Cipher, key: seq<byte>, aad: seq<byte>, ct: seq<byte>): Block {
    c.ghash(c.encrypt(key, seq(16, _ => 0)), TagInput(aad, ct))
  }

  /** Two tags under one key and nonce agree exactly when GHASH gives the same for both; so with another
      AAD or another ciphertext, only if GHASH collides on two different inputs. */
  lemma TagsAgree(c: Cipher, key: seq<byte>, nonce: seq<byte>, aad: seq<byte>, ct: seq<byte>,
                  aad': seq<byte>, ct': seq<byte>)
    requires |nonce| == NONCE_LEN
    requires |aad| <= A_MAX && |aad'| <= A_MAX && |ct| <= P_MAX && |ct'| <= P_MAX
    ensures Tag(c, key, nonce, aad, ct) == Tag(c, key, nonce, aad', ct')
            <==> HashOf(c, key, aad, ct) == HashOf(c, key, aad', ct')
    ensures aad != aad' || ct != ct' ==> TagInput(aad, ct) != TagInput(aad', ct')
  {
    TagInputInjective(aad, ct, aad', ct');
    MaskCancels(HashOf(c, key, aad, ct), HashOf(c, key, aad', ct'), c.encrypt(key, CounterBlock(nonce, 1)));
  }

  // ---- counter blocks ----

  /** Counter blocks are distinct for distinct nonces, and for distinct counters of one nonce modulo 2^32. */
  lemma CounterBlocksDistinct(nonce: seq<byte>, n: nat, nonce': seq<byte>, m: nat)
    requires |nonce| == NONCE_LEN && |nonce'| == NONCE_LEN
    ensures CounterBlock(nonce, n) == CounterBlock(nonce', m)
            <==> nonce == nonce' && n % 0x1_0000_0000 == m % 0x1_0000_0000
  {
    var x, y := CounterBlock(nonce, n), CounterBlock(nonce', m);
    assert x[..12] == nonce && y[..12] == nonce' && x[12..] == BigEndian(n, 4) && y[12..] == BigEndian(m, 4);
    Pow256Of4();
    BigEndianWraps(n, 4);
    BigEndianWraps(m, 4);
    BigEndianInjective(n % 0x1_0000_0000, m % 0x1_0000_0000, 4);
  }

  /** Within the length limit the block that masks the tag and the blocks of the keystream are pairwise
      distinct: no two bytes of a message, nor a byte and the tag, share a place in the cipher's output. */
  lemma KeyStreamBlocksDistinct(nonce: seq<byte>, i: nat, j: nat)
    requires |nonce| == NONCE_LEN && i < P_MAX && j < P_MAX
    ensures CounterBlock(nonce, 2 + i / 16) != CounterBlock(nonce, 1)
    ensures CounterBlock(nonce, 2 + i / 16) == CounterBlock(nonce, 2 + j / 16) <==> i / 16 == j / 16
    ensures i != j ==> CounterBlock(nonce, 2 + i / 16) != CounterBlock(nonce, 2 + j / 16) || i % 16 != j % 16
  {
    CountersDistinct(nonce, i / 16, j / 16);
  }

  lemma Wrapped(n: nat)
    requires n <= 0x1_0000_0000
    ensures n % 0x1_0000_0000 == if n == 0x1_0000_0000 then 0 else n
  {
  }

  lemma CountersDistinct(nonce: seq<byte>, a: nat, b: nat)
    requires |nonce| == NONCE_LEN && a <= 0xFFFF_FFFE && b <= 0xFFFF_FFFE
    ensures CounterBlock(nonce, 2 + a) != CounterBlock(nonce, 1)
    ensures CounterBlock(nonce, 2 + a) == CounterBlock(nonce, 2 + b) <==> a == b
  {
    var n, m := 2 + a, 2 + b;
    Wrapped(n);
    Wrapped(m);
    Wrapped(1);
    CounterBlocksDistinct(nonce, n, nonce, 1);
    CounterBlocksDistinct(nonce, n, nonce, m);
  }

  /** A sealed message, byte by byte: the plaintext under the keystream of the counters from 2 on, then the
      hash under the block of counter 1. */
  lemma SealedBytes(c: Cipher, key: seq<byte>, nonce: seq<byte>, aad: seq<byte>, pt: seq<byte>, i: nat)
    requires |nonce| == NONCE_LEN && Seal(c, key, nonce, aad, pt).Some?
    ensures var s, n := Seal(c, key, nonce, aad, pt).value, 2 + i / 16;
      var counter := [n / 0x100_0000 % 0x100, n / 0x1_0000 % 0x100, n / 0x100 % 0x100, n % 0x100];
      && |s| == |pt| + 16
      && (i < |pt| ==> s[i] == Xor(pt[i], c.encrypt(key, nonce + counter)[i % 16]))
      && var hash := c.ghash(c.encrypt(key, seq(16, _ => 0)), TagInput(aad, s[..|pt|]));
         (i < 16 ==> s[|pt| + i] == Xor(hash[i], c.encrypt(key, nonce + [0, 0, 0, 1])[i]))
  {
    var s := Seal(c, key, nonce, aad, pt).value;
    FourBytes(2 + i / 16);
    FourBytes(1);
    assert s[..|pt|] == Gctr(c, key, nonce, pt);
  }
}
