/** Writes into caller-supplied byte buffers, and what they leave untouched. */
module Buffers {
  import opened Bytes
  import opened Gcm

  /** `buf` with the bytes from `lo` on replaced by `src`. */
  function Splice(buf: seq<byte>, lo: nat, src: seq<byte>): (r: seq<byte>)
    requires lo + |src| <= |buf|
    ensures |r| == |buf|
  {
    buf[..lo] + src + buf[lo + |src|..]
  }

  /** `after` is `before` with exactly the `n` bytes of `produced` written from `lo` on. */
  ghost predicate Delivered(before: seq<byte>, after: seq<byte>, lo: nat, n: nat, produced: Option<seq<byte>>) {
    && produced.Some?
    && |produced.value| == n
    && lo + n <= |before|
    && after == Splice(before, lo, produced.value)
  }

  lemma DeliveredPrefix(before: seq<byte>, after: seq<byte>, n: nat, produced: Option<seq<byte>>)
    requires Delivered(before, after, 0, n, produced)
    ensures |after| == |before| && n <= |after| && after[..n] == produced.value
  {
  }

  lemma SpliceTwice(buf: seq<byte>, lo: nat, a: seq<byte>, b: seq<byte>)
    requires lo + |a| + |b| <= |buf|
    ensures Splice(Splice(buf, lo, a), lo + |a|, b) == Splice(buf, lo, a + b)
  {
  }

  lemma SpliceOver(buf: seq<byte>, lo: nat, a: seq<byte>, b: seq<byte>)
    requires |a| <= |b| && lo + |b| <= |buf|
    ensures Splice(Splice(buf, lo, a), lo, b) == Splice(buf, lo, b)
  {
  }

  /** Plaintext in, ciphertext over it, tag behind it. */
  lemma SpliceSealed(buf: seq<byte>, lo: nat, pt: seq<byte>, ct: seq<byte>, tag: seq<byte>)
    requires |pt| == |ct| && lo + |ct| + |tag| <= |buf|
    ensures Splice(buf, lo, pt)[lo..lo + |pt|] == pt
    ensures Splice(Splice(Splice(buf, lo, pt), lo, ct), lo + |pt|, tag) == Splice(buf, lo, ct + tag)
  {
    SpliceOver(buf, lo, pt, ct);
    SpliceTwice(buf, lo, ct, tag);
  }

  /** Rust's `out[lo..lo + src.len()].copy_from_slice(src)`. */
  method CopyFrom(out: array<byte>, lo: nat, src: seq<byte>)
    requires lo + |src| <= out.Length
    modifies out
    ensures out[..] == Splice(old(out[..]), lo, src)
  {
    var i := 0;
    while i < |src|
      invariant 0 <= i <= |src|
      invariant forall k :: 0 <= k < out.Length ==>
                  out[k] == if lo <= k < lo + i then src[k - lo] else old(out[k])
    {
      out[lo + i] := src[i];
      i := i + 1;
    }
  }

  /** The keystream of section 6.5 of NIST SP 800-38D, applied in place to `n` bytes from `lo`. */
  method GctrInPlace(c: Cipher, key: seq<byte>, nonce: seq<byte>, out: array<byte>, lo: nat, n: nat)
    requires |nonce| == NONCE_LEN
    requires lo + n <= out.Length
    modifies out
    ensures out[..] == Splice(old(out[..]), lo, Gctr(c, key, nonce, old(out[lo..lo + n])))
  {
    ghost var y := Gctr(c, key, nonce, out[lo..lo + n]);
    var i := 0;
    while i < n
      invariant 0 <= i <= n
      invariant forall k :: 0 <= k < out.Length ==>
                  out[k] == if lo <= k < lo + i then y[k - lo] else old(out[k])
    {
      out[lo + i] := Xor(out[lo + i], KeyStream(c, key, nonce, i));
      i := i + 1;
    }
  }

  /** The in-place sealing primitive of both libraries: encrypts `n` bytes where they lie
      and hands the tag back separately, refusing over-long inputs before touching them. */
  method SealDetached(c: Cipher, key: seq<byte>, nonce: seq<byte>, aad: seq<byte>, out: array<byte>, lo: nat, n: nat)
    returns (tag: Option<Block>)
    requires |nonce| == NONCE_LEN
    requires lo + n <= out.Length
    modifies out
    ensures match tag
      case None => Gcm.Seal(c, key, nonce, aad, old(out[lo..lo + n])).None? && out[..] == old(out[..])
      case Some(t) =>
        var ct := Gctr(c, key, nonce, old(out[lo..lo + n]));
        && Gcm.Seal(c, key, nonce, aad, old(out[lo..lo + n])) == Some(ct + t)
        && out[..] == Splice(old(out[..]), lo, ct)
  {
    if n > P_MAX || |aad| > A_MAX { return None; }
    GctrInPlace(c, key, nonce, out, lo, n);
    assert out[lo..lo + n] == Gctr(c, key, nonce, old(out[lo..lo + n]));
    return Some(Tag(c, key, nonce, aad, out[lo..lo + n]));
  }

  /** What both providers do once a call has passed their checks: copy the plaintext in,
      encrypt it where it lies, put the tag behind it. */
  method SealInto(c: Cipher, key: seq<byte>, nonce: seq<byte>, aad: seq<byte>, pt: seq<byte>,
                  out: array<byte>, lo: nat) returns (ok: bool)
    requires |nonce| == NONCE_LEN
    requires lo + |pt| + TAG_LEN <= out.Length
    modifies out
    ensures ok == Gcm.Seal(c, key, nonce, aad, pt).Some?
    ensures ok ==> Delivered(old(out[..]), out[..], lo, |pt| + TAG_LEN, Gcm.Seal(c, key, nonce, aad, pt))
    ensures !ok ==> out[..] == Splice(old(out[..]), lo, pt)
  {
    ghost var ct := Gctr(c, key, nonce, pt);
    CopyFrom(out, lo, pt);
    SpliceSealed(old(out[..]), lo, pt, ct, seq(16, _ => 0));
    assert out[lo..lo + |pt|] == out[..][lo..lo + |pt|];
    var tag := SealDetached(c, key, nonce, aad, out, lo, |pt|);
    if tag.None? { return false; }
    CopyFrom(out, lo + |pt|, tag.value);
    SpliceSealed(old(out[..]), lo, pt, ct, tag.value);
    return true;
  }

  /** The in-place opening primitive: the tag is checked before a byte is decrypted. */
  method OpenDetached(c: Cipher, key: seq<byte>, nonce: seq<byte>, aad: seq<byte>, out: array<byte>, n: nat,
                      tag: seq<byte>) returns (ok: bool)
    requires |nonce| == NONCE_LEN
    requires n <= out.Length && |tag| == TAG_LEN
    modifies out
    ensures ok == Gcm.Open(c, key, nonce, aad, old(out[..n]) + tag).Some?
    ensures !ok ==> out[..] == old(out[..])
    ensures ok ==> Delivered(old(out[..]), out[..], 0, n, Gcm.Open(c, key, nonce, aad, old(out[..n]) + tag))
  {
    ghost var body := out[..n] + tag;
    assert body[..n] == out[..n] == out[0..n] && body[n..] == tag;
    if n > P_MAX || |aad| > A_MAX || tag != Tag(c, key, nonce, aad, out[..n]) { return false; }
    GctrInPlace(c, key, nonce, out, 0, n);
    return true;
  }
}
