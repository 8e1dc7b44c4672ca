/** What the frame format promises: round trips, an exact account of every verdict of `open`,
    and that every byte of a frame is authenticated. */
module Frames {
  import opened Bytes
  import opened Crypto
  import opened Wire
  import Gcm
  import Providers

  /** Sealing then opening gives the plaintext back: on either backend, for any opener holding the
      same material under whatever key id, in any buffer with room for the plaintext. */
  lemma FrameRoundTrip(c: Gcm.Cipher, p: Providers.Provider, key: KeyHandle, keyId: u32, nonce: seq<byte>, flags: byte,
                       pt: seq<byte>, q: Providers.Provider, opener: KeyHandle, have: nat)
    requires SealFrame(c, p, key, keyId, nonce, flags, pt).Ok?
    requires q.algo == p.algo && opener.algo == key.algo && opener.material == key.material
    requires have >= |pt|
    ensures var frame := SealFrame(c, p, key, keyId, nonce, flags, pt).value;
      && DecodeHeader(frame) == Ok(SealHeader(p, keyId, flags))
      && frame[HEADER_LEN..HEADER_LEN + |nonce|] == nonce
      && OpenFrame(c, q, opener, frame, have) == Ok(pt)
  {
    var frame := SealFrame(c, p, key, keyId, nonce, flags, pt).value;
    SealFrameSucceeds(c, p, key, keyId, nonce, flags, pt);
    var aad := HeaderBytes(SealHeader(p, keyId, flags));
    var body := Gcm.Seal(c, key.material, nonce, aad, pt).value;
    assert frame == aad + nonce + body;
    assert frame[..HEADER_LEN] == aad && frame[12..24] == nonce && frame[24..] == body;
    assert frame[..10] == aad[..10];
    HeaderCodec(SealHeader(p, keyId, flags), frame);
    Gcm.SealOpenInverse(c, key.material, nonce, aad, pt, body);
  }

  /** Magic, version, algorithm and nonce length are what provider `p` expects, and there is room for a tag. */
  predicate Addressed(p: Providers.Provider, frame: seq<byte>) {
    && |frame| >= HEADER_LEN + 12 + 16
    && frame[0..2] == MAGIC && frame[2] == VERSION && frame[8] == p.algo.ToByte() && frame[9] == 12
  }

  /** The AEAD's own answer to the frame's header, nonce and body. */
  function AeadAnswer(c: Gcm.Cipher, key: KeyHandle, frame: seq<byte>): Option<seq<byte>>
    requires |frame| >= HEADER_LEN + 12 + 16
  {
    Gcm.Open(c, key.material, frame[12..24], frame[..12], frame[24..])
  }

  /** `open` with a well-formed key and a buffer as long as the frame: success and authentication
      failure are told apart exactly, for every byte string, and the buffer is never too small. */
  lemma OpenVerdictExact(c: Gcm.Cipher, p: Providers.Provider, key: KeyHandle, frame: seq<byte>)
    requires key.WellFormed()
    ensures var r := OpenFrame(c, p, key, frame, |frame|);
      && (r.Ok? <==> Addressed(p, frame) && key.algo == p.algo && AeadAnswer(c, key, frame).Some?)
      && (r == Err(Crypto(AuthFailed)) <==>
            Addressed(p, frame) && key.algo == p.algo && AeadAnswer(c, key, frame).None?)
      && (r.Ok? ==> r.value == AeadAnswer(c, key, frame).value && |r.value| == |frame| - 40)
      && r != Err(OutputTooSmall)
  {
    if |frame| >= HEADER_LEN {
      AlgoByteBijection(frame[8], p.algo);
    }
  }

  /** Which error `open` gives to a frame, in literal terms and in its order of checks; the provider is
      for one of the two AES algorithms and the buffer is as long as the frame. */
  lemma OpenErrorExact(c: Gcm.Cipher, p: Providers.Provider, key: KeyHandle, frame: seq<byte>)
    requires key.WellFormed() && p.algo != OzDst1105
    ensures var r := OpenFrame(c, p, key, frame, |frame|);
      if |frame| < 12 then r == Err(Truncated(|frame|))
      else if frame[0] != 0x41 || frame[1] != 0x43 then r == Err(BadMagic)
      else if frame[2] != 1 then r == Err(BadVersion(frame[2]))
      else if frame[8] !in {0x01, 0x02, 0x10} then r == Err(UnknownAlgo(frame[8]))
      else if frame[8] != p.algo.ToByte() then
        r.Err? && r.error.Crypto? && r.error.error.AlgorithmMismatch? && r.error.error.provider == p.algo
        && r.error.error.key.ToByte() == frame[8]
      else if frame[9] != 12 then r == Err(NonceLenMismatch(frame[9], 12))
      else if |frame| < 40 then r == Err(BodyTooShort)
      else if key.algo != p.algo then r == Err(Crypto(AlgorithmMismatch(p.algo, key.algo)))
      else match Gcm.Open(c, key.material, frame[12..24], frame[..12], frame[24..])
        case None => r == Err(Crypto(AuthFailed))
        case Some(pt) => r == Ok(pt)
  {
    DecodeLayout(frame);
    if |frame| >= 12 {
      AlgoByteBijection(frame[8], p.algo);
    }
  }

  /** The key id in the header is never compared with the key's own. */
  lemma KeyIdNotCompared(c: Gcm.Cipher, p: Providers.Provider, key: KeyHandle, id: u32, frame: seq<byte>, have: nat)
    ensures OpenFrame(c, p, key.(id := id), frame, have) == OpenFrame(c, p, key, frame, have)
  {
  }

  lemma ReservedDecide(frame: seq<byte>, header: seq<byte>)
    requires |frame| >= 24 && |header| == 12 && frame[..10] == header[..10] && header[10..12] == [0, 0]
    ensures frame[..12] == header <==> frame[10..12] == [0, 0]
    ensures frame == frame[..12] + frame[12..24] + frame[24..]
  {
    assert frame[..12] == frame[..10] + frame[10..12];
    assert header == header[..10] + header[10..12];
    if frame[..12] == header {
      assert frame[10..12] == frame[..12][10..12];
    }
  }

  /** An accepted frame is the seal of the plaintext it opens to, under its own twelve header bytes:
      it is byte for byte what `seal` builds unless the reserved bytes are not zero. */
  lemma OpenedFrameIsSealed(c: Gcm.Cipher, p: Providers.Provider, key: KeyHandle, frame: seq<byte>, have: nat)
    requires OpenFrame(c, p, key, frame, have).Ok?
    ensures DecodeHeader(frame).Ok? && |frame| >= 40
    ensures var h, pt := DecodeHeader(frame).value, OpenFrame(c, p, key, frame, have).value;
      && Gcm.Seal(c, key.material, frame[12..24], frame[..12], pt) == Some(frame[24..])
      && (SealFrame(c, p, key, h.keyId, frame[12..24], h.flags, pt) == Ok(frame) <==> frame[10..12] == [0, 0])
  {
    var h, pt := DecodeHeader(frame).value, OpenFrame(c, p, key, frame, have).value;
    HeaderCodec(h, frame);
    Gcm.SealOpenInverse(c, key.material, frame[12..24], frame[..12], pt, frame[24..]);
    assert h == SealHeader(p, h.keyId, h.flags);
    ReservedDecide(frame, HeaderBytes(h));
    SealFrameSucceeds(c, p, key, h.keyId, frame[12..24], h.flags, pt);
  }

  // ---- tampering ----

  /** What GHASH is applied to for a frame. */
  function HashInput(frame: seq<byte>): seq<byte>
    requires |frame| >= 40
  {
    Gcm.TagInput(frame[..12], frame[24..|frame| - 16])
  }

  function FrameHash(c: Gcm.Cipher, key: KeyHandle, frame: seq<byte>): Gcm.Block
    requires |frame| >= 40
  {
    Gcm.HashOf(c, key.material, frame[..12], frame[24..|frame| - 16])
  }

  function TagOf(frame: seq<byte>): seq<byte>
    requires |frame| >= 40
  {
    frame[|frame| - 16..]
  }

  lemma FrameParts(frame: seq<byte>, other: seq<byte>)
    requires |frame| >= 40 && |other| >= 40
    ensures frame == other <==>
      frame[12..24] == other[12..24] && frame[..12] == other[..12]
      && frame[24..|frame| - 16] == other[24..|other| - 16] && TagOf(frame) == TagOf(other)
    ensures var n := |frame| - 40; frame[24..][..n] == frame[24..|frame| - 16] && frame[24..][n..] == TagOf(frame)
  {
    assert frame == frame[..12] + frame[12..24] + frame[24..|frame| - 16] + TagOf(frame);
    assert other == other[..12] + other[12..24] + other[24..|other| - 16] + TagOf(other);
  }

  /** The AEAD accepts a frame exactly when its last 16 bytes are the tag of its header and ciphertext. */
  lemma AcceptedByTag(c: Gcm.Cipher, key: KeyHandle, frame: seq<byte>)
    requires |frame| >= 40
    ensures AeadAnswer(c, key, frame).Some? <==>
      |frame| - 40 <= Gcm.P_MAX
      && TagOf(frame) == Gcm.Tag(c, key.material, frame[12..24], frame[..12], frame[24..|frame| - 16])
  {
    FrameParts(frame, frame);
  }

  /** An accepted frame altered in its header or its ciphertext, nonce and tag being left alone, is accepted
      exactly if GHASH, applied to different inputs, collides; if only the tag is altered, never. */
  lemma AlteredFrame(c: Gcm.Cipher, key: KeyHandle, frame: seq<byte>, altered: seq<byte>)
    requires |frame| >= 40 && 40 <= |altered| <= 40 + Gcm.P_MAX
    requires AeadAnswer(c, key, frame).Some? && altered != frame && altered[12..24] == frame[12..24]
    ensures TagOf(altered) == TagOf(frame) ==>
      && HashInput(altered) != HashInput(frame)
      && (AeadAnswer(c, key, altered).Some? <==> FrameHash(c, key, altered) == FrameHash(c, key, frame))
    ensures altered[..12] == frame[..12] && altered[24..|altered| - 16] == frame[24..|frame| - 16] ==>
      AeadAnswer(c, key, altered).None?
  {
    FrameParts(frame, altered);
    AcceptedByTag(c, key, frame);
    AcceptedByTag(c, key, altered);
    Gcm.TagsAgree(c, key.material, frame[12..24], altered[..12], altered[24..|altered| - 16],
                  frame[..12], frame[24..|frame| - 16]);
  }

  // ---- authenticity ----

  /** Every use that is made of a key's sealing side: frames, and the self-test of a key rotation. */
  datatype SealOp =
    | FrameOp(keyId: u32, flags: byte, nonce: seq<byte>, pt: seq<byte>)
    | SelfTestOp

  datatype Sealed = Sealed(nonce: seq<byte>, aad: seq<byte>, body: seq<byte>)

  const SELF_TEST: seq<byte> :=
    [0x61, 0x63, 0x6d, 0x2d, 0x75, 0x7a, 0x2d, 0x73, 0x65, 0x6c, 0x66, 0x2d, 0x74, 0x65, 0x73, 0x74]

  const ZERO_NONCE: seq<byte> := [0, 0, 0, 0, 0, 0, 0, 0, 0, 0, 0, 0]

  /** The tuple an operation makes the AEAD produce, if it gets that far. */
  function Produced(c: Gcm.Cipher, p: Providers.Provider, key: KeyHandle, op: SealOp): Option<Sealed> {
    match op
    case FrameOp(keyId, flags, nonce, pt) =>
      if SealFrame(c, p, key, keyId, nonce, flags, pt).Err? then None
      else
        var aad := HeaderBytes(SealHeader(p, keyId, flags));
        Some(Sealed(nonce, aad, Gcm.Seal(c, key.material, nonce, aad, pt).value))
    case SelfTestOp =>
      Some(Sealed(ZERO_NONCE, [], Gcm.Seal(c, key.material, ZERO_NONCE, [], SELF_TEST).value))
  }

  /** A frame is a forgery when the AEAD tuple it is split into was never sealed under this key. */
  predicate Forgery(c: Gcm.Cipher, p: Providers.Provider, key: KeyHandle, ops: seq<SealOp>, frame: seq<byte>)
    requires |frame| >= 40
  {
    forall i :: 0 <= i < |ops| ==> Produced(c, p, key, ops[i]) != Some(Sealed(frame[12..24], frame[..12], frame[24..]))
  }

  /** Every byte is authenticated: whatever was sealed under a key, a frame it accepts either is,
      byte for byte and reserved bytes included, the frame of one of the sealing calls and opens to
      that call's plaintext, or is a forgery against the AEAD itself. Self-tests yield no frame. */
  lemma AcceptedFrameIsAuthentic(c: Gcm.Cipher, p: Providers.Provider, key: KeyHandle, ops: seq<SealOp>,
                                 frame: seq<byte>, have: nat)
    requires OpenFrame(c, p, key, frame, have).Ok?
    ensures |frame| >= 40
    ensures !Forgery(c, p, key, ops, frame) <==>
      exists i :: 0 <= i < |ops| && ops[i].FrameOp?
        && SealFrame(c, p, key, ops[i].keyId, ops[i].nonce, ops[i].flags, ops[i].pt) == Ok(frame)
        && OpenFrame(c, p, key, frame, have) == Ok(ops[i].pt)
  {
    OpenedFrameIsSealed(c, p, key, frame, have);
    var split := Sealed(frame[12..24], frame[..12], frame[24..]);
    assert frame == frame[..12] + frame[12..24] + frame[24..];
    if i :| 0 <= i < |ops| && Produced(c, p, key, ops[i]) == Some(split) {
      var op := ops[i];
      assert |split.aad| == 12;
      assert op.FrameOp?;
      assert SealFrame(c, p, key, op.keyId, op.nonce, op.flags, op.pt) == Ok(frame);
      FrameRoundTrip(c, p, key, op.keyId, op.nonce, op.flags, op.pt, p, key, |op.pt| + have);
      SealFrameSucceeds(c, p, key, op.keyId, op.nonce, op.flags, op.pt);
    }
    if i :| 0 <= i < |ops| && ops[i].FrameOp? &&
            SealFrame(c, p, key, ops[i].keyId, ops[i].nonce, ops[i].flags, ops[i].pt) == Ok(frame) {
      var op := ops[i];
      var aad := HeaderBytes(SealHeader(p, op.keyId, op.flags));
      assert frame[..12] == aad && frame[12..24] == op.nonce;
      assert Produced(c, p, key, ops[i]) == Some(split);
    }
  }
}
