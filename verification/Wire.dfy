/** The ACM frame: a 12-byte header that is authenticated but not encrypted, a nonce,
    and the AEAD body. `Seal` and `Open` work in the caller's buffer; `SealFrame` and
    `OpenFrame` say what they compute. */
module Wire {
  import opened Bytes
  import opened Buffers
  import opened Crypto
  import Gcm
  import Providers

  const MAGIC: seq<byte> := [0x41, 0x43]
  const VERSION: byte := 1
  const HEADER_LEN := 12

  datatype WireError =
    | Truncated(len: nat)
    | BadMagic
    | BadVersion(version: byte)
    | UnknownAlgo(id: byte)
    | NonceLenMismatch(header: byte, algo: nat)
    | BodyTooShort
    | OutputTooSmall
    | Crypto(error: CryptoError)

  datatype FrameHeader = FrameHeader(version: byte, flags: byte, keyId: u32, algo: AlgoId, nonceLen: byte)

  function FrameLen(ptLen: nat, nonceLen: nat, tagLen: nat): nat {
    HEADER_LEN + nonceLen + ptLen + tagLen
  }

  // ---- header ----

  function HeaderBytes(h: FrameHeader): (s: seq<byte>)
    ensures |s| == HEADER_LEN
  {
    MAGIC + [h.version, h.flags] + BigEndian(h.keyId, 4) + [h.algo.ToByte(), h.nonceLen, 0, 0]
  }

  function DecodeHeader(src: seq<byte>): Result<FrameHeader, WireError> {
    if |src| < HEADER_LEN then Err(Truncated(|src|))
    else if src[0..2] != MAGIC then Err(BadMagic)
    else if src[2] != VERSION then Err(BadVersion(src[2]))
    else match FromByte(src[8])
      case None => Err(UnknownAlgo(src[8]))
      case Some(algo) => Pow256Of4(); Ok(FrameHeader(src[2], src[3], FromBigEndian(src[4..8]), algo, src[9]))
  }

  /** The last four header bytes, the reserved ones zero. */
  method EncodeTail(h: FrameHeader, out: array<byte>)
    requires HEADER_LEN <= out.Length
    modifies out
    ensures out[..] == Splice(old(out[..]), 8, [h.algo.ToByte(), h.nonceLen, 0, 0])
  {
    out[8] := h.algo.ToByte();
    out[9] := h.nonceLen;
    out[10] := 0;
    out[11] := 0;
  }

  method EncodeHeader(h: FrameHeader, out: array<byte>, hi: nat) returns (r: Result<(), WireError>)
    requires hi <= out.Length
    modifies out
    ensures r.Ok? <==> hi >= HEADER_LEN
    ensures r.Ok? ==> out[..] == Splice(old(out[..]), 0, HeaderBytes(h))
    ensures r.Err? ==> r.error == Truncated(hi) && out[..] == old(out[..])
  {
    if hi < HEADER_LEN { return Err(Truncated(hi)); }
    ghost var before, id := out[..], BigEndian(h.keyId, 4);
    ghost var front, tail := MAGIC + [h.version, h.flags], [h.algo.ToByte(), h.nonceLen, 0, 0];
    CopyFrom(out, 0, MAGIC);
    out[2] := h.version;
    out[3] := h.flags;
    assert out[..] == Splice(before, 0, front);
    CopyFrom(out, 4, BigEndian(h.keyId, 4));
    SpliceTwice(before, 0, front, id);
    EncodeTail(h, out);
    SpliceTwice(before, 0, front + id, tail);
    assert front + id + tail == HeaderBytes(h);
    return Ok(());
  }

  /** Where everything is in a header, byte by byte. */
  lemma HeaderLayout(h: FrameHeader)
    ensures var s := HeaderBytes(h);
      && s[0] == 0x41 && s[1] == 0x43 && s[2] == h.version && s[3] == h.flags
      && Word(s[4], s[5], s[6], s[7]) == h.keyId
      && s[8] == (match h.algo case Aes128Gcm => 0x01 case Aes256Gcm => 0x02 case OzDst1105 => 0x10)
      && s[9] == h.nonceLen && s[10] == 0 && s[11] == 0
  {
    var s, id := HeaderBytes(h), BigEndian(h.keyId, 4);
    WordOfBytes(h.keyId);
    assert s[4] == id[0] && s[5] == id[1] && s[6] == id[2] && s[7] == id[3];
  }

  /** What a header is decoded from, and which error comes first, byte by byte. */
  lemma DecodeLayout(src: seq<byte>)
    ensures var r := DecodeHeader(src);
      && (r == Err(Truncated(|src|)) <==> |src| < 12)
      && (|src| >= 12 ==>
            && (r == Err(BadMagic) <==> src[0] != 0x41 || src[1] != 0x43)
            && (src[0] == 0x41 && src[1] == 0x43 ==>
                  && (r == Err(BadVersion(src[2])) <==> src[2] != 1)
                  && (src[2] == 1 ==> (r == Err(UnknownAlgo(src[8])) <==> src[8] !in {0x01, 0x02, 0x10})))
            && (r.Ok? <==> src[0] == 0x41 && src[1] == 0x43 && src[2] == 1 && src[8] in {0x01, 0x02, 0x10}))
      && (r.Ok? ==>
            && r.value.version == 1 && r.value.flags == src[3] && r.value.algo.ToByte() == src[8]
            && r.value.keyId == Word(src[4], src[5], src[6], src[7])
            && r.value.nonceLen == src[9])
  {
    if |src| >= 12 {
      assert src[0..2] == [src[0], src[1]];
      var h := DecodeHeader(src);
      if h.Ok? {
        HeaderCodec(h.value, src);
        HeaderLayout(h.value);
        var s := HeaderBytes(h.value);
        assert forall k :: 0 <= k < 10 ==> src[k] == src[..10][k] == s[..10][k] == s[k];
      }
    }
  }

  /** Decoding inverts encoding on exactly the version-1 headers, and sees ten bytes only:
      the two reserved ones and whatever follows make no difference. */
  lemma HeaderCodec(h: FrameHeader, src: seq<byte>)
    ensures DecodeHeader(src) == Ok(h)
       <==> |src| >= HEADER_LEN && h.version == VERSION && src[..10] == HeaderBytes(h)[..10]
  {
    Pow256Of4();
    BigEndianRoundTrip(h.keyId, 4);
    var s := HeaderBytes(h);
    assert s[0..2] == MAGIC && s[4..8] == BigEndian(h.keyId, 4) && s[8] == h.algo.ToByte();
    if |src| >= HEADER_LEN {
      AlgoByteBijection(src[8], h.algo);
      FromBigEndianRoundTrip(src[4..8]);
      assert src[..10] == src[0..2] + [src[2], src[3]] + src[4..8] + [src[8], src[9]];
      assert s[..10] == s[0..2] + [s[2], s[3]] + s[4..8] + [s[8], s[9]];
      if src[..10] == s[..10] {
        assert forall k :: 0 <= k < 10 ==> src[k] == src[..10][k] == s[..10][k] == s[k];
        assert src[4..8] == s[4..8] && src[0..2] == s[0..2];
      }
    }
  }

  // ---- sealing ----

  function SealHeader(p: Providers.Provider, keyId: u32, flags: byte): FrameHeader {
    FrameHeader(VERSION, flags, keyId, p.algo, p.algo.NonceLen())
  }

  /** The frame `Seal` builds in a large enough buffer. */
  function SealFrame(c: Gcm.Cipher, p: Providers.Provider, key: KeyHandle, keyId: u32, nonce: seq<byte>, flags: byte,
                     pt: seq<byte>): Result<seq<byte>, WireError>
  {
    if |nonce| != p.algo.NonceLen() then Err(NonceLenMismatch(|nonce| % 0x100, p.algo.NonceLen()))
    else
      var aad := HeaderBytes(SealHeader(p, keyId, flags));
      match Providers.SealVerdict(p, key, nonce, aad, pt, |pt| + p.algo.TagLen())
      case Err(e) => Err(Crypto(e))
      case Ok(_) => Ok(aad + nonce + Gcm.Seal(c, key.material, nonce, aad, pt).value)
  }

  lemma SealFrameSucceeds(c: Gcm.Cipher, p: Providers.Provider, key: KeyHandle, keyId: u32, nonce: seq<byte>,
                          flags: byte, pt: seq<byte>)
    ensures var r := SealFrame(c, p, key, keyId, nonce, flags, pt);
      && (r.Ok? <==> key.algo == p.algo && key.WellFormed() && |nonce| == p.algo.NonceLen() && |pt| <= Gcm.P_MAX)
      && (r.Ok? ==> |r.value| == FrameLen(|pt|, |nonce|, p.algo.TagLen()))
  {
  }

  /** The part of a frame in front of the AEAD body. */
  method WritePrelude(h: FrameHeader, nonce: seq<byte>, out: array<byte>)
    requires HEADER_LEN + |nonce| <= out.Length
    modifies out
    ensures out[..] == Splice(old(out[..]), 0, HeaderBytes(h) + nonce)
  {
    var encoded := EncodeHeader(h, out, HEADER_LEN);
    CopyFrom(out, HEADER_LEN, nonce);
    SpliceTwice(old(out[..]), 0, HeaderBytes(h), nonce);
  }

  method Seal(c: Gcm.Cipher, p: Providers.Provider, key: KeyHandle, keyId: u32, nonce: seq<byte>, flags: byte,
              pt: seq<byte>, out: array<byte>) returns (r: Result<nat, WireError>)
    modifies out
    ensures |nonce| == p.algo.NonceLen() && out.Length < FrameLen(|pt|, |nonce|, p.algo.TagLen()) ==>
              r == Err(OutputTooSmall) && out[..] == old(out[..])
    ensures |nonce| != p.algo.NonceLen() || out.Length >= FrameLen(|pt|, |nonce|, p.algo.TagLen()) ==>
              match SealFrame(c, p, key, keyId, nonce, flags, pt)
              case Err(e) => r == Err(e)
              case Ok(frame) => r.Ok? && Delivered(old(out[..]), out[..], 0, r.value, Some(frame))
    ensures forall k :: FrameLen(|pt|, |nonce|, p.algo.TagLen()) <= k < out.Length ==> out[k] == old(out[k])
  {
    var algo := p.algo;
    if |nonce| != algo.NonceLen() { return Err(NonceLenMismatch(|nonce| % 0x100, algo.NonceLen())); }
    var need := FrameLen(|pt|, |nonce|, algo.TagLen());
    if out.Length < need { return Err(OutputTooSmall); }
    var header := FrameHeader(VERSION, flags, keyId, algo, |nonce|);
    WritePrelude(header, nonce, out);
    ghost var mid := out[..];
    ghost var aad := HeaderBytes(header);
    var bodyOff := HEADER_LEN + |nonce|;
    assert out[..HEADER_LEN] == mid[..HEADER_LEN] == aad;
    var bodyEnd := bodyOff + |pt| + algo.TagLen();
    var written := Providers.Seal(c, p, key, nonce, out[..HEADER_LEN], pt, out, bodyOff, bodyEnd);
    if written.Err? { return Err(Crypto(written.error)); }
    SpliceTwice(old(out[..]), 0, aad + nonce, Gcm.Seal(c, key.material, nonce, aad, pt).value);
    return Ok(bodyOff + written.value);
  }

  // ---- opening ----

  /** What `Open` decides about a frame, given a buffer of `have` bytes. */
  function OpenFrame(c: Gcm.Cipher, p: Providers.Provider, key: KeyHandle, frame: seq<byte>, have: nat)
    : Result<seq<byte>, WireError>
  {
    match DecodeHeader(frame)
    case Err(e) => Err(e)
    case Ok(h) =>
      var off := HEADER_LEN + h.nonceLen;
      if h.algo != p.algo then Err(Crypto(AlgorithmMismatch(p.algo, h.algo)))
      else if h.nonceLen != h.algo.NonceLen() then Err(NonceLenMismatch(h.nonceLen, h.algo.NonceLen()))
      else if |frame| < off + h.algo.TagLen() then Err(BodyTooShort)
      else if have < |frame| - off - h.algo.TagLen() then Err(OutputTooSmall)
      else
        match Providers.OpenVerdict(c, p, key, frame[HEADER_LEN..off], frame[..HEADER_LEN], frame[off..], have)
        case Err(e) => Err(Crypto(e))
        case Ok(_) =>
          Ok(Gcm.Open(c, key.material, frame[HEADER_LEN..off], frame[..HEADER_LEN], frame[off..]).value)
  }

  method Open(c: Gcm.Cipher, p: Providers.Provider, key: KeyHandle, frame: seq<byte>, out: array<byte>)
    returns (r: Result<nat, WireError>)
    modifies out
    ensures match OpenFrame(c, p, key, frame, out.Length)
      case Err(e) => r == Err(e)
      case Ok(pt) => r.Ok? && Delivered(old(out[..]), out[..], 0, r.value, Some(pt))
    ensures r.Err? && p.backend.Ring? ==> out[..] == old(out[..])
  {
    var header := DecodeHeader(frame);
    if header.Err? { return Err(header.error); }
    var h := header.value;
    var algo := h.algo;
    if h.algo != p.algo { return Err(Crypto(AlgorithmMismatch(p.algo, h.algo))); }
    if h.nonceLen != algo.NonceLen() { return Err(NonceLenMismatch(h.nonceLen, algo.NonceLen())); }
    var bodyOff := HEADER_LEN + h.nonceLen;
    if |frame| < bodyOff + algo.TagLen() { return Err(BodyTooShort); }
    var nonce, body := frame[HEADER_LEN..bodyOff], frame[bodyOff..];
    if out.Length < |body| - algo.TagLen() { return Err(OutputTooSmall); }
    var n := Providers.Open(c, p, key, nonce, frame[..HEADER_LEN], body, out);
    if n.Err? { return Err(Crypto(n.error)); }
    return Ok(n.value);
  }
}
