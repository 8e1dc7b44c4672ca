/** The provider backed by RustCrypto's `aes-gcm`: same contract, other order of checks,
    and decryption inside the caller's buffer. */
module AesGcmSw {
  import opened Bytes
  import opened Buffers
  import opened Crypto
  import Gcm

  function CheckInputs(algo: AlgoId, key: KeyHandle, nonce: seq<byte>, have: nat, bodyLen: nat, isSeal: bool)
    : Option<CryptoError>
  {
    var need := if isSeal then bodyLen + algo.TagLen()
                else if bodyLen >= algo.TagLen() then bodyLen - algo.TagLen() else 0;
    if key.algo != algo then Some(AlgorithmMismatch(algo, key.algo))
    else if |key.material| != algo.KeyLen() then Some(InvalidKey(algo.KeyLen(), |key.material|))
    else if |nonce| != algo.NonceLen() then Some(InvalidNonce(algo.NonceLen(), |nonce|))
    else if have < need then Some(BufferTooSmall(need, have))
    else None
  }

  function SealVerdict(algo: AlgoId, key: KeyHandle, nonce: seq<byte>, aad: seq<byte>, pt: seq<byte>, have: nat)
    : Result<nat, CryptoError>
  {
    match CheckInputs(algo, key, nonce, have, |pt|, true)
    case Some(e) => Err(e)
    case None =>
      if |pt| > Gcm.P_MAX || |aad| > Gcm.A_MAX then Err(ProviderUnavailable)
      else Ok(|pt| + algo.TagLen())
  }

  function OpenVerdict(c: Gcm.Cipher, algo: AlgoId, key: KeyHandle, nonce: seq<byte>, aad: seq<byte>,
                       body: seq<byte>, have: nat): Result<nat, CryptoError>
  {
    if |body| < algo.TagLen() then Err(AuthFailed)
    else match CheckInputs(algo, key, nonce, have, |body|, false)
      case Some(e) => Err(e)
      case None =>
        if Gcm.Open(c, key.material, nonce, aad, body).None? then Err(AuthFailed)
        else Ok(|body| - algo.TagLen())
  }

  method Seal(c: Gcm.Cipher, algo: AlgoId, key: KeyHandle, nonce: seq<byte>, aad: seq<byte>, pt: seq<byte>,
              out: array<byte>, lo: nat, hi: nat) returns (r: Result<nat, CryptoError>)
    requires lo <= hi <= out.Length
    modifies out
    ensures r == SealVerdict(algo, key, nonce, aad, pt, hi - lo)
    ensures r.Ok? ==> Delivered(old(out[..]), out[..], lo, r.value, Gcm.Seal(c, key.material, nonce, aad, pt))
    ensures r == Err(ProviderUnavailable) ==> |pt| <= hi - lo && out[..] == Splice(old(out[..]), lo, pt)
    ensures r.Err? && !r.error.ProviderUnavailable? ==> out[..] == old(out[..])
  {
    var bad := CheckInputs(algo, key, nonce, hi - lo, |pt|, true);
    if bad.Some? { return Err(bad.value); }
    var ok := SealInto(c, key.material, nonce, aad, pt, out, lo);
    if !ok { return Err(ProviderUnavailable); }
    return Ok(|pt| + algo.TagLen());
  }

  /** The ciphertext is copied into `out` before the tag is checked: a bad tag leaves it there. */
  method Open(c: Gcm.Cipher, algo: AlgoId, key: KeyHandle, nonce: seq<byte>, aad: seq<byte>, body: seq<byte>,
              out: array<byte>) returns (r: Result<nat, CryptoError>)
    modifies out
    ensures r == OpenVerdict(c, algo, key, nonce, aad, body, out.Length)
    ensures r.Ok? ==> Delivered(old(out[..]), out[..], 0, r.value, Gcm.Open(c, key.material, nonce, aad, body))
    ensures r == Err(AuthFailed) && |body| >= algo.TagLen() ==>
              Delivered(old(out[..]), out[..], 0, |body| - algo.TagLen(), Some(body[..|body| - algo.TagLen()]))
    ensures r.Err? && (|body| < algo.TagLen() || !r.error.AuthFailed?) ==> out[..] == old(out[..])
  {
    if |body| < algo.TagLen() { return Err(AuthFailed); }
    var n := |body| - algo.TagLen();
    var bad := CheckInputs(algo, key, nonce, out.Length, |body|, false);
    if bad.Some? { return Err(bad.value); }
    CopyFrom(out, 0, body[..n]);
    assert out[..n] + body[n..] == body;
    var ok := OpenDetached(c, key.material, nonce, aad, out, n, body[n..]);
    if !ok { return Err(AuthFailed); }
    SpliceOver(old(out[..]), 0, body[..n], Gcm.Gctr(c, key.material, nonce, body[..n]));
    return Ok(n);
  }
}
