/** The provider backed by `ring`: stateless apart from the algorithm chosen at construction. */
module AesGcmRing {
  import opened Bytes
  import opened Buffers
  import opened Crypto
  import Gcm

  /** What `seal` returns, by its order of checks: algorithm, nonce, buffer, key, length limit. */
  function SealVerdict(algo: AlgoId, key: KeyHandle, nonce: seq<byte>, aad: seq<byte>, pt: seq<byte>, have: nat)
    : Result<nat, CryptoError>
  {
    var need := |pt| + algo.TagLen();
    if key.algo != algo then Err(AlgorithmMismatch(algo, key.algo))
    else if |nonce| != algo.NonceLen() then Err(InvalidNonce(algo.NonceLen(), |nonce|))
    else if have < need then Err(BufferTooSmall(need, have))
    else if |key.material| != algo.KeyLen() then Err(InvalidKey(algo.KeyLen(), |key.material|))
    else if |pt| > Gcm.P_MAX || |aad| > Gcm.A_MAX then Err(ProviderUnavailable)
    else Ok(need)
  }

  function OpenVerdict(c: Gcm.Cipher, algo: AlgoId, key: KeyHandle, nonce: seq<byte>, aad: seq<byte>,
                       body: seq<byte>, have: nat): Result<nat, CryptoError>
  {
    if |body| < algo.TagLen() then Err(AuthFailed)
    else if key.algo != algo then Err(AlgorithmMismatch(algo, key.algo))
    else if |nonce| != algo.NonceLen() then Err(InvalidNonce(algo.NonceLen(), |nonce|))
    else if have < |body| - algo.TagLen() then Err(BufferTooSmall(|body| - algo.TagLen(), have))
    else if |key.material| != algo.KeyLen() then Err(InvalidKey(algo.KeyLen(), |key.material|))
    else if Gcm.Open(c, key.material, nonce, aad, body).None? then Err(AuthFailed)
    else Ok(|body| - algo.TagLen())
  }

  /** `out[lo..hi]` is the caller's slice. A failed length check comes after the plaintext was
      copied in, so that one error leaves the plaintext in the caller's buffer. */
  method Seal(c: Gcm.Cipher, algo: AlgoId, key: KeyHandle, nonce: seq<byte>, aad: seq<byte>, pt: seq<byte>,
              out: array<byte>, lo: nat, hi: nat) returns (r: Result<nat, CryptoError>)
    requires lo <= hi <= out.Length
    modifies out
    ensures r == SealVerdict(algo, key, nonce, aad, pt, hi - lo)
    ensures r.Ok? ==> Delivered(old(out[..]), out[..], lo, r.value, Gcm.Seal(c, key.material, nonce, aad, pt))
    ensures r == Err(ProviderUnavailable) ==> |pt| <= hi - lo && out[..] == Splice(old(out[..]), lo, pt)
    ensures r.Err? && !r.error.ProviderUnavailable? ==> out[..] == old(out[..])
  {
    if key.algo != algo { return Err(AlgorithmMismatch(algo, key.algo)); }
    if |nonce| != algo.NonceLen() { return Err(InvalidNonce(algo.NonceLen(), |nonce|)); }
    var need := |pt| + algo.TagLen();
    if hi - lo < need { return Err(BufferTooSmall(need, hi - lo)); }
    if |key.material| != algo.KeyLen() { return Err(InvalidKey(algo.KeyLen(), |key.material|)); }
    var ok := SealInto(c, key.material, nonce, aad, pt, out, lo);
    if !ok { return Err(ProviderUnavailable); }
    return Ok(need);
  }

  /** Decrypts in a private copy, so that a failure of any kind leaves `out` as it was. */
  method Open(c: Gcm.Cipher, algo: AlgoId, key: KeyHandle, nonce: seq<byte>, aad: seq<byte>, body: seq<byte>,
              out: array<byte>) returns (r: Result<nat, CryptoError>)
    modifies out
    ensures r == OpenVerdict(c, algo, key, nonce, aad, body, out.Length)
    ensures r.Ok? ==> Delivered(old(out[..]), out[..], 0, r.value, Gcm.Open(c, key.material, nonce, aad, body))
    ensures r.Err? ==> out[..] == old(out[..])
  {
    var tagLen := algo.TagLen();
    if |body| < tagLen { return Err(AuthFailed); }
    if key.algo != algo { return Err(AlgorithmMismatch(algo, key.algo)); }
    if |nonce| != algo.NonceLen() { return Err(InvalidNonce(algo.NonceLen(), |nonce|)); }
    var n := |body| - tagLen;
    if out.Length < n { return Err(BufferTooSmall(n, out.Length)); }
    if |key.material| != algo.KeyLen() { return Err(InvalidKey(algo.KeyLen(), |key.material|)); }
    var work := new byte[|body|](i requires 0 <= i < |body| => body[i]);
    assert work[..] == body;
    // ring takes ciphertext and tag in one buffer and decrypts at its front
    assert work[..n] + body[n..] == body;
    var ok := OpenDetached(c, key.material, nonce, aad, work, n, body[n..]);
    if !ok { return Err(AuthFailed); }
    assert work[..n] == Gcm.Open(c, key.material, nonce, aad, body).value;
    CopyFrom(out, 0, work[..n]);
    return Ok(n);
  }
}
