/** `dyn CryptoProvider`: the two implementations behind one interface, and when they agree. */
module Providers {
  import opened Bytes
  import opened Buffers
  import opened Crypto
  import AesGcmRing
  import AesGcmSw
  import Gcm

  datatype Backend = Ring | Software

  /** Providers hold nothing but their algorithm, and `New` never builds one for O'z DSt 1105. */
  datatype Provider = Provider(backend: Backend, algo: AlgoId)

  function New(backend: Backend, algo: AlgoId): (r: Result<Provider, CryptoError>)
    ensures r.Ok? <==> algo != OzDst1105
  {
    if algo == OzDst1105 then Err(ProviderUnavailable) else Ok(Provider(backend, algo))
  }

  function SealVerdict(p: Provider, key: KeyHandle, nonce: seq<byte>, aad: seq<byte>, pt: seq<byte>, have: nat)
    : Result<nat, CryptoError>
  {
    match p.backend
    case Ring => AesGcmRing.SealVerdict(p.algo, key, nonce, aad, pt, have)
    case Software => AesGcmSw.SealVerdict(p.algo, key, nonce, aad, pt, have)
  }

  function OpenVerdict(c: Gcm.Cipher, p: Provider, key: KeyHandle, nonce: seq<byte>, aad: seq<byte>,
                       body: seq<byte>, have: nat): Result<nat, CryptoError>
  {
    match p.backend
    case Ring => AesGcmRing.OpenVerdict(c, p.algo, key, nonce, aad, body, have)
    case Software => AesGcmSw.OpenVerdict(c, p.algo, key, nonce, aad, body, have)
  }

  method Seal(c: Gcm.Cipher, p: Provider, key: KeyHandle, nonce: seq<byte>, aad: seq<byte>, pt: seq<byte>,
              out: array<byte>, lo: nat, hi: nat) returns (r: Result<nat, CryptoError>)
    requires lo <= hi <= out.Length
    modifies out
    ensures r == SealVerdict(p, key, nonce, aad, pt, hi - lo)
    ensures r.Ok? ==> Delivered(old(out[..]), out[..], lo, r.value, Gcm.Seal(c, key.material, nonce, aad, pt))
    ensures r == Err(ProviderUnavailable) ==> |pt| <= hi - lo && out[..] == Splice(old(out[..]), lo, pt)
    ensures r.Err? && !r.error.ProviderUnavailable? ==> out[..] == old(out[..])
  {
    match p.backend
    case Ring => r := AesGcmRing.Seal(c, p.algo, key, nonce, aad, pt, out, lo, hi);
    case Software => r := AesGcmSw.Seal(c, p.algo, key, nonce, aad, pt, out, lo, hi);
  }

  method Open(c: Gcm.Cipher, p: Provider, key: KeyHandle, nonce: seq<byte>, aad: seq<byte>, body: seq<byte>,
              out: array<byte>) returns (r: Result<nat, CryptoError>)
    modifies out
    ensures r == OpenVerdict(c, p, key, nonce, aad, body, out.Length)
    ensures r.Ok? ==> Delivered(old(out[..]), out[..], 0, r.value, Gcm.Open(c, key.material, nonce, aad, body))
    ensures p.backend.Ring? && r.Err? ==> out[..] == old(out[..])
  {
    match p.backend
    case Ring => r := AesGcmRing.Open(c, p.algo, key, nonce, aad, body, out);
    case Software => r := AesGcmSw.Open(c, p.algo, key, nonce, aad, body, out);
  }

  /** A key whose material has the wrong length (a wiped one), used with a wrong nonce or a short
      buffer: the only calls on which the two orders of checks can be told apart. */
  predicate OrderShows(algo: AlgoId, key: KeyHandle, nonce: seq<byte>, room: bool) {
    !key.WellFormed() && key.algo == algo && !(|nonce| == algo.NonceLen() && room)
  }

  lemma SealVerdictsAgree(algo: AlgoId, key: KeyHandle, nonce: seq<byte>, aad: seq<byte>, pt: seq<byte>, have: nat)
    ensures AesGcmRing.SealVerdict(algo, key, nonce, aad, pt, have)
            == AesGcmSw.SealVerdict(algo, key, nonce, aad, pt, have)
            <==> !OrderShows(algo, key, nonce, have >= |pt| + algo.TagLen())
  {
  }

  lemma OpenVerdictsAgree(c: Gcm.Cipher, algo: AlgoId, key: KeyHandle, nonce: seq<byte>, aad: seq<byte>,
                          body: seq<byte>, have: nat)
    ensures AesGcmRing.OpenVerdict(c, algo, key, nonce, aad, body, have)
            == AesGcmSw.OpenVerdict(c, algo, key, nonce, aad, body, have)
            <==> |body| < algo.TagLen() || !OrderShows(algo, key, nonce, have >= |body| - algo.TagLen())
  {
  }

  /** Sealing the same call into two copies of one buffer. */
  method SealWithBoth(c: Gcm.Cipher, algo: AlgoId, key: KeyHandle, nonce: seq<byte>, aad: seq<byte>, pt: seq<byte>,
                      buf: seq<byte>)
    returns (ring: Result<nat, CryptoError>, ringOut: seq<byte>, sw: Result<nat, CryptoError>, swOut: seq<byte>)
    ensures ringOut == swOut
    ensures ring == sw <==> !OrderShows(algo, key, nonce, |buf| >= |pt| + algo.TagLen())
    ensures ring.Ok? <==> sw.Ok?
    ensures ring.Ok? ==> (
      && |nonce| == Gcm.NONCE_LEN
      && Delivered(buf, ringOut, 0, ring.value, Gcm.Seal(c, key.material, nonce, aad, pt)))
  {
    var a := new byte[|buf|](i requires 0 <= i < |buf| => buf[i]);
    var b := new byte[|buf|](i requires 0 <= i < |buf| => buf[i]);
    assert a[..] == buf == b[..];
    SealVerdictsAgree(algo, key, nonce, aad, pt, |buf|);
    ring := AesGcmRing.Seal(c, algo, key, nonce, aad, pt, a, 0, a.Length);
    sw := AesGcmSw.Seal(c, algo, key, nonce, aad, pt, b, 0, b.Length);
    ringOut, swOut := a[..], b[..];
  }

  /** Opening the same call into two copies of one buffer: equal outcomes, and equal buffers
      except that a rejected body stays copied in the software provider's buffer. */
  method OpenWithBoth(c: Gcm.Cipher, algo: AlgoId, key: KeyHandle, nonce: seq<byte>, aad: seq<byte>, body: seq<byte>,
                      buf: seq<byte>)
    returns (ring: Result<nat, CryptoError>, ringOut: seq<byte>, sw: Result<nat, CryptoError>, swOut: seq<byte>)
    ensures ring == sw <==> |body| < algo.TagLen() || !OrderShows(algo, key, nonce, |buf| >= |body| - algo.TagLen())
    ensures ring.Ok? <==> sw.Ok?
    ensures ring.Ok? ==> (
      && |nonce| == Gcm.NONCE_LEN && |body| >= Gcm.TAG_LEN && ringOut == swOut
      && Delivered(buf, ringOut, 0, ring.value, Gcm.Open(c, key.material, nonce, aad, body)))
    ensures ring.Err? ==> ringOut == buf
    ensures sw.Err? ==> if sw.error.AuthFailed? && |body| >= algo.TagLen()
      then Delivered(buf, swOut, 0, |body| - algo.TagLen(), Some(body[..|body| - algo.TagLen()]))
      else swOut == buf
  {
    var a := new byte[|buf|](i requires 0 <= i < |buf| => buf[i]);
    var b := new byte[|buf|](i requires 0 <= i < |buf| => buf[i]);
    assert a[..] == buf == b[..];
    OpenVerdictsAgree(c, algo, key, nonce, aad, body, |buf|);
    ring := AesGcmRing.Open(c, algo, key, nonce, aad, body, a);
    sw := AesGcmSw.Open(c, algo, key, nonce, aad, body, b);
    ringOut, swOut := a[..], b[..];
  }
}
