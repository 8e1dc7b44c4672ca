/** Algorithm identifiers, key handles and the error vocabulary of the provider layer. */
module Crypto {
  import opened Bytes

  datatype AlgoId = Aes128Gcm | Aes256Gcm | OzDst1105 {

    function ToByte(): byte {
      match this
      case Aes128Gcm => 0x01
      case Aes256Gcm => 0x02
      case OzDst1105 => 0x10
    }

    function KeyLen(): nat {
      match this
      case Aes128Gcm => 16
      case Aes256Gcm => 32
      case OzDst1105 => 32
    }

    function NonceLen(): nat { 12 }

    function TagLen(): nat { 16 }
  }

  function FromByte(v: byte): Option<AlgoId> {
    if v == 0x01 then Some(Aes128Gcm)
    else if v == 0x02 then Some(Aes256Gcm)
    else if v == 0x10 then Some(OzDst1105)
    else None
  }

  /** Identifier bytes and algorithms correspond one to one, and no other byte is accepted. */
  lemma AlgoByteBijection(v: byte, a: AlgoId)
    ensures FromByte(v) == Some(a) <==> v == a.ToByte()
  {
    match a
    case Aes128Gcm =>
    case Aes256Gcm =>
    case OzDst1105 =>
  }

  datatype CryptoError =
    | InvalidKey(expected: nat, got: nat)
    | InvalidNonce(expected: nat, got: nat)
    | BufferTooSmall(need: nat, have: nat)
    | AuthFailed
    | AlgorithmMismatch(provider: AlgoId, key: AlgoId)
    | ProviderUnavailable

  datatype KeyHandle = KeyHandle(id: u32, algo: AlgoId, material: seq<byte>) {

    predicate WellFormed() { |material| == algo.KeyLen() }
  }

  function NewKey(id: u32, algo: AlgoId, material: seq<byte>): (r: Result<KeyHandle, CryptoError>)
    ensures r.Ok? <==> KeyHandle(id, algo, material).WellFormed()
    ensures r.Ok? ==> r.value == KeyHandle(id, algo, material)
  {
    if |material| != algo.KeyLen() then Err(InvalidKey(algo.KeyLen(), |material|))
    else Ok(KeyHandle(id, algo, material))
  }
}
