/** The way of key material from the operator's key form to the daemon: hexadecimal in the browser,
    bytes in the agent, base64 on the control socket, bytes again in the daemon. */
module KeyEntry {
  import opened Bytes
  import opened Crypto
  import opened Daemon
  import opened Envelopes
  import opened Json
  import Gcm
  import Hex

  /** The key lengths the form knows, in bytes; an algorithm it does not know wants none. */
  function FormKeyBytes(algo: byte): nat {
    if algo == 0x01 then 16 else if algo == 0x02 then 32 else if algo == 0x10 then 32 else 0
  }

  /** The form's regular expression, and its check before it submits. */
  predicate FormHex(hex: string) {
    forall i :: 0 <= i < |hex| ==> '0' <= hex[i] <= '9' || 'a' <= hex[i] <= 'f' || 'A' <= hex[i] <= 'F'
  }

  predicate MaterialValid(algo: byte, hex: string) {
    FormHex(hex) && |hex| == 2 * FormKeyBytes(algo)
  }

  lemma FormHexAllHex(hex: string)
    ensures FormHex(hex) <==> Hex.AllHex(hex)
  {
  }

  /** How a submitted key ends. */
  datatype Outcome =
    | NotHex
    | Unreadable
    | Refused(resp: Response)
    | Accepted(key: KeyHandle)

  /** The agent decodes the form's text and has the client send it; the daemon decides. */
  function Submit(c: Gcm.Cipher, keyId: u32, algo: byte, hex: string): Outcome {
    match Hex.Decode(hex)
    case None => NotHex
    case Some(material) =>
      match ServerReads(ToLine(Obj(GoEnvelope(GoRotateKey(keyId, algo, Some(material))))))
      case Some(RotateKey(id, a, m)) =>
        (match Prepare(c, id, a, m) case Ok(key) => Accepted(key) case Err(resp) => Refused(resp))
      case _ => Unreadable
  }

  lemma SubmittedAsEntered(c: Gcm.Cipher, keyId: u32, algo: byte, hex: string)
    requires Hex.Decode(hex).Some?
    ensures Submit(c, keyId, algo, hex)
         == match Prepare(c, keyId, algo, Hex.Decode(hex).value)
            case Ok(key) => Accepted(key)
            case Err(resp) => Refused(resp)
  {
    RequestAgreement(GoRotateKey(keyId, algo, Some(Hex.Decode(hex).value)));
  }

  lemma MaterialDecides(c: Gcm.Cipher, keyId: u32, algo: byte, hex: string)
    requires Hex.Decode(hex).Some?
    ensures var r := Prepare(c, keyId, algo, Hex.Decode(hex).value);
      && (r.Ok? <==> algo in {0x01, 0x02} && MaterialValid(algo, hex))
      && (r.Ok? ==> r.value.WellFormed() && r.value.id == keyId && r.value.algo.ToByte() == algo
                    && r.value.material == Hex.Decode(hex).value)
      && (r.Ok? <==> (algo == 0x01 && |hex| == 32) || (algo == 0x02 && |hex| == 64))
      && (r.Err? ==> r.error.Error? && r.error.code == if algo == 0x10 then 501 else 422)
  {
    Hex.DecodableExact(hex);
    FormHexAllHex(hex);
    RotationVerdictExact(c, keyId, algo, Hex.Decode(hex).value);
  }

  lemma AcceptedAsTyped(c: Gcm.Cipher, keyId: u32, algo: byte, hex: string)
    requires Submit(c, keyId, algo, hex).Accepted?
    ensures var key := Submit(c, keyId, algo, hex).key;
      && key.WellFormed() && key.id == keyId && key.algo.ToByte() == algo
      && Hex.LowerAll(hex) == Hex.Encode(key.material)
  {
    SubmittedAsEntered(c, keyId, algo, hex);
    MaterialDecides(c, keyId, algo, hex);
    Hex.DecodeExact(hex, Hex.Decode(hex).value);
  }

  lemma DecodedIsDecided(c: Gcm.Cipher, keyId: u32, algo: byte, hex: string)
    requires Hex.Decode(hex).Some?
    ensures var out := Submit(c, keyId, algo, hex);
      && (out.Accepted? <==> (algo == 0x01 && |hex| == 32) || (algo == 0x02 && |hex| == 64))
      && (out.Accepted? <==> algo in {0x01, 0x02} && MaterialValid(algo, hex))
      && (out.Accepted? || (out.Refused? && out.resp.Error? && out.resp.code == if algo == 0x10 then 501 else 422))
  {
    SubmittedAsEntered(c, keyId, algo, hex);
    MaterialDecides(c, keyId, algo, hex);
  }

  lemma WhatDecodes(algo: byte, hex: string)
    ensures Hex.Decode(hex).Some? <==> FormHex(hex) && |hex| % 2 == 0
    ensures algo in {0x01, 0x02} && MaterialValid(algo, hex) ==> Hex.Decode(hex).Some?
  {
    FormHexAllHex(hex);
    Hex.DecodableExact(hex);
  }

  /** A submitted key takes effect exactly when the form's own check accepts it and the algorithm is one
      of the two implemented ones, which want 32 and 64 digits; the key installed is then the one typed:
      printed, it is the text in lower case. What is refused is refused as not hexadecimal, as not implemented
      (O'z DSt 1105), or as of the wrong length or algorithm; the key line is always readable. */
  lemma SubmitExact(c: Gcm.Cipher, keyId: u32, algo: byte, hex: string)
    ensures var out := Submit(c, keyId, algo, hex);
      && (out.Accepted? <==> algo in {0x01, 0x02} && MaterialValid(algo, hex))
      && (out.Accepted? <==> FormHex(hex) && ((algo == 0x01 && |hex| == 32) || (algo == 0x02 && |hex| == 64)))
      && (out.Accepted? ==> out.key.WellFormed() && out.key.id == keyId && out.key.algo.ToByte() == algo
                            && Hex.LowerAll(hex) == Hex.Encode(out.key.material))
      && (out.NotHex? <==> !FormHex(hex) || |hex| % 2 == 1)
      && !out.Unreadable?
      && (out.Refused? ==> out.resp.Error? && out.resp.code == if algo == 0x10 then 501 else 422)
  {
    WhatDecodes(algo, hex);
    if Hex.Decode(hex).Some? {
      DecodedIsDecided(c, keyId, algo, hex);
    }
    if Submit(c, keyId, algo, hex).Accepted? {
      AcceptedAsTyped(c, keyId, algo, hex);
    }
  }

  /** What the form accepts decodes to material of the right length for the algorithm chosen, also
      for the one that is not implemented yet. */
  lemma ValidMaterialMakesKey(keyId: u32, algo: byte, hex: string)
    requires FromByte(algo).Some?
    ensures MaterialValid(algo, hex) <==>
      Hex.Decode(hex).Some? && NewKey(keyId, FromByte(algo).value, Hex.Decode(hex).value).Ok?
  {
    FormHexAllHex(hex);
    Hex.DecodableExact(hex);
  }

  /** Key bytes printed by the form's key generator arrive at the daemon unchanged. */
  lemma GeneratedKeyArrives(c: Gcm.Cipher, keyId: u32, algo: AlgoId, material: seq<byte>)
    requires algo != OzDst1105 && |material| == FormKeyBytes(algo.ToByte())
    ensures MaterialValid(algo.ToByte(), Hex.Encode(material))
    ensures Submit(c, keyId, algo.ToByte(), Hex.Encode(material)) == Accepted(KeyHandle(keyId, algo, material))
  {
    var hex := Hex.Encode(material);
    Hex.DecodeEncode(material);
    FormHexAllHex(hex);
    Hex.DecodableExact(hex);
    SubmitExact(c, keyId, algo.ToByte(), hex);
    var key := Submit(c, keyId, algo.ToByte(), hex).key;
    Hex.DecodeExact(hex, key.material);
    AlgoByteBijection(algo.ToByte(), key.algo);
    AlgoByteBijection(algo.ToByte(), algo);
  }
}
