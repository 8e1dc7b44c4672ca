/** The client's calls and the concurrent daemon together, through the printed lines between them. */
module EndToEnd {
  import opened Bytes
  import opened Crypto
  import opened Daemon
  import opened Envelopes
  import opened Interleaving
  import opened Json
  import opened Linearizability
  import opened Providers
  import Gcm

  /** The line the server writes for a response. */
  function ReplyTo(version: string, wording: Cause -> string, resp: Response): string {
    ToLine(Obj(RustEnvelope(version, wording, resp)))
  }

  lemma AgreesOfRightKind(c: Gcm.Cipher, cell: Option<KeyHandle>, req: Request, resp: Response)
    requires Agrees(c, cell, req, resp)
    ensures RightKind(req, resp)
  {
    if req.RotateKey? {
      RotationVerdictExact(c, req.keyId, req.algo, req.material);
    }
  }

  /** In every run each request is answered with its own kind of success or with an error. */
  lemma AnswersOfRightKind(c: Gcm.Cipher, run: seq<Event>, i: nat)
    requires i < |Exec(DaemonHandler(c), IDLE, run).tasks| && Exec(DaemonHandler(c), IDLE, run).tasks[i].pc.Done?
    ensures var t := Exec(DaemonHandler(c), IDLE, run).tasks[i]; RightKind(t.req, t.pc.resp)
  {
    var t := Exec(DaemonHandler(c), IDLE, run).tasks[i];
    var j := Linearizable(c, run, i);
    var log := Log(DaemonHandler(c), DaemonAccount(c), IDLE, run);
    AgreesOfRightKind(c, Replay(DaemonAccount(c), log, j), t.req, t.pc.resp);
  }

  /** A client's call, printed, read, served among any others, printed again and read back, hands the
      daemon's answer to the caller with its whole payload: never an "unexpected response shape",
      never an undecodable one. */
  lemma CallDelivered(c: Gcm.Cipher, version: string, wording: Cause -> string, r: GoRequest, run: seq<Event>, i: nat)
    requires i < |Exec(DaemonHandler(c), IDLE, run).tasks| && Exec(DaemonHandler(c), IDLE, run).tasks[i].pc.Done?
    requires Some(Exec(DaemonHandler(c), IDLE, run).tasks[i].req) == ServerReads(ToLine(Obj(GoEnvelope(r))))
    ensures var t := Exec(DaemonHandler(c), IDLE, run).tasks[i];
      var result := ClientReads(r, ReplyTo(version, wording, t.pc.resp));
      && result == Delivered(version, wording, t.pc.resp)
      && !result.Unexpected? && !result.Undecodable?
  {
    RequestAgreement(r);
    AnswersOfRightKind(c, run, i);
    ResponseAgreement(version, wording, r, Exec(DaemonHandler(c), IDLE, run).tasks[i].pc.resp);
  }

  /** What a finished task of a run hands to the client's caller who asked for it. */
  function Outcome(c: Gcm.Cipher, version: string, wording: Cause -> string, r: GoRequest, t: Task): GoResult
    requires t.pc.Done?
  {
    ClientReads(r, ReplyTo(version, wording, t.pc.resp))
  }

  lemma EncryptedAsSpecified(c: Gcm.Cipher, cell: Option<KeyHandle>, req: Request, resp: Response)
    returns (key: KeyHandle)
    requires req.Encrypt? && Agrees(c, cell, req, resp) && resp.Ciphertext?
    ensures cell == Some(key) && EncryptAnswer(c, Provider(Ring, key.algo), key, req.nonce, req.plaintext) == resp
  {
    DecisiveAnswersExact(c, cell, req, resp);
    key := cell.value;
  }

  /** A frame the client is handed by `Encrypt` is the one the key that was active when the daemon read
      it seals, with that key's own provider, whatever rotations overlapped the call. */
  lemma EncryptedUnderActiveKey(c: Gcm.Cipher, version: string, wording: Cause -> string, nonce: seq<byte>, aad: Slice,
                                plaintext: seq<byte>, run: seq<Event>, i: nat, frame: seq<byte>)
    returns (j: nat, key: KeyHandle)
    requires i < |Exec(DaemonHandler(c), IDLE, run).tasks| && Exec(DaemonHandler(c), IDLE, run).tasks[i].pc.Done?
    requires var r, t := GoEncrypt(Some(nonce), aad, Some(plaintext)), Exec(DaemonHandler(c), IDLE, run).tasks[i];
      && Some(t.req) == ServerReads(ToLine(Obj(GoEnvelope(r))))
      && Outcome(c, version, wording, r, t) == GoBytes(frame)
    ensures var log := Log(DaemonHandler(c), DaemonAccount(c), IDLE, run);
      && StandsAt(log, i, Exec(DaemonHandler(c), IDLE, run).tasks[i].req, j)
      && Replay(DaemonAccount(c), log, j) == Some(key)
    ensures EncryptAnswer(c, Provider(Ring, key.algo), key, nonce, plaintext) == Ciphertext(frame)
  {
    var r, t := GoEncrypt(Some(nonce), aad, Some(plaintext)), Exec(DaemonHandler(c), IDLE, run).tasks[i];
    RequestAgreement(r);
    CallDelivered(c, version, wording, r, run, i);
    AnswersOfRightKind(c, run, i);
    j := Linearizable(c, run, i);
    var log := Log(DaemonHandler(c), DaemonAccount(c), IDLE, run);
    key := EncryptedAsSpecified(c, Replay(DaemonAccount(c), log, j), t.req, t.pc.resp);
  }
}
