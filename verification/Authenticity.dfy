/** Authenticity over whole runs of the daemon: where the plaintexts it hands out come from. */
module Authenticity {
  import opened Bytes
  import opened Crypto
  import opened Daemon
  import opened Exactness
  import opened Interleaving
  import opened Linearizability
  import opened Providers
  import Frames
  import Gcm
  import Wire

  predicate SameMaterial(a: KeyHandle, b: KeyHandle) {
    a.algo == b.algo && a.material == b.material
  }

  /** Request `i` was carried out with `key`: it stood in the key cell at the request's place in the log. */
  ghost predicate UsedKey(c: Gcm.Cipher, run: seq<Event>, i: nat, key: KeyHandle) {
    i < |End(c, run).tasks| &&
    exists j: nat :: StandsAt(LogOf(c, run), i, End(c, run).tasks[i].req, j) && CellAt(c, run, j) == Some(key)
  }

  /** Task `k` is an encryption of the run that sealed a frame under the material of `key`. */
  ghost predicate SealedInRun(c: Gcm.Cipher, run: seq<Event>, k: nat, used: KeyHandle, key: KeyHandle) {
    && Finished(End(c, run), k) && End(c, run).tasks[k].req.Encrypt? && End(c, run).tasks[k].pc.resp.Ciphertext?
    && UsedKey(c, run, k, used) && SameMaterial(used, key)
  }

  function OpOf(used: KeyHandle, req: Request): Frames.SealOp
    requires req.Encrypt?
  {
    Frames.FrameOp(used.id, 0, req.nonce, req.plaintext)
  }

  /** Neither the run's encryptions under this material, nor the seals listed besides, nor a self-test made
      the AEAD produce the tuple that the frame consists of. */
  ghost predicate RunForgery(c: Gcm.Cipher, run: seq<Event>, key: KeyHandle, others: seq<Frames.SealOp>,
                             frame: seq<byte>)
    requires |frame| >= 40
  {
    && (forall k: nat, used :: SealedInRun(c, run, k, used, key) ==>
          Frames.Forgery(c, Provider(Ring, key.algo), key, [OpOf(used, End(c, run).tasks[k].req)], frame))
    && Frames.Forgery(c, Provider(Ring, key.algo), key, others + [Frames.SelfTestOp], frame)
  }

  /** The frame is, byte for byte, what an encryption of the run returned, for this plaintext. */
  ghost predicate ReturnedInRun(c: Gcm.Cipher, run: seq<Event>, key: KeyHandle, frame: seq<byte>, pt: seq<byte>) {
    exists k: nat, used :: SealedInRun(c, run, k, used, key)
      && End(c, run).tasks[k].pc.resp == Ciphertext(frame) && End(c, run).tasks[k].req.plaintext == pt
  }

  predicate SealedBy(c: Gcm.Cipher, key: KeyHandle, op: Frames.SealOp, frame: seq<byte>, pt: seq<byte>) {
    op.FrameOp? && op.pt == pt
    && Wire.SealFrame(c, Provider(Ring, key.algo), key, op.keyId, op.nonce, op.flags, op.pt) == Ok(frame)
  }

  /** The frame is that of one of the other seals, for this plaintext. */
  predicate ListedSeal(c: Gcm.Cipher, key: KeyHandle, others: seq<Frames.SealOp>, frame: seq<byte>, pt: seq<byte>) {
    exists n :: 0 <= n < |others| && SealedBy(c, key, others[n], frame, pt)
  }

  lemma PlaintextOpened(c: Gcm.Cipher, run: seq<Event>, i: nat) returns (key: KeyHandle)
    requires Finished(End(c, run), i) && End(c, run).tasks[i].req.Decrypt? && End(c, run).tasks[i].pc.resp.Plaintext?
    ensures var t := End(c, run).tasks[i];
      && UsedKey(c, run, i, key)
      && Wire.OpenFrame(c, Provider(Ring, key.algo), key, t.req.frame, |t.req.frame|) == Ok(t.pc.resp.bytes)
  {
    var t := End(c, run).tasks[i];
    var j := Linearizable(c, run, i);
    DecisiveAnswersExact(c, CellAt(c, run, j), t.req, t.pc.resp);
    key := CellAt(c, run, j).value;
  }

  lemma CiphertextSealed(c: Gcm.Cipher, run: seq<Event>, k: nat, used: KeyHandle, key: KeyHandle)
    requires SealedInRun(c, run, k, used, key)
    ensures var t := End(c, run).tasks[k];
      Wire.SealFrame(c, Provider(Ring, key.algo), key, used.id, t.req.nonce, 0, t.req.plaintext) == Ok(t.pc.resp.bytes)
  {
    var t := End(c, run).tasks[k];
    var j: nat :| StandsAt(LogOf(c, run), k, t.req, j) && CellAt(c, run, j) == Some(used);
    var j' := Linearizable(c, run, k);
    DecisiveAnswersExact(c, CellAt(c, run, j), t.req, t.pc.resp);
  }

  /** One seal against one accepted frame. */
  lemma OneSeal(c: Gcm.Cipher, key: KeyHandle, op: Frames.SealOp, frame: seq<byte>, pt: seq<byte>)
    requires Wire.OpenFrame(c, Provider(Ring, key.algo), key, frame, |frame|) == Ok(pt)
    ensures |frame| >= 40
    ensures !Frames.Forgery(c, Provider(Ring, key.algo), key, [op], frame) <==> SealedBy(c, key, op, frame, pt)
  {
    var p := Provider(Ring, key.algo);
    Frames.AcceptedFrameIsAuthentic(c, p, key, [op], frame, |frame|);
    if SealedBy(c, key, op, frame, pt) {
      assert [op][0] == op;
    }
    if op.FrameOp? && Wire.SealFrame(c, p, key, op.keyId, op.nonce, op.flags, op.pt) == Ok(frame) {
      Wire.SealFrameSucceeds(c, p, key, op.keyId, op.nonce, op.flags, op.pt);
      Frames.FrameRoundTrip(c, p, key, op.keyId, op.nonce, op.flags, op.pt, p, key, |frame|);
    }
  }

  lemma ListedSeals(c: Gcm.Cipher, key: KeyHandle, others: seq<Frames.SealOp>, frame: seq<byte>, pt: seq<byte>)
    requires Wire.OpenFrame(c, Provider(Ring, key.algo), key, frame, |frame|) == Ok(pt) && |frame| >= 40
    ensures !Frames.Forgery(c, Provider(Ring, key.algo), key, others + [Frames.SelfTestOp], frame)
            <==> ListedSeal(c, key, others, frame, pt)
  {
    var ops := others + [Frames.SelfTestOp];
    forall n | 0 <= n < |ops|
      ensures Frames.Forgery(c, Provider(Ring, key.algo), key, [ops[n]], frame)
              <==> !SealedBy(c, key, ops[n], frame, pt)
    {
      OneSeal(c, key, ops[n], frame, pt);
    }
    ForgeryOneByOne(c, key, ops, frame);
    assert forall n :: 0 <= n < |others| ==> ops[n] == others[n];
  }

  lemma ForgeryOneByOne(c: Gcm.Cipher, key: KeyHandle, ops: seq<Frames.SealOp>, frame: seq<byte>)
    requires |frame| >= 40
    ensures var p := Provider(Ring, key.algo);
      Frames.Forgery(c, p, key, ops, frame)
      <==> forall n :: 0 <= n < |ops| ==> Frames.Forgery(c, p, key, [ops[n]], frame)
  {
    forall n | 0 <= n < |ops|
      ensures var p, split := Provider(Ring, key.algo), Frames.Sealed(frame[12..24], frame[..12], frame[24..]);
        Frames.Forgery(c, p, key, [ops[n]], frame) <==> Frames.Produced(c, p, key, ops[n]) != Some(split)
    {
      assert [ops[n]][0] == ops[n];
    }
  }

  lemma RunSeals(c: Gcm.Cipher, run: seq<Event>, key: KeyHandle, frame: seq<byte>, pt: seq<byte>)
    requires Wire.OpenFrame(c, Provider(Ring, key.algo), key, frame, |frame|) == Ok(pt) && |frame| >= 40
    ensures (exists k: nat, used :: SealedInRun(c, run, k, used, key)
              && !Frames.Forgery(c, Provider(Ring, key.algo), key, [OpOf(used, End(c, run).tasks[k].req)], frame))
            <==> ReturnedInRun(c, run, key, frame, pt)
  {
    forall k: nat, used | SealedInRun(c, run, k, used, key)
      ensures Frames.Forgery(c, Provider(Ring, key.algo), key, [OpOf(used, End(c, run).tasks[k].req)], frame)
              <==> !(End(c, run).tasks[k].pc.resp == Ciphertext(frame) && End(c, run).tasks[k].req.plaintext == pt)
    {
      var t := End(c, run).tasks[k];
      CiphertextSealed(c, run, k, used, key);
      OneSeal(c, key, OpOf(used, t.req), frame, pt);
      if t.pc.resp == Ciphertext(frame) {
        Wire.SealFrameSucceeds(c, Provider(Ring, key.algo), key, used.id, t.req.nonce, 0, t.req.plaintext);
      }
    }
  }

  /** Every plaintext the daemon hands out in any interleaving comes from a frame that an encryption of the
      same run returned under the same material for that very plaintext, or that one of the other listed
      seals made; or else the frame is a forgery against the AEAD. And never both. */
  lemma PlaintextsAuthentic(c: Gcm.Cipher, run: seq<Event>, i: nat, others: seq<Frames.SealOp>) returns (key: KeyHandle)
    requires Finished(End(c, run), i) && End(c, run).tasks[i].req.Decrypt? && End(c, run).tasks[i].pc.resp.Plaintext?
    ensures UsedKey(c, run, i, key) && |End(c, run).tasks[i].req.frame| >= 40
    ensures var t := End(c, run).tasks[i];
      !RunForgery(c, run, key, others, t.req.frame)
      <==> ReturnedInRun(c, run, key, t.req.frame, t.pc.resp.bytes)
           || ListedSeal(c, key, others, t.req.frame, t.pc.resp.bytes)
  {
    var t := End(c, run).tasks[i];
    key := PlaintextOpened(c, run, i);
    OneSeal(c, key, Frames.SelfTestOp, t.req.frame, t.pc.resp.bytes);
    RunSeals(c, run, key, t.req.frame, t.pc.resp.bytes);
    ListedSeals(c, key, others, t.req.frame, t.pc.resp.bytes);
  }
}
