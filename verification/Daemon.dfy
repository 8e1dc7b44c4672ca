/** The crypto daemon's state and its request handlers, run one request at a time.
    `Serve` says what a request does to the daemon's three cells and three counters. */
module Daemon {
  import opened Bytes
  import opened Buffers
  import opened Crypto
  import opened Providers
  import Frames
  import Gcm
  import Wire

  datatype Request =
    | GetStatus
    | SetPolicy(blob: seq<byte>)
    | RotateKey(keyId: u32, algo: byte, material: seq<byte>)
    | Encrypt(nonce: seq<byte>, aad: seq<byte>, plaintext: seq<byte>)
    | Decrypt(frame: seq<byte>)

  /** What an error message is formatted from; the wording itself is not modelled. */
  datatype Cause =
    | BadJson
    | UnknownAlgorithm(id: byte)
    | NoSuchProvider(error: CryptoError)
    | NotImplemented
    | BadKey(error: CryptoError)
    | SelfTestFailed
    | NoActiveKey
    | BadNonce(got: nat, want: nat, algo: AlgoId)
    | SealFailed(wire: Wire.WireError)
    | OpenFailed(wire: Wire.WireError)

  datatype StatusReport = StatusReport(
    uptime: u64, activeProvider: AlgoId, activeKeyId: Option<u32>,
    packetsSealed: u64, packetsOpened: u64, cryptoErrors: u64)

  datatype Response =
    | Status(report: StatusReport)
    | Ack
    | Ciphertext(bytes: seq<byte>)
    | Plaintext(bytes: seq<byte>)
    | Error(code: nat, cause: Cause)

  datatype Cells = Cells(
    provider: Provider, algo: AlgoId, key: Option<KeyHandle>, packetsSealed: u64, packetsOpened: u64, cryptoErrors: u64)

  const INITIAL := Cells(Provider(Ring, Aes256Gcm), Aes256Gcm, None, 0, 0, 0)

  /** The relaxed 64-bit `fetch_add(1)`. */
  function Next(n: u64): u64 {
    (n + 1) % WRAP
  }

  /** The counter an answered `Encrypt` or `Decrypt` moves, if any. */
  function Count(cells: Cells, resp: Response): Cells {
    match resp
    case Ciphertext(_) => cells.(packetsSealed := Next(cells.packetsSealed))
    case Plaintext(_) => cells.(packetsOpened := Next(cells.packetsOpened))
    case Error(_, SealFailed(_)) => cells.(cryptoErrors := Next(cells.cryptoErrors))
    case Error(_, OpenFailed(_)) => cells.(cryptoErrors := Next(cells.cryptoErrors))
    case _ => cells
  }

  // ---- the answers ----

  function EncryptAnswer(c: Gcm.Cipher, p: Provider, key: KeyHandle, nonce: seq<byte>, plaintext: seq<byte>): Response {
    if |nonce| != p.algo.NonceLen() then Error(422, BadNonce(|nonce|, p.algo.NonceLen(), p.algo))
    else match Wire.SealFrame(c, p, key, key.id, nonce, 0, plaintext)
      case Ok(frame) => Ciphertext(frame)
      case Err(e) => Error(500, SealFailed(e))
  }

  function OpenReply(r: Result<seq<byte>, Wire.WireError>): Response {
    match r
    case Ok(pt) => Plaintext(pt)
    case Err(e) => Error(if e == Wire.Crypto(AuthFailed) then 401 else 422, OpenFailed(e))
  }

  function DecryptAnswer(c: Gcm.Cipher, p: Provider, key: KeyHandle, frame: seq<byte>): Response {
    OpenReply(Wire.OpenFrame(c, p, key, frame, |frame|))
  }

  /** The provider seals `pt` with empty AAD and opens the result to `pt` again. */
  predicate RoundTrips(c: Gcm.Cipher, p: Provider, key: KeyHandle, nonce: seq<byte>, pt: seq<byte>)
    requires |nonce| == Gcm.NONCE_LEN
  {
    && SealVerdict(p, key, nonce, [], pt, |pt| + p.algo.TagLen()).Ok?
    && var sealed := Gcm.Seal(c, key.material, nonce, [], pt).value;
    && OpenVerdict(c, p, key, nonce, [], sealed, |pt|).Ok?
    && Gcm.Open(c, key.material, nonce, [], sealed) == Some(pt)
  }

  predicate SelfTestPasses(c: Gcm.Cipher, p: Provider, key: KeyHandle) {
    RoundTrips(c, p, key, Frames.ZERO_NONCE, Frames.SELF_TEST)
  }

  /** What a key rotation decides before it touches any cell. */
  function Prepare(c: Gcm.Cipher, keyId: u32, id: byte, material: seq<byte>): Result<KeyHandle, Response> {
    match FromByte(id)
    case None => Err(Error(422, UnknownAlgorithm(id)))
    case Some(OzDst1105) => Err(Error(501, NotImplemented))
    case Some(algo) =>
      match New(Ring, algo)
      case Err(e) => Err(Error(500, NoSuchProvider(e)))
      case Ok(p) =>
        match NewKey(keyId, algo, material)
        case Err(e) => Err(Error(422, BadKey(e)))
        case Ok(key) => if SelfTestPasses(c, p, key) then Ok(key) else Err(Error(500, SelfTestFailed))
  }

  function Serve(c: Gcm.Cipher, cells: Cells, req: Request, clock: u64): (Cells, Response) {
    match req
    case GetStatus =>
      var id := if cells.key.Some? then Some(cells.key.value.id) else None;
      (cells, Status(StatusReport(clock, cells.algo, id, cells.packetsSealed, cells.packetsOpened, cells.cryptoErrors)))
    case SetPolicy(_) => (cells, Ack)
    case RotateKey(keyId, id, material) =>
      (match Prepare(c, keyId, id, material)
       case Err(resp) => (cells, resp)
       case Ok(key) => (cells.(provider := Provider(Ring, key.algo), algo := key.algo, key := Some(key)), Ack))
    case Encrypt(nonce, _, plaintext) =>
      if cells.key.None? then (cells, Error(409, NoActiveKey))
      else var resp := EncryptAnswer(c, cells.provider, cells.key.value, nonce, plaintext); (Count(cells, resp), resp)
    case Decrypt(frame) =>
      if cells.key.None? then (cells, Error(409, NoActiveKey))
      else var resp := DecryptAnswer(c, cells.provider, cells.key.value, frame); (Count(cells, resp), resp)
  }

  /** A response of the kind that belongs to the request, or an error. */
  predicate RightKind(req: Request, resp: Response) {
    || resp.Error?
    || match req
       case GetStatus => resp.Status?
       case SetPolicy(_) => resp.Ack?
       case RotateKey(_, _, _) => resp.Ack?
       case Encrypt(_, _, _) => resp.Ciphertext?
       case Decrypt(_) => resp.Plaintext?
  }

  // ---- the handlers ----

  /** Seals into a vector of exactly the frame's size. */
  method SealToVec(c: Gcm.Cipher, p: Provider, key: KeyHandle, nonce: seq<byte>, plaintext: seq<byte>)
    returns (r: Result<seq<byte>, Wire.WireError>)
    requires |nonce| == p.algo.NonceLen()
    ensures r == Wire.SealFrame(c, p, key, key.id, nonce, 0, plaintext)
  {
    var need := Wire.FrameLen(|plaintext|, |nonce|, p.algo.TagLen());
    var out := new byte[need](_ => 0);
    var n := Wire.Seal(c, p, key, key.id, nonce, 0, plaintext, out);
    if n.Err? { return Err(n.error); }
    Wire.SealFrameSucceeds(c, p, key, key.id, nonce, 0, plaintext);
    ghost var frame := Wire.SealFrame(c, p, key, key.id, nonce, 0, plaintext).value;
    DeliveredPrefix(seq(need, _ => 0), out[..], n.value, Some(frame));
    assert out[..] == out[..n.value];
    return Ok(out[..]);
  }

  /** Opens into a vector as long as the frame, then truncates it to the plaintext. */
  method OpenToVec(c: Gcm.Cipher, p: Provider, key: KeyHandle, frame: seq<byte>)
    returns (r: Result<seq<byte>, Wire.WireError>)
    ensures r == Wire.OpenFrame(c, p, key, frame, |frame|)
  {
    var out := new byte[|frame|](_ => 0);
    var n := Wire.Open(c, p, key, frame, out);
    if n.Err? { return Err(n.error); }
    ghost var pt := Wire.OpenFrame(c, p, key, frame, |frame|).value;
    DeliveredPrefix(seq(|frame|, _ => 0), out[..], n.value, Some(pt));
    return Ok(out[..n.value]);
  }

  /** The sealing half of the self-test: seals `pt` with empty AAD into a vector that just fits. */
  method SealTest(c: Gcm.Cipher, p: Provider, key: KeyHandle, nonce: seq<byte>, pt: seq<byte>)
    returns (r: Option<seq<byte>>)
    requires |nonce| == Gcm.NONCE_LEN
    ensures r.Some? <==> SealVerdict(p, key, nonce, [], pt, |pt| + p.algo.TagLen()).Ok?
    ensures r.Some? ==> r == Gcm.Seal(c, key.material, nonce, [], pt)
  {
    var sealed := new byte[|pt| + p.algo.TagLen()](_ => 0);
    var n := Providers.Seal(c, p, key, nonce, [], pt, sealed, 0, sealed.Length);
    if n.Err? { return None; }
    DeliveredPrefix(seq(sealed.Length, _ => 0), sealed[..], n.value, Gcm.Seal(c, key.material, nonce, [], pt));
    return Some(sealed[..n.value]);
  }

  /** The opening half: does `body` open to `pt` in a buffer of just that size? */
  method OpenTest(c: Gcm.Cipher, p: Provider, key: KeyHandle, nonce: seq<byte>, body: seq<byte>, pt: seq<byte>)
    returns (ok: bool)
    requires |nonce| == Gcm.NONCE_LEN && |body| == |pt| + Gcm.TAG_LEN
    ensures ok == (OpenVerdict(c, p, key, nonce, [], body, |pt|).Ok?
                   && Gcm.Open(c, key.material, nonce, [], body) == Some(pt))
  {
    var back := new byte[|pt|](_ => 0);
    var m := Providers.Open(c, p, key, nonce, [], body, back);
    if m.Err? { return false; }
    DeliveredPrefix(seq(|pt|, _ => 0), back[..], m.value, Gcm.Open(c, key.material, nonce, [], body));
    assert back[..] == back[..|pt|];
    return back[..] == pt;
  }

  class CryptodState {
    var provider: Provider
    var activeAlgo: AlgoId
    var activeKey: Option<KeyHandle>
    var packetsSealed: u64
    var packetsOpened: u64
    var cryptoErrors: u64

    function View(): Cells
      reads this
    {
      Cells(provider, activeAlgo, activeKey, packetsSealed, packetsOpened, cryptoErrors)
    }

    constructor ()
      ensures View() == INITIAL
    {
      provider, activeAlgo, activeKey := Provider(Ring, Aes256Gcm), Aes256Gcm, None;
      packetsSealed, packetsOpened, cryptoErrors := 0, 0, 0;
    }

    method HandleEncrypt(c: Gcm.Cipher, nonce: seq<byte>, plaintext: seq<byte>) returns (resp: Response)
      modifies this`packetsSealed, this`cryptoErrors
      ensures (View(), resp) == Serve(c, old(View()), Encrypt(nonce, [], plaintext), 0)
    {
      if activeKey.None? { return Error(409, NoActiveKey); }
      var key := activeKey.value;
      var algo := provider.algo;
      if |nonce| != algo.NonceLen() { return Error(422, BadNonce(|nonce|, algo.NonceLen(), algo)); }
      var frame := SealToVec(c, provider, key, nonce, plaintext);
      match frame
      case Ok(out) =>
        packetsSealed := Next(packetsSealed);
        return Ciphertext(out);
      case Err(e) =>
        cryptoErrors := Next(cryptoErrors);
        return Error(500, SealFailed(e));
    }

    /** The end of `HandleDecrypt`: the counter, and the code for the error. */
    method ReplyOpened(pt: Result<seq<byte>, Wire.WireError>) returns (resp: Response)
      modifies this`packetsOpened, this`cryptoErrors
      ensures resp == OpenReply(pt) && View() == Count(old(View()), resp)
    {
      match pt
      case Ok(out) =>
        packetsOpened := Next(packetsOpened);
        return Plaintext(out);
      case Err(e) =>
        cryptoErrors := Next(cryptoErrors);
        return Error(if e == Wire.Crypto(AuthFailed) then 401 else 422, OpenFailed(e));
    }

    method HandleDecrypt(c: Gcm.Cipher, frame: seq<byte>) returns (resp: Response)
      modifies this`packetsOpened, this`cryptoErrors
      ensures (View(), resp) == Serve(c, old(View()), Decrypt(frame), 0)
    {
      if activeKey.None? { return Error(409, NoActiveKey); }
      var key := activeKey.value;
      var pt := OpenToVec(c, provider, key, frame);
      resp := ReplyOpened(pt);
    }

    static method SelfTest(c: Gcm.Cipher, p: Provider, key: KeyHandle) returns (ok: bool)
      ensures ok == SelfTestPasses(c, p, key)
    {
      var sealed := SealTest(c, p, key, Frames.ZERO_NONCE, Frames.SELF_TEST);
      if sealed.None? { return false; }
      ok := OpenTest(c, p, key, Frames.ZERO_NONCE, sealed.value, Frames.SELF_TEST);
    }

    method HandleRotate(c: Gcm.Cipher, keyId: u32, id: byte, material: seq<byte>) returns (resp: Response)
      modifies this`provider, this`activeAlgo, this`activeKey
      ensures (View(), resp) == Serve(c, old(View()), RotateKey(keyId, id, material), 0)
    {
      var newAlgo := FromByte(id);
      if newAlgo.None? { return Error(422, UnknownAlgorithm(id)); }
      if newAlgo.value == OzDst1105 { return Error(501, NotImplemented); }
      var newProvider := New(Ring, newAlgo.value);
      if newProvider.Err? { assert false; }
      var newKey := NewKey(keyId, newAlgo.value, material);
      if newKey.Err? { return Error(422, BadKey(newKey.error)); }
      var ok := SelfTest(c, newProvider.value, newKey.value);
      if !ok { return Error(500, SelfTestFailed); }
      provider := newProvider.value;
      activeAlgo := newAlgo.value;
      activeKey := Some(newKey.value);
      return Ack;
    }

    method Handle(c: Gcm.Cipher, req: Request, clock: u64) returns (resp: Response)
      modifies this
      ensures (View(), resp) == Serve(c, old(View()), req, clock)
    {
      match req
      case GetStatus =>
        var id := if activeKey.Some? then Some(activeKey.value.id) else None;
        resp := Status(StatusReport(clock, activeAlgo, id, packetsSealed, packetsOpened, cryptoErrors));
      case SetPolicy(_) => resp := Ack;
      case RotateKey(keyId, id, material) => resp := HandleRotate(c, keyId, id, material);
      case Encrypt(nonce, _, plaintext) => resp := HandleEncrypt(c, nonce, plaintext);
      case Decrypt(frame) => resp := HandleDecrypt(c, frame);
    }
  }

  // ---- exact verdicts ----

  lemma WellFormedKeysPassSelfTest(c: Gcm.Cipher, p: Provider, key: KeyHandle)
    requires key.WellFormed() && key.algo == p.algo
    ensures SelfTestPasses(c, p, key)
  {
    var sealed := Gcm.Seal(c, key.material, Frames.ZERO_NONCE, [], Frames.SELF_TEST).value;
    Gcm.SealOpenInverse(c, key.material, Frames.ZERO_NONCE, [], Frames.SELF_TEST, sealed);
  }

  /** A rotation is accepted exactly for the two AES algorithms with material of the right length;
      otherwise it is 501 for O'z DSt 1105 and 422 for everything else, and never 500. */
  lemma RotationVerdictExact(c: Gcm.Cipher, keyId: u32, id: byte, material: seq<byte>)
    ensures var r := Prepare(c, keyId, id, material);
      && (r.Ok? <==> (id == 0x01 && |material| == 16) || (id == 0x02 && |material| == 32))
      && (r.Ok? ==> r.value.WellFormed() && r.value.id == keyId && r.value.material == material
                    && r.value.algo.ToByte() == id && r.value.algo != OzDst1105)
      && (r.Err? ==> r.error.Error? && r.error.code == if id == 0x10 then 501 else 422)
  {
    if id == 0x01 || id == 0x02 {
      var algo := FromByte(id).value;
      if |material| == algo.KeyLen() {
        WellFormedKeysPassSelfTest(c, Provider(Ring, algo), KeyHandle(keyId, algo, material));
      }
    }
  }

  /** Taken alone, a rotation is all or nothing: all three cells or none, and never a counter. */
  lemma RotationAllOrNothing(c: Gcm.Cipher, cells: Cells, keyId: u32, id: byte, material: seq<byte>, clock: u64)
    ensures var (after, resp) := Serve(c, cells, RotateKey(keyId, id, material), clock);
      && (resp.Ack? || (resp.Error? && after == cells))
      && (resp.Ack? ==> exists key: KeyHandle ::
            key.WellFormed() && key.id == keyId && key.material == material && key.algo.ToByte() == id
            && after == cells.(provider := Provider(Ring, key.algo), algo := key.algo, key := Some(key)))
      && after.packetsSealed == cells.packetsSealed && after.packetsOpened == cells.packetsOpened
      && after.cryptoErrors == cells.cryptoErrors
  {
    RotationVerdictExact(c, keyId, id, material);
  }

  /** The daemon's verdict on a plaintext: the frame exactly when the nonce has twelve bytes, the key is
      whole and of the provider's algorithm and the plaintext is within the limit; 422 exactly when the
      nonce does not have twelve bytes; 500 otherwise. */
  lemma EncryptVerdictExact(c: Gcm.Cipher, p: Provider, key: KeyHandle, nonce: seq<byte>, plaintext: seq<byte>)
    ensures var resp := EncryptAnswer(c, p, key, nonce, plaintext);
      && (resp.Ciphertext? <==>
            |nonce| == 12 && key.algo == p.algo && key.WellFormed() && |plaintext| <= 0xF_FFFF_FFE1)
      && (resp.Ciphertext? ==>
            && |resp.bytes| == |plaintext| + 40
            && resp.bytes[12..24] == nonce
            && Frames.AeadAnswer(c, key, resp.bytes) == Some(plaintext))
      && (resp == Error(422, BadNonce(|nonce|, 12, p.algo)) <==> |nonce| != 12)
      && (resp.Error? && resp.code == 422 <==> |nonce| != 12)
      && (resp.Ciphertext? || (resp.Error? && resp.code in {422, 500}))
  {
    Wire.SealFrameSucceeds(c, p, key, key.id, nonce, 0, plaintext);
    if EncryptAnswer(c, p, key, nonce, plaintext).Ciphertext? {
      EncryptedFrame(c, p, key, nonce, plaintext);
    }
  }

  lemma EncryptedFrame(c: Gcm.Cipher, p: Provider, key: KeyHandle, nonce: seq<byte>, plaintext: seq<byte>)
    requires EncryptAnswer(c, p, key, nonce, plaintext).Ciphertext?
    ensures var frame := EncryptAnswer(c, p, key, nonce, plaintext).bytes;
      && |frame| == |plaintext| + 40 && frame[12..24] == nonce && Frames.AeadAnswer(c, key, frame) == Some(plaintext)
  {
    var frame := EncryptAnswer(c, p, key, nonce, plaintext).bytes;
    Wire.SealFrameSucceeds(c, p, key, key.id, nonce, 0, plaintext);
    Frames.FrameRoundTrip(c, p, key, key.id, nonce, 0, plaintext, p, key, |frame|);
    Frames.OpenVerdictExact(c, p, key, frame);
  }

  /** The header of what `Encrypt` returns: version 1, no flags, the provider's algorithm, the key's id. */
  lemma EncryptedHeader(c: Gcm.Cipher, p: Provider, key: KeyHandle, nonce: seq<byte>, plaintext: seq<byte>,
                        f: seq<byte>)
    requires EncryptAnswer(c, p, key, nonce, plaintext) == Ciphertext(f)
    ensures |f| >= 40
    ensures f[0] == 0x41 && f[1] == 0x43 && f[2] == 1 && f[3] == 0 && f[8] == p.algo.ToByte() && f[9] == 12
    ensures f[10] == 0 && f[11] == 0 && Word(f[4], f[5], f[6], f[7]) == key.id
  {
    var h := Wire.SealHeader(p, key.id, 0);
    Wire.SealFrameSucceeds(c, p, key, key.id, nonce, 0, plaintext);
    Wire.HeaderLayout(h);
    var s := Wire.HeaderBytes(h);
    assert f[..12] == s;
    assert forall k :: 0 <= k < 12 ==> f[k] == f[..12][k] == s[k];
  }

  /** Which counter an `Encrypt` or `Decrypt` moves, in terms of the request: sealed packets with a
      ciphertext, opened ones with a plaintext, errors with a 500, a 401, or a decrypt's 422; none without
      a key or with a bad nonce; and nothing else ever changes. */
  lemma CountersServed(c: Gcm.Cipher, cells: Cells, req: Request, clock: u64)
    requires req.Encrypt? || req.Decrypt?
    ensures var (after, resp) := Serve(c, cells, req, clock);
      && (cells.key.None? ==> after == cells && resp == Error(409, NoActiveKey))
      && (cells.key.Some? && req.Encrypt? && |req.nonce| != 12 ==> after == cells && resp.Error? && resp.code == 422)
      && (cells.key.Some? && (req.Encrypt? ==> |req.nonce| == 12) ==>
            if req.Encrypt? && resp.Ciphertext? then
              after == cells.(packetsSealed := (cells.packetsSealed + 1) % 0x1_0000_0000_0000_0000)
            else if req.Decrypt? && resp.Plaintext? then
              after == cells.(packetsOpened := (cells.packetsOpened + 1) % 0x1_0000_0000_0000_0000)
            else
              && after == cells.(cryptoErrors := (cells.cryptoErrors + 1) % 0x1_0000_0000_0000_0000)
              && resp.Error? && (if req.Encrypt? then resp.code == 500 else resp.code in {401, 422}))
  {
    if cells.key.Some? && req.Encrypt? {
      EncryptVerdictExact(c, cells.provider, cells.key.value, req.nonce, req.plaintext);
    }
  }

  /** The daemon's verdict on a frame when a key is active and provider and key agree or not:
      401 exactly when a properly addressed frame's tag does not verify, success with 40 bytes
      less than the frame exactly when it does, and 422 for everything else. */
  lemma DecryptVerdictExact(c: Gcm.Cipher, p: Provider, key: KeyHandle, frame: seq<byte>)
    requires key.WellFormed()
    ensures var resp := DecryptAnswer(c, p, key, frame);
      var addressed := Frames.Addressed(p, frame) && key.algo == p.algo;
      && (resp.Plaintext? <==> addressed && Frames.AeadAnswer(c, key, frame).Some?)
      && (resp.Plaintext? ==> |resp.bytes| == |frame| - 40 && Frames.AeadAnswer(c, key, frame) == Some(resp.bytes))
      && (resp.Error? && resp.code == 401 <==> addressed && Frames.AeadAnswer(c, key, frame).None?)
      && (resp.Plaintext? || (resp.Error? && resp.code in {401, 422}))
  {
    Frames.OpenVerdictExact(c, p, key, frame);
  }

  /** A frame that is decrypted, altered in its header (still addressed to the provider) or its ciphertext
      but not in nonce and tag, is answered 401 unless GHASH collides on the two different inputs. */
  lemma AlteredFrameRefused(c: Gcm.Cipher, p: Provider, key: KeyHandle, frame: seq<byte>, altered: seq<byte>)
    requires key.WellFormed() && DecryptAnswer(c, p, key, frame).Plaintext?
    requires altered != frame && Frames.Addressed(p, altered) && |altered| <= 40 + Gcm.P_MAX
    ensures |frame| >= 40
    ensures altered[12..24] == frame[12..24] && Frames.TagOf(altered) == Frames.TagOf(frame) ==>
      var resp := DecryptAnswer(c, p, key, altered);
      && Frames.HashInput(altered) != Frames.HashInput(frame)
      && (resp.Error? && resp.code == 401 <==> Frames.FrameHash(c, key, altered) != Frames.FrameHash(c, key, frame))
  {
    DecryptVerdictExact(c, p, key, frame);
    DecryptVerdictExact(c, p, key, altered);
    if altered[12..24] == frame[12..24] {
      Frames.AlteredFrame(c, key, frame, altered);
    }
  }

  /** The AAD a caller passes is ignored: the header is the only associated data. */
  lemma CallerAadIgnored(c: Gcm.Cipher, cells: Cells, nonce: seq<byte>, aad: seq<byte>, other: seq<byte>,
                         plaintext: seq<byte>, clock: u64)
    ensures Serve(c, cells, Encrypt(nonce, aad, plaintext), clock)
         == Serve(c, cells, Encrypt(nonce, other, plaintext), clock)
  {
  }

  /** Encrypt then decrypt, with the same key material active both times, gives the plaintext back. */
  lemma EncryptDecryptRoundTrip(c: Gcm.Cipher, p: Provider, key: KeyHandle, q: Provider, opener: KeyHandle,
                                nonce: seq<byte>, plaintext: seq<byte>)
    requires q.algo == p.algo && opener.algo == key.algo && opener.material == key.material
    requires EncryptAnswer(c, p, key, nonce, plaintext).Ciphertext?
    ensures DecryptAnswer(c, q, opener, EncryptAnswer(c, p, key, nonce, plaintext).bytes) == Plaintext(plaintext)
  {
    var frame := EncryptAnswer(c, p, key, nonce, plaintext).bytes;
    Wire.SealFrameSucceeds(c, p, key, key.id, nonce, 0, plaintext);
    Frames.FrameRoundTrip(c, p, key, key.id, nonce, 0, plaintext, q, opener, |frame|);
  }
}
