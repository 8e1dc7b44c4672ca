/** The tagged envelopes of the control protocol, as the Go client and the Rust server each print
    and read them: what one side builds is what the other side understands. */
module Envelopes {
  import opened Bytes
  import opened Crypto
  import opened Daemon
  import opened Json
  import opened Whitespace
  import Base64

  // ---- lines ----

  /** A line as either side writes it, and the value in a line as either side reads it. */
  function ToLine(v: Value): string {
    Print(v) + "\n"
  }

  function FromLine(line: string): Option<Value> {
    match Parse(TrimRight(TrimLeft(line)))
    case Some((v, rest)) => if rest == [] then Some(v) else None
    case None => None
  }

  lemma LineRoundTrip(fields: seq<Field>)
    ensures FromLine(ToLine(Obj(fields))) == Some(Obj(fields))
  {
    var s := Print(Obj(fields));
    assert s[0] == '{' && s[|s| - 1] == '}';
    TrimBlanks(s);
    ParsePrint(Obj(fields), []);
    assert s + [] == s;
  }

  /** Blanks around a message do not matter: a carriage return before the newline, for instance. */
  lemma BlanksAround(pre: string, fields: seq<Field>, post: string)
    requires Blank(pre) && Blank(post)
    ensures FromLine(pre + Print(Obj(fields)) + post) == Some(Obj(fields))
  {
    var s := Print(Obj(fields));
    assert s[0] == '{' && s[|s| - 1] == '}';
    TrimAround(pre, s, post);
    ParsePrint(Obj(fields), []);
    assert s + [] == s;
  }

  /** A blank line holds no value. */
  lemma BlankLine(line: string)
    requires forall i :: 0 <= i < |line| ==> IsSpace(line[i])
    ensures FromLine(line) == None
  {
    if line != [] {
      BlankLine(line[1..]);
      assert TrimLeft(line) == TrimLeft(line[1..]);
    }
  }

  // ---- fields ----

  /** The value of a key that occurs exactly once. */
  function Get(fields: seq<Field>, key: string): Option<Value> {
    if fields == [] then None
    else if fields[0].key == key then if Has(fields[1..], key) then None else Some(fields[0].value)
    else Get(fields[1..], key)
  }

  predicate Has(fields: seq<Field>, key: string) {
    exists i :: 0 <= i < |fields| && fields[i].key == key
  }

  predicate DistinctKeys(fields: seq<Field>) {
    forall i, j :: 0 <= i < j < |fields| ==> fields[i].key != fields[j].key
  }

  /** A key has a value exactly when it stands in one field and in no other; a repeated key has none. */
  lemma {:induction false} GetExact(fields: seq<Field>, key: string, value: Value)
    ensures Get(fields, key) == Some(value) <==>
      exists i :: 0 <= i < |fields| && fields[i] == Field(key, value)
                  && forall j :: 0 <= j < |fields| && j != i ==> fields[j].key != key
  {
    if fields != [] {
      var rest := fields[1..];
      GetExact(rest, key, value);
      assert forall j :: 0 <= j < |rest| ==> rest[j] == fields[j + 1];
      if Get(fields, key) == Some(value) {
        if fields[0].key == key {
          assert forall j :: 1 <= j < |fields| ==> fields[j] == rest[j - 1];
        } else {
          var i :| 0 <= i < |rest| && rest[i] == Field(key, value)
                   && forall j :: 0 <= j < |rest| && j != i ==> rest[j].key != key;
          assert forall j :: 0 <= j < |fields| && j != i + 1 ==> j == 0 || fields[j] == rest[j - 1];
          assert fields[i + 1] == Field(key, value);
        }
      }
      if i :| 0 <= i < |fields| && fields[i] == Field(key, value)
              && forall j :: 0 <= j < |fields| && j != i ==> fields[j].key != key {
        if i > 0 {
          assert rest[i - 1] == Field(key, value);
        }
      }
    }
  }

  lemma {:induction false} GetAt(fields: seq<Field>, i: nat)
    requires DistinctKeys(fields) && i < |fields|
    ensures Get(fields, fields[i].key) == Some(fields[i].value)
  {
    if i > 0 {
      GetAt(fields[1..], i - 1);
    }
  }

  lemma {:induction false} GetAbsent(fields: seq<Field>, key: string)
    requires forall i :: 0 <= i < |fields| ==> fields[i].key != key
    ensures Get(fields, key) == None && !Has(fields, key)
  {
    if fields != [] {
      GetAbsent(fields[1..], key);
    }
  }

  function GetBytes(fields: seq<Field>, key: string): Option<seq<byte>> {
    match Get(fields, key)
    case Some(Str(s)) => Base64.Decode(s)
    case _ => None
  }

  function GetNum(fields: seq<Field>, key: string, bound: nat): Option<nat> {
    match Get(fields, key)
    case Some(Num(n)) => if n < bound then Some(n) else None
    case _ => None
  }

  // ---- requests: printed by Go, read by Rust ----

  /** A Go byte slice, which may be nil. */
  type Slice = Option<seq<byte>>

  datatype GoRequest =
    | GoGetStatus
    | GoRotateKey(keyId: u32, algo: byte, material: Slice)
    | GoEncrypt(nonce: Slice, aad: Slice, plaintext: Slice)
    | GoDecrypt(frame: Slice)

  function SliceValue(b: Slice): Value {
    match b case None => Null case Some(v) => Str(Base64.Encode(v))
  }

  function ParamsOf(r: GoRequest): seq<Field> {
    match r
    case GoGetStatus => []
    case GoRotateKey(keyId, algo, material) =>
      [Field("key_id", Num(keyId)), Field("algo", Num(algo)), Field("material", SliceValue(material))]
    case GoEncrypt(nonce, aad, plaintext) =>
      [Field("nonce", SliceValue(nonce))]
      + (if aad.None? || aad.value == [] then [] else [Field("aad", SliceValue(aad))])
      + [Field("plaintext", SliceValue(plaintext))]
    case GoDecrypt(frame) => [Field("frame", SliceValue(frame))]
  }

  function MethodOf(r: GoRequest): string {
    match r
    case GoGetStatus => "get_status"
    case GoRotateKey(_, _, _) => "rotate_key"
    case GoEncrypt(_, _, _) => "encrypt"
    case GoDecrypt(_) => "decrypt"
  }

  function GoEnvelope(r: GoRequest): seq<Field> {
    [Field("method", Str(MethodOf(r)))] + (if r.GoGetStatus? then [] else [Field("params", Obj(ParamsOf(r)))])
  }

  function ReadRotateKey(p: seq<Field>): Option<Request> {
    match (GetNum(p, "key_id", 0x1_0000_0000), GetNum(p, "algo", 0x100), GetBytes(p, "material"))
    case (Some(id), Some(algo), Some(m)) => var keyId: u32 := id; var a: byte := algo; Some(RotateKey(keyId, a, m))
    case _ => None
  }

  function ReadEncrypt(p: seq<Field>): Option<Request> {
    match (GetBytes(p, "nonce"), if Has(p, "aad") then GetBytes(p, "aad") else Some([]), GetBytes(p, "plaintext"))
    case (Some(nonce), Some(aad), Some(pt)) => Some(Encrypt(nonce, aad, pt))
    case _ => None
  }

  function ReadCall(name: string, p: seq<Field>): Option<Request> {
    if name == "rotate_key" then ReadRotateKey(p)
    else if name == "encrypt" then ReadEncrypt(p)
    else if name == "decrypt" then
      match GetBytes(p, "frame") case Some(frame) => Some(Decrypt(frame)) case None => None
    else None
  }

  /** What the server makes of an envelope; `None` is answered 400. */
  function ReadRequest(v: Value): Option<Request> {
    match v
    case Obj(fields) =>
      (match (Get(fields, "method"), Get(fields, "params"))
       case (Some(Str(name)), None) =>
         if name == "get_status" && !Has(fields, "params") then Some(GetStatus) else None
       case (Some(Str(name)), Some(Obj(p))) => ReadCall(name, p)
       case _ => None)
    case _ => None
  }

  function ServerReads(line: string): Option<Request> {
    match FromLine(line) case Some(v) => ReadRequest(v) case None => None
  }

  predicate NilWhereNeeded(r: GoRequest) {
    match r
    case GoGetStatus => false
    case GoRotateKey(_, _, material) => material.None?
    case GoEncrypt(nonce, _, plaintext) => nonce.None? || plaintext.None?
    case GoDecrypt(frame) => frame.None?
  }

  function Meant(r: GoRequest): Request
    requires !NilWhereNeeded(r)
  {
    match r
    case GoGetStatus => GetStatus
    case GoRotateKey(keyId, algo, material) => RotateKey(keyId, algo, material.value)
    case GoEncrypt(nonce, aad, plaintext) =>
      Encrypt(nonce.value, if aad.None? then [] else aad.value, plaintext.value)
    case GoDecrypt(frame) => Decrypt(frame.value)
  }

  lemma BytesCarried(fields: seq<Field>, key: string, b: Slice)
    requires Get(fields, key) == Some(SliceValue(b))
    ensures GetBytes(fields, key) == b
  {
    if b.Some? {
      Base64.Canonical(Base64.Encode(b.value), b.value);
    }
  }

  lemma EnvelopeFields(r: GoRequest)
    ensures var fields := GoEnvelope(r);
      && Get(fields, "method") == Some(Str(MethodOf(r)))
      && Get(fields, "params") == (if r.GoGetStatus? then None else Some(Obj(ParamsOf(r))))
      && (Has(fields, "params") <==> !r.GoGetStatus?)
  {
    var fields := GoEnvelope(r);
    GetAt(fields, 0);
    if r.GoGetStatus? {
      GetAbsent(fields, "params");
    } else {
      GetAt(fields, 1);
      assert fields[1].key == "params";
    }
  }

  lemma RotateKeyAgreement(keyId: u32, algo: byte, material: Slice)
    ensures ReadRotateKey(ParamsOf(GoRotateKey(keyId, algo, material)))
         == if material.None? then None else Some(RotateKey(keyId, algo, material.value))
  {
    var p := ParamsOf(GoRotateKey(keyId, algo, material));
    GetAt(p, 0);
    GetAt(p, 1);
    GetAt(p, 2);
    BytesCarried(p, "material", material);
  }

  lemma EncryptFields(nonce: Slice, aad: Slice, plaintext: Slice)
    ensures var p, given := ParamsOf(GoEncrypt(nonce, aad, plaintext)), aad.Some? && aad.value != [];
      && Get(p, "nonce") == Some(SliceValue(nonce)) && Get(p, "plaintext") == Some(SliceValue(plaintext))
      && (Has(p, "aad") <==> given) && (given ==> Get(p, "aad") == Some(SliceValue(aad)))
  {
    var p := ParamsOf(GoEncrypt(nonce, aad, plaintext));
    GetAt(p, 0);
    GetAt(p, |p| - 1);
    if |p| == 3 {
      GetAt(p, 1);
      assert p[1].key == "aad";
    } else {
      GetAbsent(p, "aad");
    }
  }

  lemma EncryptAgreement(nonce: Slice, aad: Slice, plaintext: Slice)
    ensures ReadEncrypt(ParamsOf(GoEncrypt(nonce, aad, plaintext)))
         == if nonce.None? || plaintext.None? then None
            else Some(Encrypt(nonce.value, if aad.None? then [] else aad.value, plaintext.value))
  {
    var p := ParamsOf(GoEncrypt(nonce, aad, plaintext));
    EncryptFields(nonce, aad, plaintext);
    BytesCarried(p, "nonce", nonce);
    BytesCarried(p, "plaintext", plaintext);
    if Has(p, "aad") {
      BytesCarried(p, "aad", aad);
    }
  }

  lemma CallAgreement(r: GoRequest)
    requires !r.GoGetStatus?
    ensures ReadCall(MethodOf(r), ParamsOf(r)) == if NilWhereNeeded(r) then None else Some(Meant(r))
  {
    match r
    case GoRotateKey(keyId, algo, material) => RotateKeyAgreement(keyId, algo, material);
    case GoEncrypt(nonce, aad, plaintext) => EncryptAgreement(nonce, aad, plaintext);
    case GoDecrypt(frame) =>
      GetAt(ParamsOf(r), 0);
      BytesCarried(ParamsOf(r), "frame", frame);
  }

  /** Every request the client builds is read by the server as the request that was meant, unless a
      required slice is nil: that prints as null and is answered 400. A nil or empty AAD is fine. */
  lemma RequestAgreement(r: GoRequest)
    ensures ServerReads(ToLine(Obj(GoEnvelope(r)))) == if NilWhereNeeded(r) then None else Some(Meant(r))
  {
    LineRoundTrip(GoEnvelope(r));
    EnvelopeFields(r);
    if !r.GoGetStatus? {
      CallAgreement(r);
    }
  }

  // ---- responses: printed by Rust, read by Go ----

  function ProviderName(algo: AlgoId): string {
    match algo
    case Aes128Gcm => "ring/aes-128-gcm"
    case Aes256Gcm => "ring/aes-256-gcm"
    case OzDst1105 => "ring/ozdst1105"
  }

  function IdValue(id: Option<u32>): Value {
    match id case None => Null case Some(n) => Num(n)
  }

  function ReportFields(version: string, r: StatusReport): seq<Field> {
    [Field("version", Str(version)), Field("running", Bool(true)), Field("uptime_s", Num(r.uptime)),
     Field("active_provider", Str(ProviderName(r.activeProvider))), Field("active_key_id", IdValue(r.activeKeyId)),
     Field("packets_sealed", Num(r.packetsSealed)), Field("packets_opened", Num(r.packetsOpened)),
     Field("crypto_errors", Num(r.cryptoErrors))]
  }

  function TagOf(resp: Response): string {
    match resp
    case Status(_) => "status"
    case Ack => "ok"
    case Ciphertext(_) => "ciphertext"
    case Plaintext(_) => "plaintext"
    case Error(_, _) => "error"
  }

  function DataOf(version: string, wording: Cause -> string, resp: Response): seq<Field> {
    match resp
    case Status(r) => ReportFields(version, r)
    case Ack => []
    case Ciphertext(b) => [Field("bytes", Str(Base64.Encode(b)))]
    case Plaintext(b) => [Field("bytes", Str(Base64.Encode(b)))]
    case Error(code, cause) => [Field("code", Num(code)), Field("message", Str(wording(cause)))]
  }

  /** The server's printer; `wording` turns the cause of an error into its message. */
  function RustEnvelope(version: string, wording: Cause -> string, resp: Response): seq<Field> {
    [Field("result", Str(TagOf(resp)))]
    + (if resp.Ack? then [] else [Field("data", Obj(DataOf(version, wording, resp)))])
  }

  datatype GoReport = GoReport(version: string, running: bool, uptime: nat, activeProvider: string,
                               activeKeyId: Option<nat>, packetsSealed: nat, packetsOpened: nat, cryptoErrors: nat)

  /** What a client method hands to its caller. */
  datatype GoResult =
    | GoStatus(report: GoReport)
    | GoBytes(bytes: seq<byte>)
    | GoNil
    | GoError(code: nat, message: string)
    | Unexpected
    | Undecodable

  /** Go's decoder leaves a field that is absent or null at its zero value. */
  function GoNum(fields: seq<Field>, key: string): nat {
    match Get(fields, key) case Some(Num(n)) => n case _ => 0
  }

  function GoStr(fields: seq<Field>, key: string): string {
    match Get(fields, key) case Some(Str(s)) => s case _ => ""
  }

  function ReadReport(d: seq<Field>): GoReport {
    GoReport(GoStr(d, "version"), Get(d, "running") == Some(Bool(true)), GoNum(d, "uptime_s"),
             GoStr(d, "active_provider"),
             match Get(d, "active_key_id") case Some(Num(n)) => Some(n) case _ => None,
             GoNum(d, "packets_sealed"), GoNum(d, "packets_opened"), GoNum(d, "crypto_errors"))
  }

  /** The kind of success each client method knows; anything else but an error is unexpected. */
  function ResultTag(r: GoRequest): string {
    match r
    case GoGetStatus => "status"
    case GoRotateKey(_, _, _) => "ok"
    case GoEncrypt(_, _, _) => "ciphertext"
    case GoDecrypt(_) => "plaintext"
  }

  function Judge(r: GoRequest, tag: string, data: seq<Field>): GoResult {
    if tag == "error" then GoError(GoNum(data, "code"), GoStr(data, "message"))
    else if tag != ResultTag(r) then Unexpected
    else match r
      case GoGetStatus => GoStatus(ReadReport(data))
      case GoRotateKey(_, _, _) => GoNil
      case _ => match GetBytes(data, "bytes") case Some(b) => GoBytes(b) case None => Undecodable
  }

  function ClientReads(r: GoRequest, line: string): GoResult {
    match FromLine(line)
    case Some(Obj(env)) =>
      var data := match Get(env, "data") case Some(Obj(d)) => d case _ => [];
      Judge(r, GoStr(env, "result"), data)
    case _ => Undecodable
  }

  /** The report a caller of the client sees for one the daemon made. */
  function Shown(version: string, r: StatusReport): GoReport {
    var id: Option<nat> := match r.activeKeyId case None => None case Some(n) => Some(n);
    GoReport(version, true, r.uptime, ProviderName(r.activeProvider), id,
             r.packetsSealed, r.packetsOpened, r.cryptoErrors)
  }

  function Delivered(version: string, wording: Cause -> string, resp: Response): GoResult {
    match resp
    case Status(r) => GoStatus(Shown(version, r))
    case Ack => GoNil
    case Ciphertext(b) => GoBytes(b)
    case Plaintext(b) => GoBytes(b)
    case Error(code, cause) => GoError(code, wording(cause))
  }

  lemma ReportAgreement(version: string, r: StatusReport)
    ensures ReadReport(ReportFields(version, r)) == Shown(version, r)
  {
    var d := ReportFields(version, r);
    GetAt(d, 0); GetAt(d, 1); GetAt(d, 2); GetAt(d, 3);
    GetAt(d, 4); GetAt(d, 5); GetAt(d, 6); GetAt(d, 7);
  }

  /** What the client makes of an envelope once its two fields are known. */
  lemma Dispatch(r: GoRequest, env: seq<Field>, tag: string, data: seq<Field>)
    requires Get(env, "result") == Some(Str(tag))
    requires Get(env, "data") == Some(Obj(data)) || (Get(env, "data") == None && data == [])
    ensures ClientReads(r, ToLine(Obj(env))) == Judge(r, tag, data)
  {
    LineRoundTrip(env);
  }

  lemma BytesAgreement(b: seq<byte>)
    ensures GetBytes([Field("bytes", Str(Base64.Encode(b)))], "bytes") == Some(b)
  {
    var d := [Field("bytes", Str(Base64.Encode(b)))];
    GetAt(d, 0);
    BytesCarried(d, "bytes", Some(b));
  }

  lemma ErrorAgreement(code: nat, message: string)
    ensures var d := [Field("code", Num(code)), Field("message", Str(message))];
      GoNum(d, "code") == code && GoStr(d, "message") == message
  {
    var d := [Field("code", Num(code)), Field("message", Str(message))];
    GetAt(d, 0);
    GetAt(d, 1);
  }

  /** A success of another kind than the call's is reported as unexpected, whatever it carries. */
  lemma WrongKindUnexpected(version: string, wording: Cause -> string, r: GoRequest, resp: Response)
    requires !NilWhereNeeded(r) && !RightKind(Meant(r), resp)
    ensures ClientReads(r, ToLine(Obj(RustEnvelope(version, wording, resp)))) == Unexpected
  {
    var env := RustEnvelope(version, wording, resp);
    GetAt(env, 0);
    if resp.Ack? {
      GetAbsent(env, "data");
    } else {
      GetAt(env, 1);
    }
    Dispatch(r, env, TagOf(resp), DataOf(version, wording, resp));
  }

  lemma PayloadAgreement(version: string, wording: Cause -> string, r: GoRequest, resp: Response)
    requires !NilWhereNeeded(r) && RightKind(Meant(r), resp)
    ensures Judge(r, TagOf(resp), DataOf(version, wording, resp)) == Delivered(version, wording, resp)
  {
    match resp
    case Status(report) => ReportAgreement(version, report);
    case Ack =>
    case Ciphertext(b) => BytesAgreement(b);
    case Plaintext(b) => BytesAgreement(b);
    case Error(code, cause) => ErrorAgreement(code, wording(cause));
  }

  /** Every response of the right kind reaches the caller with its whole payload, and the client's
      "unexpected response shape" branch is never taken. */
  lemma ResponseAgreement(version: string, wording: Cause -> string, r: GoRequest, resp: Response)
    requires !NilWhereNeeded(r) && RightKind(Meant(r), resp)
    ensures ClientReads(r, ToLine(Obj(RustEnvelope(version, wording, resp)))) == Delivered(version, wording, resp)
    ensures !Delivered(version, wording, resp).Unexpected? && !Delivered(version, wording, resp).Undecodable?
  {
    var env := RustEnvelope(version, wording, resp);
    GetAt(env, 0);
    if resp.Ack? {
      GetAbsent(env, "data");
    } else {
      GetAt(env, 1);
    }
    Dispatch(r, env, TagOf(resp), DataOf(version, wording, resp));
    PayloadAgreement(version, wording, r, resp);
  }
}
