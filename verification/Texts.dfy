/** The messages of the control protocol character by character. */
module Texts {
  import opened Bytes
  import opened Crypto
  import opened Daemon
  import opened Envelopes
  import opened Json
  import Base64
  import Decimal

  // ---- how values print ----

  predicate Plain(s: string) {
    forall i :: 0 <= i < |s| ==> s[i] >= ' ' && s[i] != '"' && s[i] != '\\'
  }

  lemma {:induction false} PlainQuote(s: string)
    requires Plain(s)
    ensures EscapeAll(s) == s && Quote(s) == "\"" + s + "\""
  {
    if s != [] {
      PlainQuote(s[1..]);
      assert s == [s[0]] + s[1..];
    }
  }

  /** One key and the text of its value. */
  function Pair(key: string, text: string): string {
    "\"" + key + "\"" + ":" + text
  }

  function Separated(members: seq<string>): string {
    if members == [] then "" else if |members| == 1 then members[0] else members[0] + "," + Separated(members[1..])
  }

  function Members(fields: seq<Field>): (members: seq<string>)
    ensures |members| == |fields|
  {
    if fields == [] then [] else [Pair(fields[0].key, Print(fields[0].value))] + Members(fields[1..])
  }

  lemma Commas(q: string, p: string, more: string)
    ensures q + ([':'] + (p + ([','] + more))) == q + ":" + p + "," + more
    ensures q + ([':'] + (p + [])) == q + ":" + p
  {
  }

  lemma FirstText(fields: seq<Field>)
    requires fields != [] && Plain(fields[0].key)
    ensures var first := Pair(fields[0].key, Print(fields[0].value));
      PrintFields(fields) == if |fields| == 1 then first else first + "," + PrintFields(fields[1..])
  {
    PlainQuote(fields[0].key);
    Commas(Quote(fields[0].key), Print(fields[0].value), if |fields| == 1 then [] else PrintFields(fields[1..]));
  }

  lemma {:induction false} FieldsText(fields: seq<Field>)
    requires fields != [] && forall i :: 0 <= i < |fields| ==> Plain(fields[i].key)
    ensures PrintFields(fields) == Separated(Members(fields))
  {
    FirstText(fields);
    if |fields| > 1 {
      FieldsText(fields[1..]);
      assert Members(fields)[1..] == Members(fields[1..]);
    }
  }

  function Braced(members: seq<string>): string {
    "{" + Separated(members) + "}"
  }

  lemma ObjectText(fields: seq<Field>)
    requires fields != [] && forall i :: 0 <= i < |fields| ==> Plain(fields[i].key)
    ensures Print(Obj(fields)) == Braced(Members(fields))
  {
    FieldsText(fields);
  }

  // ---- the messages ----

  lemma {:induction false} Base64Plain(b: seq<byte>)
    ensures Plain(Base64.Encode(b))
    decreases |b|
  {
    if b != [] {
      var n := if |b| < 3 then |b| else 3;
      Base64Plain(b[n..]);
      assert Plain(Base64.GroupOf(b[..n]));
    }
  }

  function Quoted(s: string): string {
    "\"" + s + "\""
  }

  /** A byte string in a message: base64 in quotes, or `null` for a nil slice. */
  function BytesText(b: Slice): string {
    if b.None? then "null" else Quoted(Base64.Encode(b.value))
  }

  lemma SliceText(b: Slice)
    ensures Print(SliceValue(b)) == BytesText(b)
  {
    if b.Some? {
      Base64Plain(b.value);
      PlainQuote(Base64.Encode(b.value));
    }
  }

  /** The parameters of a request, in the order of the client's structures. */
  function ParamsText(r: GoRequest): seq<string> {
    match r
    case GoGetStatus => []
    case GoRotateKey(keyId, algo, material) =>
      [Pair("key_id", Decimal.Print(keyId))] + [Pair("algo", Decimal.Print(algo))]
      + [Pair("material", BytesText(material))]
    case GoEncrypt(nonce, aad, plaintext) =>
      [Pair("nonce", BytesText(nonce))]
      + (if aad.None? || aad.value == [] then [] else [Pair("aad", BytesText(aad))])
      + [Pair("plaintext", BytesText(plaintext))]
    case GoDecrypt(frame) => [Pair("frame", BytesText(frame))]
  }

  /** A request: its method and, unless it has none, its parameters. */
  function RequestTexts(r: GoRequest): seq<string> {
    match r
    case GoGetStatus => [Pair("method", Quoted("get_status"))]
    case GoRotateKey(_, _, _) => [Pair("method", Quoted("rotate_key"))] + [Pair("params", Braced(ParamsText(r)))]
    case GoEncrypt(_, _, _) => [Pair("method", Quoted("encrypt"))] + [Pair("params", Braced(ParamsText(r)))]
    case GoDecrypt(_) => [Pair("method", Quoted("decrypt"))] + [Pair("params", Braced(ParamsText(r)))]
  }

  /** Objects of one, two and three fields. */
  lemma PrintOne(a: Field)
    requires Plain(a.key)
    ensures Print(Obj([a])) == Braced([Pair(a.key, Print(a.value))])
  {
    assert Members([a]) == [Pair(a.key, Print(a.value))];
    ObjectText([a]);
  }

  lemma PrintTwo(a: Field, b: Field)
    requires Plain(a.key) && Plain(b.key)
    ensures Print(Obj([a] + [b])) == Braced([Pair(a.key, Print(a.value))] + [Pair(b.key, Print(b.value))])
  {
    var fields := [a] + [b];
    assert fields[1..] == [b];
    assert Members([b]) == [Pair(b.key, Print(b.value))];
    assert Members(fields) == [Pair(a.key, Print(a.value))] + [Pair(b.key, Print(b.value))];
    ObjectText(fields);
  }

  lemma PrintThree(a: Field, b: Field, c: Field)
    requires Plain(a.key) && Plain(b.key) && Plain(c.key)
    ensures Print(Obj([a] + [b] + [c]))
         == Braced([Pair(a.key, Print(a.value))] + [Pair(b.key, Print(b.value))] + [Pair(c.key, Print(c.value))])
  {
    var fields, rest := [a] + [b] + [c], [b] + [c];
    assert fields[1..] == rest && rest[1..] == [c];
    assert Members([c]) == [Pair(c.key, Print(c.value))];
    assert Members(rest) == [Pair(b.key, Print(b.value))] + [Pair(c.key, Print(c.value))];
    assert Members(fields)
        == [Pair(a.key, Print(a.value))] + [Pair(b.key, Print(b.value))] + [Pair(c.key, Print(c.value))];
    ObjectText(fields);
  }

  lemma PlainNames()
    ensures Plain("method") && Plain("params") && Plain("key_id") && Plain("algo") && Plain("material")
    ensures Plain("nonce") && Plain("aad") && Plain("plaintext") && Plain("frame")
    ensures Plain("get_status") && Plain("rotate_key") && Plain("encrypt") && Plain("decrypt")
  {
  }

  lemma RotateKeyText(keyId: u32, algo: byte, material: Slice)
    ensures var r := GoRotateKey(keyId, algo, material); Print(Obj(ParamsOf(r))) == Braced(ParamsText(r))
  {
    var a, b, c := Field("key_id", Num(keyId)), Field("algo", Num(algo)), Field("material", SliceValue(material));
    PlainNames();
    SliceText(material);
    PrintThree(a, b, c);
    assert ParamsOf(GoRotateKey(keyId, algo, material)) == [a] + [b] + [c];
  }

  lemma EncryptText(nonce: Slice, aad: Slice, plaintext: Slice)
    ensures var r := GoEncrypt(nonce, aad, plaintext); Print(Obj(ParamsOf(r))) == Braced(ParamsText(r))
  {
    var a, c := Field("nonce", SliceValue(nonce)), Field("plaintext", SliceValue(plaintext));
    PlainNames();
    SliceText(nonce);
    SliceText(plaintext);
    if aad.None? || aad.value == [] {
      PrintTwo(a, c);
      assert ParamsOf(GoEncrypt(nonce, aad, plaintext)) == [a] + [c];
    } else {
      SliceText(aad);
      PrintThree(a, Field("aad", SliceValue(aad)), c);
    }
  }

  lemma ParamsPrint(r: GoRequest)
    requires !r.GoGetStatus?
    ensures Print(Obj(ParamsOf(r))) == Braced(ParamsText(r))
  {
    match r
    case GoRotateKey(keyId, algo, material) => RotateKeyText(keyId, algo, material);
    case GoEncrypt(nonce, aad, plaintext) => EncryptText(nonce, aad, plaintext);
    case GoDecrypt(frame) =>
      PlainNames();
      SliceText(frame);
      PrintOne(Field("frame", SliceValue(frame)));
  }

  lemma MethodText(r: GoRequest)
    ensures Print(Str(MethodOf(r))) == Quoted(MethodOf(r))
  {
    PlainNames();
    PlainQuote(MethodOf(r));
  }

  lemma CallText(r: GoRequest)
    requires !r.GoGetStatus?
    ensures Print(Obj(GoEnvelope(r)))
         == Braced([Pair("method", Quoted(MethodOf(r)))] + [Pair("params", Braced(ParamsText(r)))])
  {
    MethodText(r);
    ParamsPrint(r);
    PlainNames();
    PrintTwo(Field("method", Str(MethodOf(r))), Field("params", Obj(ParamsOf(r))));
  }

  lemma NameText(key: string, name: string)
    requires Plain(key) && Plain(name)
    ensures Print(Obj([Field(key, Str(name))])) == Braced([Pair(key, Quoted(name))])
  {
    PlainQuote(name);
    PrintOne(Field(key, Str(name)));
  }

  lemma StatusCallText()
    ensures Print(Obj(GoEnvelope(GoGetStatus))) == Braced(RequestTexts(GoGetStatus))
  {
    NameText("method", "get_status");
    assert GoEnvelope(GoGetStatus) == [Field("method", Str("get_status"))];
  }

  lemma RequestMembers(r: GoRequest)
    requires !r.GoGetStatus?
    ensures RequestTexts(r) == [Pair("method", Quoted(MethodOf(r)))] + [Pair("params", Braced(ParamsText(r)))]
  {
  }

  /** What the client writes for each request, to the character. */
  lemma RequestText(r: GoRequest)
    ensures ToLine(Obj(GoEnvelope(r))) == Braced(RequestTexts(r)) + "\n"
  {
    if r.GoGetStatus? {
      StatusCallText();
    } else {
      CallText(r);
      RequestMembers(r);
    }
  }

  /** The report in a status response, in the order of the server's structure. */
  function ReportTexts(version: string, r: StatusReport): seq<string> {
    [Pair("version", Quote(version)), Pair("running", "true"), Pair("uptime_s", Decimal.Print(r.uptime)),
     Pair("active_provider", Quoted(match r.activeProvider
       case Aes128Gcm => "ring/aes-128-gcm"
       case Aes256Gcm => "ring/aes-256-gcm"
       case OzDst1105 => "ring/ozdst1105")),
     Pair("active_key_id", if r.activeKeyId.None? then "null" else Decimal.Print(r.activeKeyId.value)),
     Pair("packets_sealed", Decimal.Print(r.packetsSealed)), Pair("packets_opened", Decimal.Print(r.packetsOpened)),
     Pair("crypto_errors", Decimal.Print(r.cryptoErrors))]
  }

  function DataTexts(version: string, wording: Cause -> string, resp: Response): seq<string> {
    match resp
    case Status(r) => ReportTexts(version, r)
    case Ack => []
    case Ciphertext(b) => [Pair("bytes", BytesText(Some(b)))]
    case Plaintext(b) => [Pair("bytes", BytesText(Some(b)))]
    case Error(code, cause) => [Pair("code", Decimal.Print(code))] + [Pair("message", Quote(wording(cause)))]
  }

  /** A response: its kind and, unless it is a bare acknowledgement, its data. */
  function ResponseTexts(version: string, wording: Cause -> string, resp: Response): seq<string> {
    var data := Pair("data", Braced(DataTexts(version, wording, resp)));
    match resp
    case Status(_) => [Pair("result", Quoted("status"))] + [data]
    case Ack => [Pair("result", Quoted("ok"))]
    case Ciphertext(_) => [Pair("result", Quoted("ciphertext"))] + [data]
    case Plaintext(_) => [Pair("result", Quoted("plaintext"))] + [data]
    case Error(_, _) => [Pair("result", Quoted("error"))] + [data]
  }

  lemma {:induction false} MembersAt(fields: seq<Field>, texts: seq<string>)
    requires |texts| == |fields|
    requires forall i :: 0 <= i < |fields| ==> texts[i] == Pair(fields[i].key, Print(fields[i].value))
    ensures Members(fields) == texts
  {
    if fields != [] {
      MembersAt(fields[1..], texts[1..]);
      assert texts == [texts[0]] + texts[1..];
    }
  }

  lemma PlainReport()
    ensures Plain("version") && Plain("running") && Plain("uptime_s") && Plain("active_provider")
    ensures Plain("active_key_id") && Plain("packets_sealed") && Plain("packets_opened") && Plain("crypto_errors")
  {
  }

  lemma PlainProviders(a: AlgoId)
    ensures Plain(ProviderName(a))
  {
  }

  lemma PlainData()
    ensures Plain("result") && Plain("data") && Plain("bytes") && Plain("code") && Plain("message")
    ensures Plain("status") && Plain("ok") && Plain("ciphertext") && Plain("plaintext") && Plain("error")
  {
  }

  lemma ReportMembers(version: string, r: StatusReport)
    ensures Members(ReportFields(version, r)) == ReportTexts(version, r)
  {
    PlainProviders(r.activeProvider);
    PlainQuote(ProviderName(r.activeProvider));
    MembersAt(ReportFields(version, r), ReportTexts(version, r));
  }

  lemma ReportText(version: string, r: StatusReport)
    ensures Print(Obj(ReportFields(version, r))) == Braced(ReportTexts(version, r))
  {
    PlainReport();
    ReportMembers(version, r);
    ObjectText(ReportFields(version, r));
  }

  lemma DataText(version: string, wording: Cause -> string, resp: Response)
    requires !resp.Ack?
    ensures Print(Obj(DataOf(version, wording, resp))) == Braced(DataTexts(version, wording, resp))
  {
    PlainData();
    match resp
    case Status(r) => ReportText(version, r);
    case Ciphertext(b) => SliceText(Some(b)); PrintOne(Field("bytes", SliceValue(Some(b))));
    case Plaintext(b) => SliceText(Some(b)); PrintOne(Field("bytes", SliceValue(Some(b))));
    case Error(code, cause) =>
      PrintTwo(Field("code", Num(code)), Field("message", Str(wording(cause))));
      assert DataOf(version, wording, resp) == [Field("code", Num(code))] + [Field("message", Str(wording(cause)))];
  }

  lemma KindText(resp: Response)
    ensures Print(Str(TagOf(resp))) == Quoted(TagOf(resp))
  {
    PlainData();
    PlainQuote(TagOf(resp));
  }

  lemma PayloadText(version: string, wording: Cause -> string, resp: Response)
    requires !resp.Ack?
    ensures Print(Obj(RustEnvelope(version, wording, resp)))
         == Braced([Pair("result", Quoted(TagOf(resp)))] + [Pair("data", Braced(DataTexts(version, wording, resp)))])
  {
    KindText(resp);
    DataText(version, wording, resp);
    PlainData();
    PrintTwo(Field("result", Str(TagOf(resp))), Field("data", Obj(DataOf(version, wording, resp))));
  }

  /** What the server writes for each response, to the character. */
  lemma ResponseText(version: string, wording: Cause -> string, resp: Response)
    ensures ToLine(Obj(RustEnvelope(version, wording, resp))) == Braced(ResponseTexts(version, wording, resp)) + "\n"
  {
    if resp.Ack? {
      PlainData();
      NameText("result", "ok");
      assert RustEnvelope(version, wording, resp) == [Field("result", Str("ok"))];
    } else {
      PayloadText(version, wording, resp);
    }
  }
}
