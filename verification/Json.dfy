/** JSON (RFC 8259) as far as the control protocol uses it: one compact line per message, with
    objects, strings (section 7), natural numbers, booleans and null. */
module Json {
  import opened Bytes
  import Decimal
  import Hex

  datatype Value =
    | Null
    | Bool(b: bool)
    | Num(n: nat)
    | Str(s: string)
    | Obj(fields: seq<Field>)

  datatype Field = Field(key: string, value: Value)

  // ---- strings ----

  function Escape(ch: char): string {
    if ch == '"' then ['\\', '"']
    else if ch == '\\' then ['\\', '\\']
    else if ch as int == 8 then ['\\', 'b']
    else if ch as int == 9 then ['\\', 't']
    else if ch as int == 10 then ['\\', 'n']
    else if ch as int == 12 then ['\\', 'f']
    else if ch as int == 13 then ['\\', 'r']
    else if ch < ' ' then ['\\', 'u', '0', '0', Hex.DigitOf(ch as int / 16), Hex.DigitOf(ch as int % 16)]
    else [ch]
  }

  function EscapeAll(s: string): string {
    if s == [] then [] else Escape(s[0]) + EscapeAll(s[1..])
  }

  function Quote(s: string): string {
    ['"'] + EscapeAll(s) + ['"']
  }

  /** One character of a string body, escaped or not, and what follows it. */
  function Unescape(s: string): (r: Option<(char, string)>)
    requires s != []
    ensures r.Some? ==> |r.value.1| < |s|
  {
    if s[0] != '\\' then if s[0] < ' ' then None else Some((s[0], s[1..]))
    else if |s| < 2 then None
    else match s[1]
      case '"' => Some(('"', s[2..]))
      case '\\' => Some(('\\', s[2..]))
      case '/' => Some(('/', s[2..]))
      case 'b' => Some((8 as char, s[2..]))
      case 't' => Some((9 as char, s[2..]))
      case 'n' => Some((10 as char, s[2..]))
      case 'f' => Some((12 as char, s[2..]))
      case 'r' => Some((13 as char, s[2..]))
      case 'u' =>
        if |s| < 6 then None
        else (match (Hex.ValueOf(s[2]), Hex.ValueOf(s[3]), Hex.ValueOf(s[4]), Hex.ValueOf(s[5]))
              case (Some(a), Some(b), Some(c), Some(d)) =>
                var v: int := 0x100 * Hex.Pair(a, b) + Hex.Pair(c, d);
                if v < 0xD800 then Some((v as char, s[6..])) else None
              case _ => None)
      case _ => None
  }

  /** What each escape stands for: the eight of one character, and four hexadecimal digits below the
      surrogates; a raw control character is refused. */
  lemma UnescapeExact(s: string)
    requires s != []
    ensures s[0] != '\\' ==> Unescape(s) == if s[0] as int < 32 then None else Some((s[0], s[1..]))
    ensures s[0] == '\\' && |s| >= 2 && s[1] != 'u' ==>
      match s[1]
      case '"' => Unescape(s) == Some(('"', s[2..]))
      case '\\' => Unescape(s) == Some(('\\', s[2..]))
      case '/' => Unescape(s) == Some(('/', s[2..]))
      case 'b' => Unescape(s) == Some((8 as char, s[2..]))
      case 't' => Unescape(s) == Some(('\t', s[2..]))
      case 'n' => Unescape(s) == Some(('\n', s[2..]))
      case 'f' => Unescape(s) == Some((12 as char, s[2..]))
      case 'r' => Unescape(s) == Some(('\r', s[2..]))
      case _ => Unescape(s) == None
  {
  }

  /** Four hexadecimal digits of either case, the most significant first. */
  lemma FourDigits(s: string, p: Hex.nibble, q: Hex.nibble, r: Hex.nibble, t: Hex.nibble)
    requires |s| >= 6 && s[0] == '\\' && s[1] == 'u'
    requires Hex.Lower(s[2]) == Hex.DIGITS[p] && Hex.Lower(s[3]) == Hex.DIGITS[q]
    requires Hex.Lower(s[4]) == Hex.DIGITS[r] && Hex.Lower(s[5]) == Hex.DIGITS[t]
    ensures var v: int := 4096 * (p as int) + 256 * (q as int) + 16 * (r as int) + t;
      Unescape(s) == if v < 0xD800 then Some((v as char, s[6..])) else None
  {
    Hex.DigitExact(s[2], p);
    Hex.DigitExact(s[3], q);
    Hex.DigitExact(s[4], r);
    Hex.DigitExact(s[5], t);
  }

  /** The rest of a string after its opening quote, and what follows the closing one. */
  function Unquote(s: string): (r: Option<(string, string)>)
    ensures r.Some? ==> |r.value.1| < |s|
    decreases |s|
  {
    if s == [] then None
    else if s[0] == '"' then Some(([], s[1..]))
    else match Unescape(s)
      case None => None
      case Some((ch, more)) =>
        match Unquote(more)
        case None => None
        case Some((str, rest)) => Some(([ch] + str, rest))
  }

  lemma UnescapeEscape(ch: char, rest: string)
    ensures Unescape(Escape(ch) + rest) == Some((ch, rest)) && (Escape(ch) + rest)[0] != '"'
  {
    var s := Escape(ch) + rest;
    assert s[|Escape(ch)|..] == rest;
    assert |Escape(ch)| == 1 ==> s[1..] == rest;
    assert |Escape(ch)| == 2 ==> s[2..] == rest;
    assert |Escape(ch)| == 6 ==> s[6..] == rest;
  }

  lemma CloseQuote(first: string, body: string, rest: string)
    ensures (first + body) + ['"'] + rest == first + (body + ['"'] + rest)
    ensures ([] + ['"'] + rest)[0] == '"' && ([] + ['"'] + rest)[1..] == rest
    ensures ((['"'] + body + ['"']) + rest)[0] == '"' && ((['"'] + body + ['"']) + rest)[1..] == body + ['"'] + rest
  {
  }

  lemma {:induction false} UnquoteEscapeAll(s: string, rest: string)
    ensures Unquote(EscapeAll(s) + ['"'] + rest) == Some((s, rest))
  {
    if s == [] {
      CloseQuote([], [], rest);
    } else {
      var tail := EscapeAll(s[1..]) + ['"'] + rest;
      CloseQuote(Escape(s[0]), EscapeAll(s[1..]), rest);
      UnescapeEscape(s[0], tail);
      UnquoteEscapeAll(s[1..], rest);
      assert s == [s[0]] + s[1..];
    }
  }

  // ---- values ----

  const NULL: string := ['n', 'u', 'l', 'l']
  const TRUE: string := ['t', 'r', 'u', 'e']
  const FALSE: string := ['f', 'a', 'l', 's', 'e']

  function Print(v: Value): string
    decreases v, 1
  {
    match v
    case Null => NULL
    case Bool(b) => if b then TRUE else FALSE
    case Num(n) => Decimal.Print(n)
    case Str(s) => Quote(s)
    case Obj(fields) => ['{'] + (if fields == [] then [] else PrintFields(fields)) + ['}']
  }

  function PrintFields(fields: seq<Field>): string
    requires fields != []
    decreases fields, 0
  {
    Quote(fields[0].key) + ([':'] + (Print(fields[0].value) +
      (if |fields| == 1 then [] else [','] + PrintFields(fields[1..]))))
  }

  function Parse(s: string): (r: Option<(Value, string)>)
    ensures r.Some? ==> |r.value.1| < |s|
    decreases |s|, 1
  {
    if s == [] then None
    else if s[0] == 'n' then if NULL <= s then Some((Null, s[4..])) else None
    else if s[0] == 't' then if TRUE <= s then Some((Bool(true), s[4..])) else None
    else if s[0] == 'f' then if FALSE <= s then Some((Bool(false), s[5..])) else None
    else if Decimal.IsDigit(s[0]) then Some((Num(Decimal.Read(s, 0).0), Decimal.Read(s, 0).1))
    else if s[0] == '"' then
      (match Unquote(s[1..]) case None => None case Some((str, rest)) => Some((Str(str), rest)))
    else if s[0] == '{' && |s| >= 2 && s[1] == '}' then Some((Obj([]), s[2..]))
    else if s[0] == '{' then
      (match ParseFields(s[1..]) case None => None case Some((fields, rest)) => Some((Obj(fields), rest)))
    else None
  }

  /** The fields of an object up to and including its closing brace. */
  function ParseFields(s: string): (r: Option<(seq<Field>, string)>)
    ensures r.Some? ==> |r.value.1| < |s|
    decreases |s|, 0
  {
    if s == [] || s[0] != '"' then None
    else match Unquote(s[1..])
      case None => None
      case Some((key, s1)) =>
        if s1 == [] || s1[0] != ':' then None
        else match Parse(s1[1..])
          case None => None
          case Some((value, s2)) =>
            if s2 == [] then None
            else if s2[0] == '}' then Some(([Field(key, value)], s2[1..]))
            else if s2[0] != ',' then None
            else match ParseFields(s2[1..])
              case None => None
              case Some((more, rest)) => Some(([Field(key, value)] + more, rest))
  }

  // ---- round trip ----

  predicate NoDigit(rest: string) {
    rest == [] || !Decimal.IsDigit(rest[0])
  }

  lemma ParsePrintWord(v: Value, rest: string)
    requires v.Null? || v.Bool?
    ensures Parse(Print(v) + rest) == Some((v, rest))
  {
    var s := Print(v) + rest;
    assert s[|Print(v)|..] == rest && Print(v) <= s;
  }

  lemma ParsePrintNum(n: nat, rest: string)
    requires NoDigit(rest)
    ensures Parse(Decimal.Print(n) + rest) == Some((Num(n), rest))
  {
    Decimal.ReadPrint(n, rest);
    assert (Decimal.Print(n) + rest)[0] == Decimal.Print(n)[0];
  }

  lemma ParsePrintStr(t: string, rest: string)
    ensures Parse(Quote(t) + rest) == Some((Str(t), rest))
  {
    CloseQuote([], EscapeAll(t), rest);
    UnquoteEscapeAll(t, rest);
  }

  lemma ParsePrintLeaf(v: Value, rest: string)
    requires NoDigit(rest) && !v.Obj?
    ensures Parse(Print(v) + rest) == Some((v, rest))
  {
    match v
    case Num(n) => ParsePrintNum(n, rest);
    case Str(t) => ParsePrintStr(t, rest);
    case _ => ParsePrintWord(v, rest);
  }

  lemma ParseObject(s: string, fields: seq<Field>, rest: string)
    requires |s| >= 2 && s[0] == '{'
    requires if fields == [] then s[1] == '}' && s[2..] == rest
             else s[1] != '}' && ParseFields(s[1..]) == Some((fields, rest))
    ensures Parse(s) == Some((Obj(fields), rest))
  {
  }

  /** One key and value, once their parts are known to parse. */
  lemma ParseField(s: string, key: string, s1: string, value: Value, s2: string)
    requires s != [] && s[0] == '"' && Unquote(s[1..]) == Some((key, s1))
    requires s1 != [] && s1[0] == ':' && Parse(s1[1..]) == Some((value, s2)) && s2 != []
    ensures s2[0] == '}' ==> ParseFields(s) == Some(([Field(key, value)], s2[1..]))
    ensures s2[0] == ',' && ParseFields(s2[1..]).Some? ==>
              ParseFields(s) == Some(([Field(key, value)] + ParseFields(s2[1..]).value.0, ParseFields(s2[1..]).value.1))
  {
  }

  lemma FirstField(key: string, value: Value, s2: string)
    requires s2 != [] && Parse(Print(value) + s2) == Some((value, s2))
    ensures var s := Quote(key) + ([':'] + (Print(value) + s2));
      && s[0] == '"'
      && (s2[0] == '}' ==> ParseFields(s) == Some(([Field(key, value)], s2[1..])))
      && (s2[0] == ',' && ParseFields(s2[1..]).Some? ==>
            ParseFields(s) == Some(([Field(key, value)] + ParseFields(s2[1..]).value.0, ParseFields(s2[1..]).value.1)))
  {
    var s1 := [':'] + (Print(value) + s2);
    var s := Quote(key) + s1;
    CloseQuote([], EscapeAll(key), s1);
    UnquoteEscapeAll(key, s1);
    assert s1[1..] == Print(value) + s2;
    ParseField(s, key, s1, value, s2);
  }

  lemma Regroup(q: string, v: string, more: string, close: string)
    ensures (q + ([':'] + (v + more))) + close == q + ([':'] + (v + (more + close)))
    ensures ([','] + more) + close == [','] + (more + close) && ([','] + more)[1..] == more
    ensures (['{'] + more + ['}']) + close == ['{'] + (more + (['}'] + close)) && (['{'] + more)[1..] == more
    ensures [] + close == close
  {
  }

  lemma {:induction false} ParsePrint(v: Value, rest: string)
    requires NoDigit(rest)
    ensures Parse(Print(v) + rest) == Some((v, rest))
    decreases v, 1
  {
    if !v.Obj? {
      ParsePrintLeaf(v, rest);
    } else if v.fields == [] {
      assert (Print(v) + rest)[2..] == rest;
      ParseObject(Print(v) + rest, [], rest);
    } else {
      var inner := PrintFields(v.fields);
      ParsePrintFields(v.fields, rest);
      Regroup([], [], inner, rest);
      Regroup([], [], inner + (['}'] + rest), []);
      ParseObject(['{'] + (inner + (['}'] + rest)), v.fields, rest);
    }
  }

  /** What follows the first value of an object that closes before `rest`. */
  function AfterFirst(fields: seq<Field>, rest: string): (s: string)
    requires fields != []
    ensures s != [] && NoDigit(s)
  {
    if |fields| == 1 then ['}'] + rest else [','] + (PrintFields(fields[1..]) + (['}'] + rest))
  }

  lemma PrintFirst(fields: seq<Field>, rest: string)
    requires fields != []
    ensures PrintFields(fields) + (['}'] + rest)
         == Quote(fields[0].key) + ([':'] + (Print(fields[0].value) + AfterFirst(fields, rest)))
  {
    var more := if |fields| == 1 then [] else [','] + PrintFields(fields[1..]);
    Regroup(Quote(fields[0].key), Print(fields[0].value), more, ['}'] + rest);
    if |fields| > 1 {
      Regroup([], [], PrintFields(fields[1..]), ['}'] + rest);
    } else {
      Regroup([], [], [], ['}'] + rest);
    }
  }

  lemma {:induction false} ParsePrintFields(fields: seq<Field>, rest: string)
    requires fields != []
    ensures var s := PrintFields(fields) + (['}'] + rest); ParseFields(s) == Some((fields, rest)) && s[0] == '"'
    decreases fields, 0
  {
    var f, s2 := fields[0], AfterFirst(fields, rest);
    PrintFirst(fields, rest);
    ParsePrint(f.value, s2);
    FirstField(f.key, f.value, s2);
    if |fields| == 1 {
      assert s2[1..] == rest && fields == [f];
    } else {
      ParsePrintFields(fields[1..], rest);
      assert s2[1..] == PrintFields(fields[1..]) + (['}'] + rest);
      assert fields == [f] + fields[1..];
    }
  }

  // ---- one line ----

  lemma {:induction false} EscapedOneLine(s: string)
    ensures '\n' !in EscapeAll(s)
  {
    if s != [] {
      EscapedOneLine(s[1..]);
      assert '\n' !in Escape(s[0]);
    }
  }

  /** A printed value contains no newline, whatever its strings contain. */
  lemma {:induction false} PrintedOneLine(v: Value)
    ensures '\n' !in Print(v)
    decreases v, 1
  {
    match v
    case Str(s) => EscapedOneLine(s);
    case Obj(fields) => if fields != [] { FieldsOneLine(fields); }
    case Num(n) =>
      forall i | 0 <= i < |Print(v)| ensures Print(v)[i] != '\n' {
        assert Decimal.IsDigit(Print(v)[i]);
      }
    case _ =>
  }

  lemma {:induction false} FieldsOneLine(fields: seq<Field>)
    requires fields != []
    ensures '\n' !in PrintFields(fields)
    decreases fields, 0
  {
    EscapedOneLine(fields[0].key);
    PrintedOneLine(fields[0].value);
    if |fields| > 1 {
      FieldsOneLine(fields[1..]);
    }
  }
}
