/** A line that was cut short: no proper beginning of a printed message means anything, so a write
    that fails half way never executes part of a request. */
module Truncation {
  import opened Bytes
  import opened Envelopes
  import opened Json
  import opened Whitespace
  import Decimal

  lemma SplitCut(t: string, first: string, second: string)
    requires t < first + second
    ensures t < first || (first <= t && t == first + t[|first|..] && t[|first|..] < second)
  {
    if |t| < |first| {
      assert t == (first + second)[..|t|] == first[..|t|];
    } else {
      assert first == (first + second)[..|first|] == t[..|first|];
      assert t[|first|..] == (first + second)[|first|..|t|] == second[..|t| - |first|];
    }
  }

  lemma CutEscape(ch: char, t: string)
    requires t < Escape(ch) && t != []
    ensures t[0] != '"' && Unescape(t) == None
  {
    assert t[0] == Escape(ch)[0];
    if |t| >= 2 {
      assert t[1] == Escape(ch)[1];
    }
  }

  lemma {:induction false} CutString(s: string, t: string)
    requires t < EscapeAll(s) + ['"']
    ensures Unquote(t) == None
  {
    if s == [] {
      assert t == [];
    } else if t != [] {
      var rest := EscapeAll(s[1..]) + ['"'];
      assert EscapeAll(s) + ['"'] == Escape(s[0]) + rest;
      SplitCut(t, Escape(s[0]), rest);
      if t < Escape(s[0]) {
        CutEscape(s[0], t);
      } else {
        UnescapeEscape(s[0], t[|Escape(s[0])|..]);
        CutString(s[1..], t[|Escape(s[0])|..]);
      }
    }
  }

  lemma CutQuote(s: string, t: string)
    requires t < Quote(s) && t != []
    ensures t[0] == '"' && Unquote(t[1..]) == None
  {
    assert Quote(s) == ['"'] + (EscapeAll(s) + ['"']);
    SplitCut(t, ['"'], EscapeAll(s) + ['"']);
    CutString(s, t[1..]);
  }

  lemma {:induction false} ReadAllDigits(s: string, acc: nat)
    requires forall i :: 0 <= i < |s| ==> Decimal.IsDigit(s[i])
    ensures Decimal.Read(s, acc).1 == []
  {
    if s != [] {
      ReadAllDigits(s[1..], 10 * acc + (s[0] as int - 48));
    }
  }

  /** A cut value does not parse or, if it is a cut number, leaves nothing after it. */
  lemma CutLeaf(v: Value, t: string)
    requires !v.Obj? && t < Print(v)
    ensures Parse(t) == None || Parse(t).value.1 == []
  {
    if t != [] {
      assert t[0] == Print(v)[0];
      match v
      case Num(n) =>
        assert forall i :: 0 <= i < |t| ==> t[i] == Print(v)[i];
        ReadAllDigits(t, 0);
      case Str(s) => CutQuote(s, t);
      case _ =>
    }
  }

  lemma {:induction false} CutValue(v: Value, t: string)
    requires t < Print(v)
    ensures Parse(t) == None || (!v.Obj? && Parse(t).value.1 == [])
    decreases v, 1
  {
    if !v.Obj? {
      CutLeaf(v, t);
    } else if t != [] {
      assert t[0] == '{';
      if v.fields == [] {
        assert |t| == 1;
      } else {
        var inner := PrintFields(v.fields) + ['}'];
        assert Print(v) == ['{'] + inner;
        SplitCut(t, ['{'], inner);
        assert !(t < ['{']);
        assert inner[0] == '"';
        CutFields(v.fields, t[1..]);
      }
    }
  }

  /** What is left of an object after the key of its first field. */
  lemma CutAfterKey(fields: seq<Field>, t: string)
    requires fields != [] && t < [':'] + (Print(fields[0].value) + AfterFirst(fields, [])) && t != []
    ensures t[0] == ':'
    ensures Parse(t[1..]) == None || Parse(t[1..]).value.1 == []
         || (Parse(t[1..]).value.1[0] == ',' && ParseFields(Parse(t[1..]).value.1[1..]) == None)
    decreases fields, 0
  {
    var v, after := fields[0].value, AfterFirst(fields, []);
    SplitCut(t, [':'], Print(v) + after);
    assert !(t < [':']);
    var t1 := t[1..];
    SplitCut(t1, Print(v), after);
    if t1 < Print(v) {
      CutValue(v, t1);
    } else {
      var t2 := t1[|Print(v)|..];
      assert t2 != [] ==> t2[0] == after[0];
      ParsePrint(v, t2);
      if t2 != [] {
        if |fields| > 1 {
          assert [] + ['}'] == ['}'] + [];
          SplitCut(t2, [','], PrintFields(fields[1..]) + ['}']);
          assert !(t2 < [',']);
          CutFields(fields[1..], t2[1..]);
        }
      }
    }
  }

  lemma {:induction false} CutFields(fields: seq<Field>, t: string)
    requires fields != [] && t < PrintFields(fields) + ['}']
    ensures ParseFields(t) == None
    decreases fields, 1
  {
    var key, after := fields[0].key, [':'] + (Print(fields[0].value) + AfterFirst(fields, []));
    assert ['}'] + [] == ['}'];
    PrintFirst(fields, []);
    SplitCut(t, Quote(key), after);
    if t != [] {
      if t < Quote(key) {
        CutQuote(key, t);
      } else {
        var t1 := t[|Quote(key)|..];
        CloseQuote([], EscapeAll(key), t1);
        UnquoteEscapeAll(key, t1);
        if t1 != [] {
          CutAfterKey(fields, t1);
        }
      }
    }
  }

  // ---- lines ----

  lemma {:induction false} TrimRightPrefix(s: string)
    ensures TrimRight(s) <= s
  {
    if s != [] && IsSpace(s[|s| - 1]) {
      TrimRightPrefix(s[..|s| - 1]);
    }
  }

  lemma FromTrimmed(s: string)
    requires s != [] && s[0] == '{'
    ensures TrimLeft(s) == s && TrimRight(s) <= s
  {
    TrimRightPrefix(s);
  }

  /** A line cut anywhere before its end holds no value, unless only the newline is missing. */
  lemma CutLine(fields: seq<Field>, t: string)
    requires t < ToLine(Obj(fields))
    ensures FromLine(t) == if t == Print(Obj(fields)) then Some(Obj(fields)) else None
  {
    var whole := Print(Obj(fields));
    assert whole[0] == '{' && whole[|whole| - 1] == '}';
    if t == [] {
      assert FromLine(t) == None;
    } else {
      assert t[0] == whole[0];
      FromTrimmed(t);
      if t == whole {
        assert TrimRight(t) == t;
        ParsePrint(Obj(fields), []);
        assert whole + [] == whole;
      } else {
        SplitCut(t, whole, "\n");
        assert t < whole;
        CutValue(Obj(fields), TrimRight(t));
      }
    }
  }

  /** A request cut short by a failed write is either refused as malformed or complete but for its
      newline: the server never reads a request other than the one that was meant. */
  lemma CutRequest(r: GoRequest, t: string)
    requires t <= ToLine(Obj(GoEnvelope(r))) && !NilWhereNeeded(r)
    ensures ServerReads(t) == None || ServerReads(t) == Some(Meant(r))
    ensures |t| < |Print(Obj(GoEnvelope(r)))| ==> ServerReads(t) == None
  {
    RequestAgreement(r);
    var line := ToLine(Obj(GoEnvelope(r)));
    if |t| < |line| {
      CutLine(GoEnvelope(r), t);
      if t == Print(Obj(GoEnvelope(r))) {
        LineRoundTrip(GoEnvelope(r));
      }
    } else {
      assert t == line;
    }
  }
}
