/** White space as Unicode's White_Space property has it, which Go and Rust trim and split by. */
module Whitespace {

  predicate IsSpace(ch: char) {
    var n := ch as int;
    || 9 <= n <= 13 || n == 0x20 || n == 0x85 || n == 0xA0 || n == 0x1680 || 0x2000 <= n <= 0x200A
    || n == 0x2028 || n == 0x2029 || n == 0x202F || n == 0x205F || n == 0x3000
  }

  /** Of the ASCII characters exactly tab, line feed, vertical tab, form feed, carriage return and blank. */
  lemma AsciiSpaces(ch: char)
    requires ch as int < 128
    ensures IsSpace(ch) <==> ch as int in {9, 10, 11, 12, 13, 32}
  {
  }

  function TrimLeft(s: string): string {
    if s == [] || !IsSpace(s[0]) then s else TrimLeft(s[1..])
  }

  function TrimRight(s: string): string {
    if s == [] || !IsSpace(s[|s| - 1]) then s else TrimRight(s[..|s| - 1])
  }

  /** One blank in front and one behind are trimmed away from anything that has none at its ends. */
  lemma TrimBlanks(s: string)
    requires s != [] && !IsSpace(s[0]) && !IsSpace(s[|s| - 1])
    ensures TrimRight(TrimLeft(s)) == s && TrimRight(TrimLeft(s + "\n")) == s
    ensures TrimRight(TrimLeft(" " + s + "\n")) == s
  {
    assert (" " + s + "\n")[1..] == s + "\n";
    assert (s + "\n")[..|s|] == s;
    assert TrimLeft(s + "\n") == s + "\n";
    assert TrimRight(s + "\n") == TrimRight(s);
  }

  predicate Blank(s: string) {
    forall i :: 0 <= i < |s| ==> IsSpace(s[i])
  }

  lemma {:induction false} TrimLeftBlank(pre: string, s: string)
    requires Blank(pre) && (s == [] || !IsSpace(s[0]))
    ensures TrimLeft(pre + s) == s
  {
    if pre == [] {
      assert pre + s == s;
    } else {
      assert (pre + s)[1..] == pre[1..] + s;
      TrimLeftBlank(pre[1..], s);
    }
  }

  lemma {:induction false} TrimRightBlank(s: string, post: string)
    requires Blank(post) && (s == [] || !IsSpace(s[|s| - 1]))
    ensures TrimRight(s + post) == s
  {
    if post == [] {
      assert s + post == s;
    } else {
      var n := |post| - 1;
      assert (s + post)[..|s + post| - 1] == s + post[..n];
      TrimRightBlank(s, post[..n]);
    }
  }

  /** Whatever blanks stand before and after it, it alone is left. */
  lemma TrimAround(pre: string, s: string, post: string)
    requires Blank(pre) && Blank(post) && s != [] && !IsSpace(s[0]) && !IsSpace(s[|s| - 1])
    ensures TrimRight(TrimLeft(pre + s + post)) == s
  {
    assert pre + s + post == pre + (s + post);
    TrimLeftBlank(pre, s + post);
    TrimRightBlank(s, post);
  }

  /** The length of the leading run of characters that are not blank. */
  function TokenLen(s: string): (n: nat)
    ensures n <= |s| && (n < |s| ==> IsSpace(s[n]))
    ensures forall i :: 0 <= i < n ==> !IsSpace(s[i])
  {
    if s == [] || IsSpace(s[0]) then 0 else 1 + TokenLen(s[1..])
  }

  /** The maximal blank-free substrings, in order. */
  function Fields(s: string): seq<string>
    decreases |s|
  {
    if s == [] then []
    else if IsSpace(s[0]) then Fields(s[1..])
    else [s[..TokenLen(s)]] + Fields(s[TokenLen(s)..])
  }

  predicate IsToken(t: string) {
    t != [] && forall i :: 0 <= i < |t| ==> !IsSpace(t[i])
  }

  function Join(tokens: seq<string>): string {
    if tokens == [] then []
    else if |tokens| == 1 then tokens[0]
    else tokens[0] + (" " + Join(tokens[1..]))
  }

  lemma TokenFirst(t: string, rest: string)
    requires IsToken(t) && (rest == [] || IsSpace(rest[0]))
    ensures TokenLen(t + rest) == |t|
  {
    var s := t + rest;
    assert forall i :: 0 <= i < |t| ==> s[i] == t[i];
    assert rest != [] ==> s[|t|] == rest[0];
  }

  /** Splitting tokens joined by blanks gives the tokens back. */
  lemma {:induction false} SplitJoin(tokens: seq<string>)
    requires forall k :: 0 <= k < |tokens| ==> IsToken(tokens[k])
    ensures Fields(Join(tokens)) == tokens
  {
    if tokens != [] {
      var t := tokens[0];
      var rest := if |tokens| == 1 then [] else " " + Join(tokens[1..]);
      assert Join(tokens) == t + rest && (t + rest)[0] == t[0];
      TokenFirst(t, rest);
      assert (t + rest)[..|t|] == t && (t + rest)[|t|..] == rest;
      if |tokens| > 1 {
        assert rest[1..] == Join(tokens[1..]);
        SplitJoin(tokens[1..]);
      }
      assert tokens == [t] + tokens[1..];
    }
  }

  lemma {:induction false} JoinEnds(tokens: seq<string>)
    requires tokens != [] && forall k :: 0 <= k < |tokens| ==> IsToken(tokens[k])
    ensures var s := Join(tokens); s != [] && !IsSpace(s[0]) && !IsSpace(s[|s| - 1])
  {
    if |tokens| > 1 {
      JoinEnds(tokens[1..]);
    }
  }
}
