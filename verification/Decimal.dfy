/** Natural numbers in decimal: printed without leading zeros, read as the longest run of digits. */
module Decimal {

  predicate IsDigit(ch: char) { '0' <= ch <= '9' }

  function Print(n: nat): (s: string)
    ensures s != [] && forall i :: 0 <= i < |s| ==> IsDigit(s[i])
  {
    if n < 10 then ['0' + n as char] else Print(n / 10) + ['0' + (n % 10) as char]
  }

  const DIGITS: string := "0123456789"

  /** Each further digit makes ten times as much, and itself. */
  lemma PrintExact(n: nat, d: nat)
    requires d < 10
    ensures Print(d) == [DIGITS[d]] && (n > 0 ==> Print(10 * n + d) == Print(n) + [DIGITS[d]])
  {
    assert n > 0 ==> (10 * n + d) / 10 == n && (10 * n + d) % 10 == d;
  }

  /** The value of the leading digits after `acc`, and what follows them. */
  function Read(s: string, acc: nat): (r: (nat, string))
    ensures |r.1| <= |s|
    ensures s != [] && IsDigit(s[0]) ==> |r.1| < |s|
  {
    if s == [] || !IsDigit(s[0]) then (acc, s) else Read(s[1..], 10 * acc + (s[0] as int - 48))
  }

  lemma {:induction false} ReadPrint(n: nat, rest: string)
    ensures Read(Print(n) + rest, 0) == Read(rest, n)
  {
    if n < 10 {
      assert (Print(n) + rest)[1..] == rest;
    } else {
      var d := ['0' + (n % 10) as char];
      assert Print(n) + rest == Print(n / 10) + (d + rest);
      ReadPrint(n / 10, d + rest);
      assert (d + rest)[1..] == rest;
    }
  }
}
