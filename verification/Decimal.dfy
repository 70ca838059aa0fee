/** Unsigned integers as decimal text, as keys of a text map and as a query value. */
module Decimal {
  import opened Options

  predicate IsDigit(c: char) {
    '0' <= c <= '9'
  }

  function Digit(d: nat): (c: char)
    requires d < 10
    ensures IsDigit(c) && c == "0123456789"[d]
  {
    '0' + d as char
  }

  function Value(c: char): (d: nat)
    requires IsDigit(c)
    ensures d < 10 && Digit(d) == c
  {
    (c as int - '0' as int) as nat
  }

  /** Shortest decimal form. */
  function Print(n: nat): (s: string)
    ensures s != [] && forall i :: 0 <= i < |s| ==> IsDigit(s[i])
  {
    if n < 10 then [Digit(n)] else Print(n / 10) + [Digit(n % 10)]
  }

  predicate Digits(s: string) {
    forall i :: 0 <= i < |s| ==> IsDigit(s[i])
  }

  function Number(s: string): nat
    requires Digits(s)
  {
    if s == [] then 0 else 10 * Number(s[..|s| - 1]) + Value(s[|s| - 1])
  }

  /** Text to number: an optional plus sign, then at least one digit and nothing
      else, and no more than `max`. */
  function Parse(s: string, max: nat): Option<nat> {
    var digits := if s != [] && s[0] == '+' then s[1..] else s;
    if digits != [] && Digits(digits) && Number(digits) <= max then Some(Number(digits)) else None
  }

  lemma {:induction false} PrintedNumber(n: nat)
    ensures Digits(Print(n)) && Number(Print(n)) == n
  {
    if n >= 10 {
      PrintedNumber(n / 10);
      assert Print(n)[..|Print(n)| - 1] == Print(n / 10);
    }
  }

  /** Parsing inverts printing, exactly as far as the limit. */
  lemma ParsesPrinted(n: nat, max: nat)
    ensures Parse(Print(n), max) == if n <= max then Some(n) else None
  {
    PrintedNumber(n);
    assert IsDigit(Print(n)[0]);
  }

  lemma PrintInjective(a: nat, b: nat)
    requires Print(a) == Print(b)
    ensures a == b
  {
    PrintedNumber(a);
    PrintedNumber(b);
  }

  /** A text without sign and without a leading zero. */
  predicate Canonical(s: string) {
    s != [] && Digits(s) && (s[0] == '0' ==> |s| == 1)
  }

  lemma {:induction false} CanonicalPrints(s: string)
    requires Canonical(s)
    ensures Print(Number(s)) == s && (s[0] != '0' ==> Number(s) > 0)
  {
    var k := |s| - 1;
    if k > 0 {
      CanonicalPrints(s[..k]);
      assert Number(s) / 10 == Number(s[..k]) && Number(s) % 10 == Value(s[k]);
    } else {
      assert s == [s[0]] && s[..0] == [];
    }
  }

  /** Among the texts for a number, the printed one is the only canonical one. */
  lemma ParsedPrintsIff(s: string, max: nat)
    requires Parse(s, max).Some?
    ensures Print(Parse(s, max).value) == s <==> Canonical(s)
  {
    if Canonical(s) {
      CanonicalPrints(s);
    } else {
      PrintIsCanonical(Parse(s, max).value);
    }
  }

  lemma {:induction false} PrintIsCanonical(n: nat)
    ensures Canonical(Print(n)) && (n > 0 ==> Print(n)[0] != '0')
  {
    if n >= 10 {
      PrintIsCanonical(n / 10);
      assert Print(n)[0] == Print(n / 10)[0];
    }
  }

  // ---- Pairs of numbers with a separator ------------------------------

  function PrintPair(a: nat, b: nat): string {
    Print(a) + ":" + Print(b)
  }

  /** A pair key determines both numbers. */
  lemma PairInjective(a: nat, b: nat, c: nat, d: nat)
    requires PrintPair(a, b) == PrintPair(c, d)
    ensures a == c && b == d
  {
    var s, t := PrintPair(a, b), PrintPair(c, d);
    var i, j := |Print(a)|, |Print(c)|;
    assert s[i] == ':' && t[j] == ':';
    assert forall k :: 0 <= k < i ==> IsDigit(s[k]);
    assert forall k :: 0 <= k < j ==> IsDigit(t[k]);
    assert i == j;
    assert s[..i] == Print(a) && t[..j] == Print(c);
    assert s[i + 1..] == Print(b) && t[j + 1..] == Print(d);
    PrintInjective(a, c);
    PrintInjective(b, d);
  }
}
