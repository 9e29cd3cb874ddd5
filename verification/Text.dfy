/** Decimal numbers as text, and the few parsing steps that take them back. */
module Text {
  import opened Wrappers

  predicate IsDigit(c: char) {
    '0' <= c <= '9'
  }

  function DigitValue(c: char): (d: nat)
    requires IsDigit(c)
    ensures d < 10
  {
    c as int - 48
  }

  function Digit(d: nat): (c: char)
    requires d < 10
    ensures IsDigit(c) && DigitValue(c) == d
  {
    (48 + d) as char
  }

  predicate AllDigits(s: string) {
    forall i :: 0 <= i < |s| ==> IsDigit(s[i])
  }

  /** `%llu`, `%zu`, `%u`: decimal without leading zeros. */
  function NatText(n: nat): (s: string)
    ensures |s| >= 1 && AllDigits(s)
  {
    if n < 10 then [Digit(n)] else NatText(n / 10) + [Digit(n % 10)]
  }

  /** `%d` */
  function IntText(n: int): (s: string)
    ensures |s| >= 1
  {
    if n < 0 then "-" + NatText(-n) else NatText(n)
  }

  function ValueOf(s: string): nat
    requires AllDigits(s)
  {
    if s == "" then 0 else 10 * ValueOf(s[..|s| - 1]) + DigitValue(s[|s| - 1])
  }

  lemma {:induction false} ValueOfNatText(n: nat)
    ensures ValueOf(NatText(n)) == n
  {
    if n >= 10 {
      ValueOfNatText(n / 10);
      assert NatText(n)[..|NatText(n)| - 1] == NatText(n / 10);
    }
  }

  /** Different numbers have different texts. */
  lemma NatTextInjective(m: nat, n: nat)
    requires NatText(m) == NatText(n)
    ensures m == n
  {
    ValueOfNatText(m);
    ValueOfNatText(n);
  }

  function Pow10(k: nat): nat {
    if k == 0 then 1 else 10 * Pow10(k - 1)
  }

  /** A number of at most `digits` digits has a text of at most that length. */
  lemma {:induction false} NatTextLength(n: nat, digits: nat)
    requires digits >= 1 && n < Pow10(digits)
    ensures |NatText(n)| <= digits
  {
    if n >= 10 {
      assert digits > 1 by {
        assert Pow10(1) == 10;
      }
      NatTextLength(n / 10, digits - 1);
    }
  }

  lemma Assoc(a: string, b: string, c: string)
    ensures (a + b) + c == a + (b + c)
  {
  }

  // Parsing.

  /** What follows `lit`, if `s` starts with it. */
  function Expect(s: string, lit: string): (rest: Option<string>)
    ensures rest.Some? ==> |rest.value| == |s| - |lit|
  {
    if lit <= s then Some(s[|lit|..]) else None
  }

  lemma ExpectFound(lit: string, rest: string)
    ensures Expect(lit + rest, lit) == Some(rest)
  {
    assert (lit + rest)[|lit|..] == rest;
  }

  function DigitCount(s: string): (k: nat)
    ensures k <= |s| && (forall i :: 0 <= i < k ==> IsDigit(s[i])) && (k == |s| || !IsDigit(s[k]))
  {
    if s == "" || !IsDigit(s[0]) then 0
    else
      DigitCount(s[1..]) + 1
  }

  function ParseNat(s: string): (r: Option<(nat, string)>)
    ensures r.Some? ==> |r.value.1| < |s|
  {
    var k := DigitCount(s);
    if k == 0 then None else Some((ValueOf(s[..k]), s[k..]))
  }

  function ParseInt(s: string): (r: Option<(int, string)>)
    ensures r.Some? ==> |r.value.1| < |s|
  {
    if s != "" && s[0] == '-' then
      match ParseNat(s[1..])
      case Some(p) => var v: int := p.0; Some((-v, p.1))
      case None => None
    else
      match ParseNat(s)
      case Some(p) => var v: int := p.0; Some((v, p.1))
      case None => None
  }

  predicate StartsDigit(s: string) {
    s != "" && IsDigit(s[0])
  }

  lemma DigitCountExact(s: string, k: nat)
    requires k <= |s| && (forall i :: 0 <= i < k ==> IsDigit(s[i])) && (k == |s| || !IsDigit(s[k]))
    ensures DigitCount(s) == k
  {
    hide DigitCount; hide IsDigit;
    var j := DigitCount(s);
  }

  lemma ParseNatText(n: nat, rest: string)
    requires !StartsDigit(rest)
    ensures ParseNat(NatText(n) + rest) == Some((n, rest))
  {
    var t := NatText(n);
    var s := t + rest;
    assert s[..|t|] == t && s[|t|..] == rest;
    DigitCountExact(s, |t|);
    ValueOfNatText(n);
  }

  lemma ParseIntText(n: int, rest: string)
    requires !StartsDigit(rest)
    ensures ParseInt(IntText(n) + rest) == Some((n, rest))
  {
    if n < 0 {
      ParseNatText(-n, rest);
      var s := "-" + NatText(-n) + rest;
      assert s[1..] == NatText(-n) + rest;
    } else {
      ParseNatText(n, rest);
      assert IsDigit(NatText(n)[0]);
    }
  }

  /** Splits before the first `c`. */
  function CutAt(s: string, c: char): (r: Option<(string, string)>)
    ensures r.Some? ==> c !in r.value.0 && s == r.value.0 + r.value.1 && r.value.1 != "" && r.value.1[0] == c
  {
    if s == "" then None
    else if s[0] == c then Some(("", s))
    else
      match CutAt(s[1..], c)
      case Some(p) => Some(([s[0]] + p.0, p.1))
      case None => None
  }

  lemma {:induction false} CutAtFound(a: string, c: char, rest: string)
    requires c !in a && rest != "" && rest[0] == c
    ensures CutAt(a + rest, c) == Some((a, rest))
  {
    if a == "" {
      assert a + rest == rest;
    } else {
      assert (a + rest)[1..] == a[1..] + rest;
      CutAtFound(a[1..], c, rest);
      assert [a[0]] + a[1..] == a;
    }
  }

  lemma {:induction false} CutNone(a: string, c: char)
    requires c !in a
    ensures CutAt(a, c) == None
  {
    if a == "" {
    } else {
      CutNone(a[1..], c);
    }
  }
}
