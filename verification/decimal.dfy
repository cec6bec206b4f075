/** Decimal rendering of unsigned numbers, as C# string interpolation
    prints a `ushort` or a `byte` (no sign, no leading zeros), together
    with the matching reader that recovers the number from its digits. */
module Decimal {
  import opened Options

  predicate IsDigit(c: char)
  {
    '0' <= c <= '9'
  }

  predicate AllDigits(s: string)
  {
    forall i :: 0 <= i < |s| ==> IsDigit(s[i])
  }

  /** A canonical numeral: at least one digit, and no leading zero unless
      it is the numeral "0" itself. */
  predicate Canonical(s: string)
  {
    |s| >= 1 && AllDigits(s) && (s[0] == '0' ==> |s| == 1)
  }

  function DigitValue(c: char): (d: nat)
    requires IsDigit(c)
    ensures d < 10
  {
    c as int - '0' as int
  }

  function DigitChar(d: nat): (c: char)
    requires d < 10
    ensures IsDigit(c) && DigitValue(c) == d
    ensures c == '0' <==> d == 0
  {
    ('0' as int + d) as char
  }

  /** The decimal numeral of `n`. */
  function Render(n: nat): (s: string)
    ensures Canonical(s)
    ensures n < 10 <==> |s| == 1
    decreases n
  {
    if n < 10 then [DigitChar(n)] else Render(n / 10) + [DigitChar(n % 10)]
  }

  /** The number a string of digits denotes, read most significant first. */
  function Value(s: string): nat
    requires AllDigits(s)
    decreases |s|
  {
    if |s| == 0 then 0 else Value(s[..|s| - 1]) * 10 + DigitValue(s[|s| - 1])
  }

  /** Reading back a rendered number gives the number. */
  lemma {:induction false} ValueOfRender(n: nat)
    ensures Value(Render(n)) == n
    decreases n
  {
    if n >= 10 {
      var s := Render(n);
      assert s[..|s| - 1] == Render(n / 10);
      ValueOfRender(n / 10);
    }
  }

  /** A canonical numeral with more than one digit denotes at least 10. */
  lemma {:induction false} ValueOfLongCanonical(s: string)
    requires Canonical(s) && |s| >= 2
    ensures Value(s) >= 10
    decreases |s|
  {
    var init := s[..|s| - 1];
    assert init[0] == s[0];
    if |init| >= 2 {
      ValueOfLongCanonical(init);
    } else {
      assert Value(init) == DigitValue(s[0]);
    }
  }

  /** Rendering the value of a canonical numeral gives the numeral back. */
  lemma {:induction false} RenderOfValue(s: string)
    requires Canonical(s)
    ensures Render(Value(s)) == s
    decreases |s|
  {
    var init := s[..|s| - 1];
    var d := DigitValue(s[|s| - 1]);
    if |s| == 1 {
      assert Value(s) == d;
      assert DigitChar(d) == s[0];
    } else {
      assert init[0] == s[0];
      assert Canonical(init);
      RenderOfValue(init);
      ValueOfLongCanonical(s);
      assert Value(s) / 10 == Value(init) && Value(s) % 10 == d;
      assert DigitChar(d) == s[|s| - 1];
      assert s == init + [s[|s| - 1]];
    }
  }

  /** The length of the longest all-digit prefix of `s`. */
  function DigitSpan(s: string): (k: nat)
    ensures k <= |s|
    ensures AllDigits(s[..k])
    ensures k < |s| ==> !IsDigit(s[k])
    decreases |s|
  {
    if |s| == 0 || !IsDigit(s[0]) then 0 else 1 + DigitSpan(s[1..])
  }

  /** True when `rest` cannot extend a numeral that precedes it. */
  predicate StopsNumeral(rest: string)
  {
    |rest| == 0 || !IsDigit(rest[0])
  }

  /** The digit span of a digit string followed by a stop is the digit
      string. */
  lemma {:induction false} DigitSpanOfNumeral(ds: string, rest: string)
    requires AllDigits(ds) && StopsNumeral(rest)
    ensures DigitSpan(ds + rest) == |ds|
    decreases |ds|
  {
    if |ds| > 0 {
      assert (ds + rest)[1..] == ds[1..] + rest;
      DigitSpanOfNumeral(ds[1..], rest);
    } else {
      assert ds + rest == rest;
    }
  }

  /** Reads a canonical numeral at the front of `s`, returning its value and
      the text after it; fails when `s` does not start with one. */
  function TakeNumber(s: string): Option<(nat, string)>
  {
    var k := DigitSpan(s);
    if k == 0 || (s[0] == '0' && k > 1) then None else Some((Value(s[..k]), s[k..]))
  }

  /** A numeral followed by anything that cannot continue it is read back
      whole. */
  lemma TakeNumberOfRender(n: nat, rest: string)
    requires StopsNumeral(rest)
    ensures TakeNumber(Render(n) + rest) == Some((n, rest))
  {
    var ds := Render(n);
    var s := ds + rest;
    var k := DigitSpan(s);
    DigitSpanOfNumeral(ds, rest);
    assert s[..k] == ds;
    assert s[k..] == rest;
    ValueOfRender(n);
  }

  /** Whatever `TakeNumber` accepts is a canonical numeral followed by text
      that cannot continue it, and the numeral renders the value read. */
  lemma TakeNumberSplits(s: string)
    requires TakeNumber(s).Some?
    ensures StopsNumeral(TakeNumber(s).value.1)
    ensures s == Render(TakeNumber(s).value.0) + TakeNumber(s).value.1
  {
    var k := DigitSpan(s);
    assert Canonical(s[..k]);
    RenderOfValue(s[..k]);
    assert s == s[..k] + s[k..];
  }
}
