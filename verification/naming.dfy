/** The two textual forms of an item's visual identity: the model string
    `m-v` / `m-w-v` and the placeholder name `Unknown (m-v)` /
    `Unknown (m-w-v)` given to items that have no name. The weapon-type
    segment is left out when the weapon type is 0. Each form comes with a
    reader, so that the text is shown to determine the identity. */
module Naming {
  import opened Options
  import opened Decimal

  /** The model string of model set `m`, weapon type `w` and variant `v`. */
  function ModelText(m: nat, w: nat, v: nat): string
  {
    if w == 0 then Render(m) + "-" + Render(v) else Render(m) + "-" + Render(w) + "-" + Render(v)
  }

  const UnknownPrefix: string := "Unknown ("

  /** The placeholder name, built the way the item constructors build it:
      the weapon-type segment and its dash are one optional piece. */
  function DefaultName(m: nat, w: nat, v: nat): string
  {
    UnknownPrefix + Render(m) + "-" + (if w != 0 then Render(w) + "-" else "") + Render(v) + ")"
  }

  /** The placeholder name is the model string in `Unknown (…)`. */
  lemma DefaultNameWrapsModelText(m: nat, w: nat, v: nat)
    ensures DefaultName(m, w, v) == Wrap(ModelText(m, w, v))
  {
    var a, c := Render(m), Render(v);
    if w == 0 {
      WrapJoin(a, "", c);
    } else {
      WrapJoin(a, Render(w) + "-", c);
    }
  }

  /** `body` in `Unknown (…)`. */
  function Wrap(body: string): string
  {
    UnknownPrefix + body + ")"
  }

  /** The text inside `Unknown (…)`, if `s` has that shape. */
  function Unwrap(s: string): Option<string>
  {
    if |s| > |UnknownPrefix| && s[..|UnknownPrefix|] == UnknownPrefix && s[|s| - 1] == ')'
    then Some(s[|UnknownPrefix|..|s| - 1])
    else None
  }

  /** Regrouping the pieces of a placeholder name around its body. */
  lemma WrapJoin(a: string, mid: string, c: string)
    ensures UnknownPrefix + a + "-" + mid + c + ")" == Wrap(a + "-" + mid + c)
  {
  }

  /** Unwrapping a wrapped body gives the body. */
  lemma UnwrapOfWrap(body: string)
    ensures Unwrap(Wrap(body)) == Some(body)
  {
    var s := Wrap(body);
    assert s[..|UnknownPrefix|] == UnknownPrefix;
    assert s[|UnknownPrefix|..|s| - 1] == body;
  }

  /** Whatever unwraps is the wrapping of what it unwraps to. */
  lemma WrapOfUnwrap(s: string)
    requires Unwrap(s).Some?
    ensures Wrap(Unwrap(s).value) == s
  {
    assert s == s[..|UnknownPrefix|] + s[|UnknownPrefix|..|s| - 1] + [s[|s| - 1]];
  }

  /** Reads a model string back into (model, weapon type, variant); a
      two-segment string has weapon type 0, and a three-segment one must
      have a nonzero middle segment, as `ModelText` never writes a 0 there. */
  function ParseModelText(s: string): Option<(nat, nat, nat)>
  {
    match TakeNumber(s)
    case None => None
    case Some((m, rest)) => ParseAfterModel(m, rest)
  }

  /** The part of `ParseModelText` after the model-set number `m`. */
  function ParseAfterModel(m: nat, s: string): Option<(nat, nat, nat)>
  {
    if |s| == 0 || s[0] != '-' then None
    else match TakeNumber(s[1..])
      case None => None
      case Some((x, rest)) => ParseAfterSecond(m, x, rest)
  }

  /** The part of `ParseModelText` after the second number `x`, which is
      the variant when nothing follows and the weapon type otherwise. */
  function ParseAfterSecond(m: nat, x: nat, s: string): Option<(nat, nat, nat)>
  {
    if |s| == 0 then Some((m, 0, x))
    else if s[0] != '-' || x == 0 then None
    else match TakeNumber(s[1..])
      case None => None
      case Some((v, rest)) => if |rest| == 0 then Some((m, x, v)) else None
  }

  /** Reading a model string gives back what it was written from. */
  lemma ParseModelTextOfModelText(m: nat, w: nat, v: nat)
    ensures ParseModelText(ModelText(m, w, v)) == Some((m, w, v))
  {
    if w == 0 {
      ParseTwoSegments(m, v);
    } else {
      ParseThreeSegments(m, w, v);
    }
  }

  /** The reader on a two-segment model string. */
  lemma ParseTwoSegments(m: nat, v: nat)
    ensures ParseModelText(ModelText(m, 0, v)) == Some((m, 0, v))
  {
    var a, c := Render(m), Render(v);
    var r1 := "-" + c;
    assert ModelText(m, 0, v) == a + r1;
    assert r1 == "-" + c + "";
    AfterSecondOfVariant(m, 0, v);
    AfterModelOf(m, v, r1, "");
    ParseModelTextOf(m, r1);
  }

  /** The reader on a three-segment model string. */
  lemma ParseThreeSegments(m: nat, w: nat, v: nat)
    requires w != 0
    ensures ParseModelText(ModelText(m, w, v)) == Some((m, w, v))
  {
    var a, b, c := Render(m), Render(w), Render(v);
    var r2 := "-" + c;
    var r1 := "-" + b + r2;
    assert ModelText(m, w, v) == a + r1;
    AfterSecondOfVariant(m, w, v);
    AfterModelOf(m, w, r1, r2);
    ParseModelTextOf(m, r1);
  }

  /** The reader's first step on a printed model-set number. */
  lemma ParseModelTextOf(m: nat, rest: string)
    requires StopsNumeral(rest)
    ensures ParseModelText(Render(m) + rest) == ParseAfterModel(m, rest)
  {
    TakeNumberOfRender(m, rest);
  }

  /** The reader's second step on a dash and a printed number. */
  lemma AfterModelOf(m: nat, x: nat, s: string, rest: string)
    requires s == "-" + Render(x) + rest && StopsNumeral(rest)
    ensures ParseAfterModel(m, s) == ParseAfterSecond(m, x, rest)
  {
    assert s[1..] == Render(x) + rest;
    TakeNumberOfRender(x, rest);
  }

  /** The reader's last step, on a trailing variant or on nothing. */
  lemma AfterSecondOfVariant(m: nat, w: nat, v: nat)
    ensures w != 0 ==> ParseAfterSecond(m, w, "-" + Render(v)) == Some((m, w, v))
    ensures ParseAfterSecond(m, v, "") == Some((m, 0, v))
  {
    assert ("-" + Render(v))[1..] == Render(v) + "";
    TakeNumberOfRender(v, "");
  }

  /** Sequence facts about a dash followed by `b` and `rest`. Dafny knows
      them unaided; they are named here so that the reader proofs that use
      them stay cheap and stable across solver seeds. */
  lemma DashThen(a: string, b: string, rest: string)
    ensures a + "-" + b + rest == a + ("-" + b + rest)
    ensures ("-" + b + rest)[1..] == b + rest
    ensures b + "" == b
  {
  }

  /** A string starting with a dash is that dash followed by the rest. */
  lemma DashSplit(s: string)
    requires |s| > 0 && s[0] == '-'
    ensures s == "-" + s[1..]
  {
  }

  /** What the last step accepts re-prints as the text it consumed. */
  lemma AfterSecondSound(m: nat, x: nat, s: string)
    requires ParseAfterSecond(m, x, s).Some?
    ensures var t := ParseAfterSecond(m, x, s).value;
      ModelText(t.0, t.1, t.2) == Render(m) + "-" + Render(x) + s
  {
    var a, b := Render(m), Render(x);
    if |s| == 0 {
      assert a + "-" + b + s == a + "-" + b;
    } else {
      var r := TakeNumber(s[1..]).value;
      TakeNumberSplits(s[1..]);
      var c := Render(r.0);
      DashSplit(s);
      DashThen(a + "-" + b, c, "");
    }
  }

  /** What the second and last steps accept re-prints as the text they
      consumed. */
  lemma AfterModelSound(m: nat, s: string)
    requires ParseAfterModel(m, s).Some?
    ensures var t := ParseAfterModel(m, s).value; ModelText(t.0, t.1, t.2) == Render(m) + s
  {
    var r := TakeNumber(s[1..]).value;
    TakeNumberSplits(s[1..]);
    AfterSecondSound(m, r.0, r.1);
    DashSplit(s);
    DashThen(Render(m), Render(r.0), r.1);
  }

  /** Whatever the reader accepts is exactly the model string of what it
      returns. */
  lemma ParseModelTextSound(s: string)
    requires ParseModelText(s).Some?
    ensures var t := ParseModelText(s).value; ModelText(t.0, t.1, t.2) == s
  {
    TakeNumberSplits(s);
    var (m, rest) := TakeNumber(s).value;
    AfterModelSound(m, rest);
  }

  /** Distinct identities have distinct model strings. */
  lemma ModelTextInjective(m: nat, w: nat, v: nat, m': nat, w': nat, v': nat)
    requires ModelText(m, w, v) == ModelText(m', w', v')
    ensures m == m' && w == w' && v == v'
  {
    ParseModelTextOfModelText(m, w, v);
    ParseModelTextOfModelText(m', w', v');
  }

  /** Reads a placeholder name back into (model, weapon type, variant). */
  function ParseDefaultName(s: string): Option<(nat, nat, nat)>
  {
    match Unwrap(s)
    case None => None
    case Some(body) => ParseModelText(body)
  }

  /** A placeholder name determines the identity it was made from. */
  lemma ParseDefaultNameOfDefaultName(m: nat, w: nat, v: nat)
    ensures ParseDefaultName(DefaultName(m, w, v)) == Some((m, w, v))
  {
    DefaultNameWrapsModelText(m, w, v);
    UnwrapOfWrap(ModelText(m, w, v));
    ParseModelTextOfModelText(m, w, v);
  }

  /** Whatever the placeholder reader accepts is the placeholder name of
      what it returns. */
  lemma ParseDefaultNameSound(s: string)
    requires ParseDefaultName(s).Some?
    ensures var t := ParseDefaultName(s).value; DefaultName(t.0, t.1, t.2) == s
  {
    var body := Unwrap(s).value;
    ParseModelTextSound(body);
    WrapOfUnwrap(s);
    var t := ParseModelText(body).value;
    DefaultNameWrapsModelText(t.0, t.1, t.2);
  }

  /** Distinct identities get distinct placeholder names. */
  lemma DefaultNameInjective(m: nat, w: nat, v: nat, m': nat, w': nat, v': nat)
    requires DefaultName(m, w, v) == DefaultName(m', w', v')
    ensures m == m' && w == w' && v == v'
  {
    ParseDefaultNameOfDefaultName(m, w, v);
    ParseDefaultNameOfDefaultName(m', w', v');
  }

  /** Worked examples: model set 1200, variant 1, without and with weapon
      type 3. */
  lemma Examples()
    ensures ModelText(1200, 0, 1) == "1200-1" && ModelText(1200, 3, 1) == "1200-3-1"
    ensures DefaultName(1200, 0, 1) == "Unknown (1200-1)"
    ensures DefaultName(1200, 3, 1) == "Unknown (1200-3-1)"
  {
    assert Render(1) == "1" && Render(3) == "3";
    assert Render(12) == Render(1) + "2";
    assert Render(120) == Render(12) + "0";
    assert Render(1200) == Render(120) + "0";
  }
}
