/** Python's `float()` on the decimal numerals the crawler meets: an optional
    sign, then digits with at most one decimal point and at least one digit
    (`12`, `12.50`, `12.`, `.5`, `-3.25`). Values are exact reals. A numeral
    is split into its parts by `Lex`; `Spell` writes the parts back, and the
    two are inverse to each other on well-formed numerals. */
module Decimal {
  import opened Results
  import opened Text

  datatype Sign = NoSign | Plus | Minus

  /** A numeral as its parts: sign, digits before the point, whether a point
      is written, digits after the point. */
  datatype Numeral = Numeral(sign: Sign, whole: string, point: bool, frac: string)

  predicate WellFormed(n: Numeral) {
    && AllDigits(n.whole)
    && AllDigits(n.frac)
    && if n.point then |n.whole| + |n.frac| > 0 else |n.whole| > 0 && |n.frac| == 0
  }

  function SignText(sign: Sign): string {
    match sign
    case NoSign => ""
    case Plus => "+"
    case Minus => "-"
  }

  /** The text of a numeral. */
  function Spell(n: Numeral): string {
    SignText(n.sign) + n.whole + (if n.point then "." else "") + n.frac
  }

  function Magnitude(n: Numeral): real
    requires WellFormed(n)
  {
    DigitsValue(n.whole) as real + DigitsValue(n.frac) as real / Pow10(|n.frac|) as real
  }

  /** The number a numeral denotes. */
  function Value(n: Numeral): real
    requires WellFormed(n)
  {
    if n.sign == Minus then -Magnitude(n) else Magnitude(n)
  }

  function LexSign(s: string): Sign {
    if |s| > 0 && s[0] == '+' then Plus
    else if |s| > 0 && s[0] == '-' then Minus
    else NoSign
  }

  /** Splits a text into the parts of a numeral, or `None` when the text is not one. */
  function Lex(s: string): (r: Option<Numeral>)
    ensures r.Some? ==> WellFormed(r.value)
  {
    var sign := LexSign(s);
    var body := if sign == NoSign then s else s[1..];
    var k := RunEnd(body, 0);
    if k == |body| then
      if k > 0 then Some(Numeral(sign, body, false, "")) else None
    else if body[k] == '.' && AllDigits(body[k + 1..]) && (k > 0 || k + 1 < |body|) then
      Some(Numeral(sign, body[..k], true, body[k + 1..]))
    else
      None
  }

  /** `float(s)`: the value of `s` when it is a numeral, `None` where Python raises `ValueError`. */
  function ParseFloat(s: string): Option<real> {
    match Lex(s)
    case None => None
    case Some(n) => Some(Value(n))
  }

  /** Reading back the text of a numeral recovers its parts. */
  lemma {:induction false} LexSpell(n: Numeral)
    requires WellFormed(n)
    ensures Lex(Spell(n)) == Some(n)
  {
    var s := Spell(n);
    var pt := if n.point then "." else "";
    var body := n.whole + pt + n.frac;
    assert s == SignText(n.sign) + body;
    assert |body| > 0;
    assert body[0] == if |n.whole| > 0 then n.whole[0] else '.';
    assert LexSign(s) == n.sign;
    assert (if n.sign == NoSign then s else s[1..]) == body;
    forall i | 0 <= i < |n.whole|
      ensures IsDigit(body[i])
    {
      assert body[i] == n.whole[i];
    }
    if n.point {
      assert body[|n.whole|] == '.';
      RunEndUnique(body, 0, |n.whole|);
      assert body[..|n.whole|] == n.whole;
      assert body[|n.whole| + 1..] == n.frac;
    } else {
      assert body == n.whole;
      RunEndUnique(body, 0, |n.whole|);
    }
  }

  /** Every text `Lex` accepts is the spelling of the numeral it returns. */
  lemma SpellLex(s: string)
    ensures Lex(s).Some? ==> Spell(Lex(s).value) == s
  {
    var sign := LexSign(s);
    var body := if sign == NoSign then s else s[1..];
    if Lex(s).Some? {
      assert s == SignText(sign) + body by {
        if sign != NoSign {
          assert s == [s[0]] + s[1..];
        }
      }
      SpellLexBody(sign, body, RunEnd(body, 0), Lex(s).value);
    }
  }

  /** The case analysis of `Lex` on the text after the sign. */
  lemma SpellLexBody(sign: Sign, body: string, k: nat, n: Numeral)
    requires k <= |body|
    requires k == |body| ==> n == Numeral(sign, body, false, "")
    requires k < |body| ==> body[k] == '.' && n == Numeral(sign, body[..k], true, body[k + 1..])
    ensures Spell(n) == SignText(sign) + body
  {
    if k < |body| {
      assert body == body[..k] + [body[k]] + body[k + 1..];
    }
  }

  /** A non-empty run of digits parses to the number it spells. */
  lemma ParseFloatDigits(d: string)
    requires |d| > 0 && AllDigits(d)
    ensures ParseFloat(d) == Some(DigitsValue(d) as real)
  {
    var n := Numeral(NoSign, d, false, "");
    assert Spell(n) == "" + d + "" + "" == d;
    LexSpell(n);
    assert Lex(d) == Some(n);
    assert DigitsValue(n.frac) == 0 && Pow10(0) == 1;
    assert Magnitude(n) == DigitsValue(d) as real;
  }
}
