/** Price normalisation for one product block. The list price comes from the
    `normal-price` span and the sale price from the `red-sale-price` span.
    Text without a comma loses its first character (the currency symbol) and
    is read with `float()`; for the list price only, a text `float()`
    rejects falls back to the first number the pattern
    `[-+]?\d*\.\d+|\d+` finds. Text with a comma is read as every digit it
    contains, concatenated. A sale price, when present, replaces the list
    price; no price span at all gives 0.00. */
module Price {
  import opened Results
  import opened Text
  import opened Decimal
  import opened NumberPattern

  /** Python's `s[1:]`. */
  function DropFirst(s: string): string {
    if |s| == 0 then s else s[1..]
  }

  /** `float(''.join(re.findall('\d', text)))`: the number all digits of the text spell
      together, or `ValueError` when the text has no digit (`float('')`). */
  function DigitsPrice(text: string): (r: Result<real>)
    ensures r.Failure? <==> forall i :: 0 <= i < |text| ==> !IsDigit(text[i])
    ensures r.Failure? ==> r.error == ValueError
    ensures r.Success? ==> r.value == DigitsValue(KeepDigits(text)) as real
  {
    var d := KeepDigits(text);
    KeepDigitsContents(text);
    assert |d| == 0 <==> forall i :: 0 <= i < |text| ==> !IsDigit(text[i]) by {
      if |d| > 0 {
        assert d[0] in multiset(d);
        assert d[0] in text;
      }
      if i :| 0 <= i < |text| && IsDigit(text[i]) {
        assert text[i] in multiset(text);
        assert text[i] in multiset(d);
      }
    }
    if |d| > 0 then ParseFloatDigits(d); TextFloat(d) else TextFloat(d)
  }

  /** `float(text)` with Python's exception as a `Result`. */
  function TextFloat(text: string): Result<real> {
    match ParseFloat(text)
    case None => Failure(ValueError)
    case Some(v) => Success(v)
  }

  /** The list price from the text of a `normal-price` span. The pattern fallback never
      raises `ValueError`; it raises `IndexError` exactly when the text holds no number. */
  function ListPrice(text: string): (r: Result<real>)
    ensures ',' !in text && ParseFloat(DropFirst(text)).None? ==>
      (r == Failure(IndexError) <==> forall p, e :: 0 <= p < e <= |text| ==> !InPattern(text[p..e]))
    ensures ',' !in text ==> r != Failure(ValueError)
    ensures ',' !in text && ParseFloat(DropFirst(text)).Some? ==> r == Success(ParseFloat(DropFirst(text)).value)
    ensures ',' in text ==> (r.Failure? <==> forall i :: 0 <= i < |text| ==> !IsDigit(text[i]))
    ensures ',' in text && r.Success? ==> r.value == DigitsValue(KeepDigits(text)) as real
    ensures r.Failure? ==> r.error == IndexError || r.error == ValueError
  {
    if ',' !in text then
      match ParseFloat(DropFirst(text))
      case Some(v) => Success(v)
      case None =>
        match FirstNumberSpan(text)
        case None => Failure(IndexError)
        case Some(span) =>
          PatternIsNumeral(text[span.start..span.end]);
          TextFloat(text[span.start..span.end])
    else
      DigitsPrice(text)
  }

  /** The sale price from the text of a `red-sale-price` span: no pattern fallback. */
  function SalePrice(text: string): (r: Result<real>)
    ensures ',' !in text ==> (r.Failure? <==> ParseFloat(DropFirst(text)).None?)
    ensures ',' !in text && r.Success? ==> Some(r.value) == ParseFloat(DropFirst(text))
    ensures ',' in text ==> (r.Failure? <==> forall i :: 0 <= i < |text| ==> !IsDigit(text[i]))
    ensures ',' in text && r.Success? ==> r.value == DigitsValue(KeepDigits(text)) as real
    ensures r.Failure? ==> r.error == ValueError
  {
    if ',' !in text then TextFloat(DropFirst(text)) else DigitsPrice(text)
  }

  /** When the direct read fails, the list price is the value of the leftmost-longest slice
      of the text in the number pattern's language. */
  lemma ListPriceFallback(text: string, p: nat, e: nat)
    requires ',' !in text && ParseFloat(DropFirst(text)).None?
    requires p < e <= |text| && InPattern(text[p..e])
    requires forall q, f :: 0 <= q < p && q < f <= |text| ==> !InPattern(text[q..f])
    requires forall f :: e < f <= |text| ==> !InPattern(text[p..f])
    ensures ListPrice(text).Success?
    ensures ParseFloat(text[p..e]) == Some(ListPrice(text).value)
  {
    var span := FirstNumberSpan(text);
    assert span.Some?;
    assert span.value.start == p;
    assert span.value.end == e;
    PatternIsNumeral(text[p..e]);
  }

  /** The price of a product block from its optional list-price and sale-price texts. */
  function BlockPrice(listText: Option<string>, saleText: Option<string>): (r: Result<real>)
    ensures listText.None? && saleText.None? ==> r == Success(0.0)
    ensures listText.Some? && ListPrice(listText.value).Failure? ==> r == ListPrice(listText.value)
    ensures saleText.Some? && (listText.None? || ListPrice(listText.value).Success?) ==>
      r == SalePrice(saleText.value)
    ensures saleText.None? && listText.Some? ==> r == ListPrice(listText.value)
    ensures r.Failure? ==> r.error == IndexError || r.error == ValueError
  {
    var listed :- match listText
      case None => Success(0.0)
      case Some(t) => ListPrice(t);
    match saleText
    case None => Success(listed)
    case Some(t) => SalePrice(t)
  }

  lemma NoCommaInSpelling(n: Numeral)
    requires WellFormed(n)
    ensures ',' !in Spell(n)
  {
  }

  /** A price written as one symbol followed by a numeral reads back as the numeral's
      value, as a list price and as a sale price. */
  lemma {:induction false} SymbolNumeralRoundTrip(symbol: char, n: Numeral)
    requires symbol != ','
    requires WellFormed(n)
    ensures ListPrice([symbol] + Spell(n)) == Success(Value(n))
    ensures SalePrice([symbol] + Spell(n)) == Success(Value(n))
  {
    var text := [symbol] + Spell(n);
    NoCommaInSpelling(n);
    assert DropFirst(text) == Spell(n);
    LexSpell(n);
  }

  lemma ThousandsDigits(symbol: char, a: string, b: string, c: string)
    requires AllDigits(a) && AllDigits(b) && AllDigits(c)
    requires !IsDigit(symbol)
    ensures KeepDigits([symbol] + a + "," + b + "." + c) == a + b + c
  {
    var p1 := [symbol] + a;
    var p2 := p1 + ",";
    var p3 := p2 + b;
    var p4 := p3 + ".";
    assert KeepDigits([symbol]) == "" by {
      KeepDigitsAppendOther([], symbol);
      assert [] + [symbol] == [symbol];
    }
    assert KeepDigits(p1) == a by {
      KeepDigitsAppendDigits([symbol], a);
      assert "" + a == a;
    }
    assert KeepDigits(p3) == a + b by {
      KeepDigitsAppendOther(p1, ',');
      KeepDigitsAppendDigits(p2, b);
    }
    assert KeepDigits(p4 + c) == a + b + c by {
      KeepDigitsAppendOther(p3, '.');
      KeepDigitsAppendDigits(p4, c);
    }
    assert p4 + c == [symbol] + a + "," + b + "." + c;
  }

  /** A thousands-separated amount is read as all its digits, cents included, so it comes
      out scaled by ten to the number of decimals: "$2,499.00" reads as 249900. */
  lemma ThousandsAmountScaled(symbol: char, a: string, b: string, c: string)
    requires AllDigits(a) && AllDigits(b) && AllDigits(c)
    requires !IsDigit(symbol)
    requires |a + b + c| > 0
    ensures AllDigits(a + b) && AllDigits(a + b + c)
    ensures DigitsValue(a + b + c) == DigitsValue(a + b) * Pow10(|c|) + DigitsValue(c)
    ensures var text := [symbol] + a + "," + b + "." + c;
            && ListPrice(text) == Success(DigitsValue(a + b + c) as real)
            && SalePrice(text) == ListPrice(text)
  {
    var text := [symbol] + a + "," + b + "." + c;
    var d := a + b + c;
    assert ',' in text by {
      assert text[1 + |a|] == ',';
    }
    assert KeepDigits(text) == d by {
      ThousandsDigits(symbol, a, b, c);
    }
    assert AllDigits(a + b) && DigitsValue(d) == DigitsValue(a + b) * Pow10(|c|) + DigitsValue(c) by {
      DigitsValueAppend(a, b);
      DigitsValueAppend(a + b, c);
    }
    assert DigitsPrice(text).Success? by {
      if |a| > 0 {
        assert IsDigit(text[1]);
      } else if |b| > 0 {
        assert IsDigit(text[2]);
      } else {
        assert IsDigit(text[3]);
      }
    }
    assert ListPrice(text) == DigitsPrice(text);
    assert SalePrice(text) == DigitsPrice(text);
  }

  lemma TwelveFifty()
    ensures ListPrice("$12.50") == Success(12.5)
  {
    var n := Numeral(NoSign, "12", true, "50");
    assert WellFormed(n);
    var text := ['$'] + Spell(n);
    assert text == "$12.50" by {
      assert Spell(n) == "12.50";
    }
    assert Value(n) == 12.5 by {
      assert DigitsValue("12") == 12 by {
        assert "12"[..1] == "1";
      }
      assert DigitsValue("50") == 50 by {
        assert "50"[..1] == "5";
      }
      assert Pow10(2) == 100;
    }
    assert ListPrice(text) == Success(Value(n)) by {
      SymbolNumeralRoundTrip('$', n);
    }
  }

  lemma NineNinetyNine()
    ensures SalePrice("$9.99") == Success(9.99)
  {
    var n := Numeral(NoSign, "9", true, "99");
    assert WellFormed(n);
    var text := ['$'] + Spell(n);
    assert text == "$9.99" by {
      assert Spell(n) == "9.99";
    }
    assert Value(n) == 9.99 by {
      assert DigitsValue("9") == 9;
      assert DigitsValue("99") == 99 by {
        assert "99"[..1] == "9";
      }
      assert Pow10(2) == 100;
    }
    assert SalePrice(text) == Success(Value(n)) by {
      SymbolNumeralRoundTrip('$', n);
    }
  }

  lemma TwoThousandFourHundredNinetyNine(text: string)
    requires text == "$2,499.00"
    ensures ListPrice(text) == Success(249900.0)
  {
    var a, b, c := "2", "499", "00";
    ThousandsTextParts(text, a, b, c);
    ThousandsPartsPrice(a, b, c);
  }

  lemma ThousandsTextParts(text: string, a: string, b: string, c: string)
    requires text == "$2,499.00" && a == "2" && b == "499" && c == "00"
    ensures text == ['$'] + a + "," + b + "." + c
  {
    assert ['$'] + a == "$2";
    assert "$2" + "," == "$2,";
    assert "$2," + b == "$2,499";
    assert "$2,499" + "." == "$2,499.";
    assert "$2,499." + c == text;
  }

  lemma ThousandsPartsPrice(a: string, b: string, c: string)
    requires a == "2" && b == "499" && c == "00"
    ensures ListPrice(['$'] + a + "," + b + "." + c) == Success(249900.0)
  {
    var d := a + b + c;
    assert d == "249900";
    assert AllDigits(d) && DigitsValue(d) == 249900 by {
      DigitsOf249900();
    }
    assert AllDigits(a) && AllDigits(b) && AllDigits(c);
    ThousandsAmountScaled('$', a, b, c);
  }

  lemma DigitsOf249900()
    ensures AllDigits("249900") && DigitsValue("249900") == 249900
  {
    assert "249900"[..5] == "24990";
    assert "24990"[..4] == "2499";
    assert "2499"[..3] == "249";
    assert "249"[..2] == "24";
    assert "24"[..1] == "2";
  }

  /** "$12.50 ea" is not a number once its first character is dropped, so the list price
      falls back to the first number in the text; the sale price has no fallback. */
  lemma FallbackExample(text: string)
    requires text == "$12.50 ea"
    ensures ParseFloat(DropFirst(text)).None?
    ensures ListPrice(text) == Success(12.5)
    ensures SalePrice(text) == Failure(ValueError)
  {
    assert ',' !in text;
    assert ParseFloat(DropFirst(text)).None? by {
      var body := DropFirst(text);
      assert body == "12.50 ea";
      assert RunEnd(body, 0) == 2 by {
        RunEndUnique(body, 0, 2);
      }
      assert !AllDigits(body[3..]) by {
        assert body[3..][2] == ' ';
      }
    }
    assert FirstNumberSpan(text) == Some(Span(1, 6)) && text[1..6] == "12.50" by {
      FallbackSpan(text);
    }
    assert ParseFloat("12.50") == Some(12.5) by {
      TwelveFiftyValue();
    }
  }

  lemma FallbackSpan(text: string)
    requires text == "$12.50 ea"
    ensures SearchFrom(text, 0) == Some(Span(1, 6)) && text[1..6] == "12.50"
  {
    assert RunEnd(text, 0) == 0;
    assert RunEnd(text, 1) == 3 by {
      RunEndUnique(text, 1, 3);
    }
    assert RunEnd(text, 4) == 6 by {
      RunEndUnique(text, 4, 6);
    }
    assert MatchAt(text, 0).None?;
    assert MatchAt(text, 1) == Some(6);
  }

  lemma TwelveFiftyValue()
    ensures ParseFloat("12.50") == Some(12.5)
  {
    var n := Numeral(NoSign, "12", true, "50");
    assert WellFormed(n) && Spell(n) == "12.50";
    LexSpell(n);
    assert Value(n) == 12.5 by {
      assert DigitsValue("12") == 12 by {
        assert "12"[..1] == "1";
      }
      assert DigitsValue("50") == 50 by {
        assert "50"[..1] == "5";
      }
      assert Pow10(2) == 100;
    }
  }

  /** A list price alone, a thousands-separated list price read as all its digits, a sale
      price overriding a list price, and no price at all. */
  lemma PriceExamples()
    ensures BlockPrice(Some("$12.50"), None) == Success(12.5)
    ensures BlockPrice(Some("$2,499.00"), None) == Success(249900.0)
    ensures BlockPrice(Some("$12.50"), Some("$9.99")) == Success(9.99)
    ensures BlockPrice(None, None) == Success(0.0)
  {
    TwelveFifty();
    NineNinetyNine();
    TwoThousandFourHundredNinetyNine("$2,499.00");
  }
}
