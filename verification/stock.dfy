/** Stock classification from the text of a product's `stock` div: the
    quantity is the first run of digits in the text (0 when there is none),
    and the status comes from four phrase checks that all run, in a fixed
    order, each overwriting the one before; so the last phrase in that order
    that the text contains wins. */
module Stock {
  import opened Results
  import opened Text
  import opened NumberPattern

  /** The `product_stock` column: the empty string until a phrase check matches. */
  datatype StockStatus = Unset | InStock | OutOfStock | Discontinued | ComingSoon

  /** The text stored for a status. */
  function Label(s: StockStatus): string {
    match s
    case Unset => ""
    case InStock => "IN STOCK"
    case OutOfStock => "OUT OF STOCK"
    case Discontinued => "DISCONTINUED"
    case ComingSoon => "COMING SOON"
  }

  /** The phrase checks, in the order they run. */
  const Checks: seq<StockStatus> := [InStock, OutOfStock, Discontinued, ComingSoon]

  /** The four `if` statements, run one after the other on the stock text. */
  function Classify(prior: StockStatus, line: string): StockStatus {
    var s1 := if Contains(line, "IN STOCK") then InStock else prior;
    var s2 := if Contains(line, "OUT OF STOCK") then OutOfStock else s1;
    var s3 := if Contains(line, "DISCONTINUED") then Discontinued else s2;
    if Contains(line, "COMING SOON") then ComingSoon else s3
  }

  /** The status of the last check in `checks` whose phrase the text contains, or `prior`
      when it contains none. */
  function LastMatch(checks: seq<StockStatus>, line: string, prior: StockStatus): (r: StockStatus)
    ensures r == prior || (r in checks && Contains(line, Label(r)))
  {
    if |checks| == 0 then prior
    else if Contains(line, Label(checks[|checks| - 1])) then checks[|checks| - 1]
    else LastMatch(checks[..|checks| - 1], line, prior)
  }

  /** Running the checks in sequence leaves the last matching phrase's status. */
  lemma ClassifyIsLastMatch(prior: StockStatus, line: string)
    ensures Classify(prior, line) == LastMatch(Checks, line, prior)
  {
    var c3, c2, c1 := Checks[..3], Checks[..2], Checks[..1];
    assert Checks[..3] == c3 && c3[..2] == c2 && c2[..1] == c1 && c1[..0] == [];
    var s1 := if Contains(line, "IN STOCK") then InStock else prior;
    var s2 := if Contains(line, "OUT OF STOCK") then OutOfStock else s1;
    var s3 := if Contains(line, "DISCONTINUED") then Discontinued else s2;
    assert LastMatch(c1, line, prior) == s1;
    assert LastMatch(c2, line, prior) == s2;
    assert LastMatch(c3, line, prior) == s3;
  }

  /** Each status is reported exactly when its phrase is present and no phrase checked
      after it is. */
  lemma ClassifyIff(line: string)
    ensures Classify(Unset, line) == ComingSoon <==> Contains(line, "COMING SOON")
    ensures Classify(Unset, line) == Discontinued <==>
      Contains(line, "DISCONTINUED") && !Contains(line, "COMING SOON")
    ensures Classify(Unset, line) == OutOfStock <==>
      Contains(line, "OUT OF STOCK") && !Contains(line, "DISCONTINUED") && !Contains(line, "COMING SOON")
    ensures Classify(Unset, line) == InStock <==>
      Contains(line, "IN STOCK") && !Contains(line, "OUT OF STOCK") && !Contains(line, "DISCONTINUED") &&
      !Contains(line, "COMING SOON")
    ensures Classify(Unset, line) == Unset <==>
      !Contains(line, "IN STOCK") && !Contains(line, "OUT OF STOCK") && !Contains(line, "DISCONTINUED") &&
      !Contains(line, "COMING SOON")
  {
  }

  /** The quantity: the first run of digits in the stock text, or 0 when it has no digit. */
  function Quantity(line: string): (q: nat)
    ensures (forall m :: 0 <= m < |line| ==> !IsDigit(line[m])) ==> q == 0
  {
    match DigitRunFrom(line, 0)
    case None => 0
    case Some(span) => DigitsValue(line[span.start..span.end])
  }

  /** The quantity is the value of the first maximal digit run. */
  lemma QuantityIsFirstRun(line: string, p: nat, e: nat)
    requires p < e <= |line|
    requires forall m :: 0 <= m < p ==> !IsDigit(line[m])
    requires forall m :: p <= m < e ==> IsDigit(line[m])
    requires e == |line| || !IsDigit(line[e])
    ensures AllDigits(line[p..e])
    ensures Quantity(line) == DigitsValue(line[p..e])
  {
    assert forall m :: 0 <= m < e - p ==> line[p..e][m] == line[p + m];
    var span := DigitRunFrom(line, 0);
    assert span.Some? by {
      assert IsDigit(line[p]);
    }
    assert IsDigit(line[span.value.start]) by {
      AllDigitsSlice(line, span.value.start, span.value.end);
    }
    assert IsDigit(line[p]);
    assert span.value.start == p;
    AllDigitsSlice(line, p, span.value.end);
    RunEndUnique(line, p, e);
    RunEndUnique(line, p, span.value.end);
  }

  /** A phrase with a character the text lacks does not occur in it. */
  lemma MissingCharNotContained(text: string, phrase: string, c: char)
    requires c in phrase && c !in text
    ensures !Contains(text, phrase)
  {
    ContainsIff(text, phrase);
  }

  /** "142 IN STOCK" has quantity 142. */
  lemma QuantityExample(line: string)
    requires line == "142 IN STOCK"
    ensures Quantity(line) == 142
  {
    QuantityIsFirstRun(line, 0, 3);
    assert line[0..3] == "142";
    assert DigitsValue("142") == 142 by {
      assert "142"[..2] == "14";
      assert "14"[..1] == "1";
    }
  }

  /** "142 IN STOCK" is in stock. */
  lemma InStockExample(line: string)
    requires line == "142 IN STOCK"
    ensures Classify(Unset, line) == InStock
  {
    assert Contains(line, "IN STOCK") by {
      ContainsIff(line, "IN STOCK");
      assert OccursAt(line, "IN STOCK", 4);
    }
    assert !Contains(line, "OUT OF STOCK") by {
      MissingCharNotContained(line, "OUT OF STOCK", 'U');
    }
    assert !Contains(line, "DISCONTINUED") by {
      MissingCharNotContained(line, "DISCONTINUED", 'D');
    }
    assert !Contains(line, "COMING SOON") by {
      MissingCharNotContained(line, "COMING SOON", 'G');
    }
  }

  /** With two phrases present, the one checked later wins. */
  lemma TwoPhrasesExample(both: string)
    requires both == "OUT OF STOCK " + "DISCONTINUED"
    ensures Classify(Unset, both) == Discontinued
  {
    ClassifyIff(both);
    ContainsSuffix("OUT OF STOCK ", "DISCONTINUED");
    MissingCharNotContained(both, "COMING SOON", 'G');
  }

  /** A text contains its own suffix. */
  lemma ContainsSuffix(head: string, phrase: string)
    ensures Contains(head + phrase, phrase)
  {
    var text := head + phrase;
    ContainsIff(text, phrase);
    assert text[|head|..|head| + |phrase|] == phrase;
    assert OccursAt(text, phrase, |head|);
  }
}
