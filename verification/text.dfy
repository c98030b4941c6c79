/** Character and string helpers shared by the crawler model: ASCII decimal
    digits and the numbers they spell, the digit filter behind
    `''.join(re.findall('\d', s))`, substring search (Python's `in`), ASCII
    lower-casing, and code-point lexicographic order (SQLite's BINARY
    collation on UTF-8 text orders strings by code point). */
module Text {
  import opened Results

  predicate IsDigit(c: char) {
    '0' <= c <= '9'
  }

  predicate AllDigits(s: string) {
    forall i :: 0 <= i < |s| ==> IsDigit(s[i])
  }

  function DigitValue(c: char): (v: nat)
    requires IsDigit(c)
    ensures v < 10
  {
    c as int - '0' as int
  }

  function Pow10(n: nat): (p: nat)
    ensures p >= 1
  {
    if n == 0 then 1 else 10 * Pow10(n - 1)
  }

  /** The natural number a string of decimal digits spells, most significant digit first. */
  function DigitsValue(s: string): nat
    requires AllDigits(s)
  {
    if |s| == 0 then 0 else 10 * DigitsValue(s[..|s| - 1]) + DigitValue(s[|s| - 1])
  }

  /** Place value: appending digits `b` shifts the value of `a` left by `|b|` places. */
  lemma {:induction false} DigitsValueAppend(a: string, b: string)
    requires AllDigits(a) && AllDigits(b)
    ensures AllDigits(a + b)
    ensures DigitsValue(a + b) == DigitsValue(a) * Pow10(|b|) + DigitsValue(b)
  {
    assert AllDigits(a + b) by {
      assert forall i :: 0 <= i < |a + b| ==> (a + b)[i] == if i < |a| then a[i] else b[i - |a|];
    }
    if |b| == 0 {
      assert a + b == a;
    } else {
      var b' := b[..|b| - 1];
      var d := DigitValue(b[|b| - 1]);
      assert AllDigits(b') by {
        assert forall i :: 0 <= i < |b'| ==> b'[i] == b[i];
      }
      assert (a + b)[..|a + b| - 1] == a + b';
      assert (a + b)[|a + b| - 1] == b[|b| - 1];
      assert DigitsValue(a + b) == 10 * DigitsValue(a + b') + d;
      assert DigitsValue(b) == 10 * DigitsValue(b') + d;
      DigitsValueAppend(a, b');
      ShiftStep(DigitsValue(a), Pow10(|b'|), DigitsValue(b'), d);
    }
  }

  /** The arithmetic step of `DigitsValueAppend`. */
  lemma ShiftStep(x: int, p: int, y: int, d: int)
    ensures 10 * (x * p + y) + d == x * (10 * p) + (10 * y + d)
  {
  }

  /** The digits of `s`, in order, with every other character dropped. */
  function KeepDigits(s: string): (d: string)
    ensures AllDigits(d)
    ensures |d| <= |s|
  {
    if |s| == 0 then ""
    else (if IsDigit(s[0]) then [s[0]] else "") + KeepDigits(s[1..])
  }

  /** Digit filtering distributes over concatenation, so it keeps the digits in their order. */
  lemma {:induction false} KeepDigitsAppend(a: string, b: string)
    ensures KeepDigits(a + b) == KeepDigits(a) + KeepDigits(b)
  {
    if |a| == 0 {
      assert a + b == b;
    } else {
      var head := if IsDigit(a[0]) then [a[0]] else "";
      assert (a + b)[0] == a[0];
      assert (a + b)[1..] == a[1..] + b;
      assert KeepDigits(a + b) == head + KeepDigits(a[1..] + b);
      KeepDigitsAppend(a[1..], b);
      ConcatAssociative(head, KeepDigits(a[1..]), KeepDigits(b));
    }
  }

  /** Digit filtering keeps every digit of `s` as often as it occurs and nothing else. */
  lemma {:induction false} KeepDigitsContents(s: string)
    ensures forall c :: multiset(KeepDigits(s))[c] == if IsDigit(c) then multiset(s)[c] else 0
  {
    if |s| > 0 {
      KeepDigitsContents(s[1..]);
      assert s == [s[0]] + s[1..];
      assert multiset(s) == multiset{s[0]} + multiset(s[1..]);
    }
  }

  /** A string is left unchanged by digit filtering exactly when it is all digits. */
  lemma {:induction false} KeepDigitsFixpoint(s: string)
    ensures KeepDigits(s) == s <==> AllDigits(s)
  {
    if |s| > 0 {
      KeepDigitsFixpoint(s[1..]);
      if !IsDigit(s[0]) {
        assert |KeepDigits(s)| <= |s[1..]| < |s|;
      }
    }
  }

  /** Appending digits to a text appends them to its filtered digits. */
  lemma KeepDigitsAppendDigits(s: string, d: string)
    requires AllDigits(d)
    ensures KeepDigits(s + d) == KeepDigits(s) + d
  {
    KeepDigitsAppend(s, d);
    KeepDigitsFixpoint(d);
  }

  /** Appending a character that is not a digit leaves the filtered digits as they are. */
  lemma KeepDigitsAppendOther(s: string, c: char)
    requires !IsDigit(c)
    ensures KeepDigits(s + [c]) == KeepDigits(s)
  {
    KeepDigitsAppend(s, [c]);
    assert KeepDigits([c]) == "";
  }

  /** End of the maximal run of digits in `s` that starts at index `j`. */
  function RunEnd(s: string, j: nat): (k: nat)
    requires j <= |s|
    ensures j <= k <= |s|
    ensures forall i :: j <= i < k ==> IsDigit(s[i])
    ensures k == |s| || !IsDigit(s[k])
    decreases |s| - j
  {
    if j < |s| && IsDigit(s[j]) then RunEnd(s, j + 1) else j
  }

  /** The maximal run is unique: any end with the two run properties is `RunEnd`. */
  lemma RunEndUnique(s: string, j: nat, k: nat)
    requires j <= k <= |s|
    requires forall i :: j <= i < k ==> IsDigit(s[i])
    requires k == |s| || !IsDigit(s[k])
    ensures RunEnd(s, j) == k
  {
  }

  /** Python's `phrase in text` on strings. */
  predicate Contains(text: string, phrase: string)
    decreases |text|
  {
    |phrase| <= |text| && (text[..|phrase|] == phrase || (0 < |text| && Contains(text[1..], phrase)))
  }

  predicate OccursAt(text: string, phrase: string, i: nat) {
    i + |phrase| <= |text| && text[i..i + |phrase|] == phrase
  }

  /** `Contains` holds exactly when the phrase occurs at some index of the text. */
  lemma {:induction false} ContainsIff(text: string, phrase: string)
    ensures Contains(text, phrase) <==> exists i: nat :: OccursAt(text, phrase, i)
    decreases |text|
  {
    if Contains(text, phrase) {
      if text[..|phrase|] == phrase {
        assert OccursAt(text, phrase, 0);
      } else {
        ContainsIff(text[1..], phrase);
        var i: nat :| OccursAt(text[1..], phrase, i);
        assert text[1..][i..i + |phrase|] == text[i + 1..i + 1 + |phrase|];
        assert OccursAt(text, phrase, i + 1);
      }
    }
    if i: nat :| OccursAt(text, phrase, i) {
      if i > 0 {
        assert text[1..][i - 1..i - 1 + |phrase|] == text[i..i + |phrase|];
        assert OccursAt(text[1..], phrase, i - 1);
        ContainsIff(text[1..], phrase);
      }
    }
  }

  function LowerChar(c: char): char {
    if 'A' <= c <= 'Z' then (c as int + ('a' as int - 'A' as int)) as char else c
  }

  /** Python's `str.lower()` restricted to ASCII letters. */
  function Lower(s: string): (r: string)
    ensures |r| == |s|
    ensures forall i :: 0 <= i < |s| ==> r[i] == LowerChar(s[i])
  {
    seq(|s|, i requires 0 <= i < |s| => LowerChar(s[i]))
  }

  /** Link text that lower-cases to "more". */
  predicate IsMoreLabel(text: string) {
    Lower(text) == "more"
  }

  /** "more" in any letter case, and nothing else, is a "more" label. */
  lemma MoreLabelAnyCase(text: string)
    ensures IsMoreLabel(text) <==>
      |text| == 4 && text[0] in "mM" && text[1] in "oO" && text[2] in "rR" && text[3] in "eE"
  {
    if |text| == 4 && text[0] in "mM" && text[1] in "oO" && text[2] in "rR" && text[3] in "eE" {
      assert Lower(text) == "more";
    }
    if IsMoreLabel(text) {
      assert Lower(text)[0] == 'm' && Lower(text)[1] == 'o' && Lower(text)[2] == 'r' && Lower(text)[3] == 'e';
    }
  }

  /** Lexicographic order on code points, a proper prefix sorting first. */
  predicate LexLe(a: string, b: string)
    decreases |a|
  {
    |a| == 0 || (|b| > 0 && (a[0] < b[0] || (a[0] == b[0] && LexLe(a[1..], b[1..]))))
  }

  lemma {:induction false} LexLeTotal(a: string, b: string)
    ensures LexLe(a, b) || LexLe(b, a)
    decreases |a|
  {
    if |a| > 0 && |b| > 0 && a[0] == b[0] {
      LexLeTotal(a[1..], b[1..]);
    }
  }

  lemma {:induction false} LexLeTransitive(a: string, b: string, c: string)
    requires LexLe(a, b) && LexLe(b, c)
    ensures LexLe(a, c)
    decreases |a|
  {
    if |a| > 0 && a[0] == b[0] && b[0] == c[0] {
      LexLeTransitive(a[1..], b[1..], c[1..]);
    }
  }
}
