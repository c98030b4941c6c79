/** The two regular expressions the crawler searches with: the number pattern
    `[-+]?\d*\.\d+|\d+` (price fallback) and the digit run `\d+` (stock
    quantity), with `\d` read as an ASCII digit. `MatchAt` is what Python's
    backtracking engine does when it tries the number pattern at one index:
    the first alternative with a greedy `\d*`, then the second. The lemmas
    show that this is the longest prefix in the pattern's language, so the
    first `re.findall` result is the leftmost-longest match. */
module NumberPattern {
  import opened Results
  import opened Text
  import opened Decimal

  datatype Span = Span(start: nat, end: nat)

  predicate IsSign(c: char) {
    c == '+' || c == '-'
  }

  /** A text without its leading sign character, if it has one. */
  function Unsigned(t: string): string {
    if |t| > 0 && IsSign(t[0]) then t[1..] else t
  }

  /** Texts in the language of `\d*\.\d+`. */
  predicate PointedDigits(u: string) {
    var k := RunEnd(u, 0);
    k + 1 < |u| && u[k] == '.' && AllDigits(u[k + 1..])
  }

  /** Texts in the language of `[-+]?\d*\.\d+`. */
  predicate FractionForm(t: string) {
    PointedDigits(Unsigned(t))
  }

  /** Texts in the language of `\d+`. */
  predicate IntegerForm(t: string) {
    |t| > 0 && AllDigits(t)
  }

  /** Texts in the language of `[-+]?\d*\.\d+|\d+`. */
  predicate InPattern(t: string) {
    FractionForm(t) || IntegerForm(t)
  }

  /** The end of the match the engine finds when it tries the number pattern at index `i`. */
  function MatchAt(s: string, i: nat): Option<nat>
    requires i <= |s|
  {
    var j := if i < |s| && IsSign(s[i]) then i + 1 else i;
    var k := RunEnd(s, j);
    if k + 1 < |s| && s[k] == '.' && IsDigit(s[k + 1]) then Some(RunEnd(s, k + 1))
    else if i < |s| && IsDigit(s[i]) then Some(RunEnd(s, i))
    else None
  }

  /** The digit run at the start of a slice of `s` ends where the run in `s` ends, or at the
      end of the slice. */
  lemma RunEndSlice(s: string, j: nat, e: nat)
    requires j <= e <= |s|
    ensures RunEnd(s[j..e], 0) == (if RunEnd(s, j) < e then RunEnd(s, j) else e) - j
  {
    var u := s[j..e];
    var k := RunEnd(s, j);
    var c := if k < e then k else e;
    forall m | 0 <= m < c - j
      ensures IsDigit(u[m])
    {
      assert u[m] == s[j + m];
    }
    if c < e {
      assert u[c - j] == s[c];
    }
    RunEndUnique(u, 0, c - j);
  }

  lemma AllDigitsSlice(s: string, a: nat, b: nat)
    requires a <= b <= |s|
    ensures AllDigits(s[a..b]) <==> forall m :: a <= m < b ==> IsDigit(s[m])
  {
    assert forall m :: a <= m < b ==> s[m] == s[a..b][m - a];
  }

  /** `PointedDigits` of a slice of `s`, restated with indices of `s`. */
  lemma PointedDigitsAt(s: string, j: nat, e: nat)
    requires j <= e <= |s|
    ensures var k := RunEnd(s, j);
            PointedDigits(s[j..e]) <==> k + 1 < e && s[k] == '.' && forall m :: k < m < e ==> IsDigit(s[m])
  {
    var k := RunEnd(s, j);
    var u := s[j..e];
    RunEndSlice(s, j, e);
    if k + 1 < e {
      assert u[k - j] == s[k];
      assert u[k - j + 1..] == s[k + 1..e];
      AllDigitsSlice(s, k + 1, e);
    }
  }

  /** `FractionForm` of a slice of `s`, restated with indices of `s`. */
  lemma FractionFormAt(s: string, i: nat, e: nat)
    requires i < e <= |s|
    ensures var j := if IsSign(s[i]) then i + 1 else i;
            var k := RunEnd(s, j);
            FractionForm(s[i..e]) <==> k + 1 < e && s[k] == '.' && forall m :: k < m < e ==> IsDigit(s[m])
  {
    var j := if IsSign(s[i]) then i + 1 else i;
    assert s[i..e][0] == s[i];
    assert Unsigned(s[i..e]) == s[j..e];
    PointedDigitsAt(s, j, e);
  }

  /** What the engine matches at `i` is in the pattern's language. */
  lemma MatchAtSound(s: string, i: nat)
    requires i <= |s|
    ensures MatchAt(s, i).Some? ==> i < MatchAt(s, i).value <= |s| && InPattern(s[i..MatchAt(s, i).value])
  {
    if MatchAt(s, i).Some? {
      var e := MatchAt(s, i).value;
      var j := if i < |s| && IsSign(s[i]) then i + 1 else i;
      var k := RunEnd(s, j);
      if k + 1 < |s| && s[k] == '.' && IsDigit(s[k + 1]) {
        FractionFormAt(s, i, e);
      } else {
        assert IntegerForm(s[i..e]);
      }
    }
  }

  /** No longer prefix at `i` is in the pattern's language than what the engine matches. */
  lemma MatchAtLongest(s: string, i: nat, e': nat)
    requires i <= |s|
    requires MatchAt(s, i).Some? && MatchAt(s, i).value < e' <= |s|
    ensures !InPattern(s[i..e'])
  {
    var e := MatchAt(s, i).value;
    var j := if i < |s| && IsSign(s[i]) then i + 1 else i;
    var k := RunEnd(s, j);
    assert !IsDigit(s[e]);
    FractionFormAt(s, i, e');
    if k + 1 < |s| && s[k] == '.' && IsDigit(s[k + 1]) {
      assert k < e < e';
      assert !FractionForm(s[i..e']);
      assert s[i..e'][k - i] == s[k];
    } else {
      assert j == i && k == e;
      assert !FractionForm(s[i..e']) by {
        if k + 1 < e' && s[k] == '.' {
          assert k < k + 1 < e';
        }
      }
      assert s[i..e'][e - i] == s[e];
    }
  }

  /** Whenever some prefix at `i` is in the pattern's language, the engine matches at `i`. */
  lemma MatchAtComplete(s: string, i: nat, e: nat)
    requires i < e <= |s|
    requires InPattern(s[i..e])
    ensures MatchAt(s, i).Some?
  {
    FractionFormAt(s, i, e);
    if !FractionForm(s[i..e]) {
      assert s[i..e][0] == s[i];
    }
  }

  /** Tries the pattern at `i`, `i + 1`, ... and stops at the first index where it matches. */
  function SearchFrom(s: string, i: nat): (r: Option<Span>)
    requires i <= |s|
    ensures r.Some? ==> i <= r.value.start <= |s| && MatchAt(s, r.value.start) == Some(r.value.end)
    ensures r.Some? ==> forall p :: i <= p < r.value.start ==> MatchAt(s, p).None?
    ensures r.None? ==> forall p :: i <= p <= |s| ==> MatchAt(s, p).None?
    decreases |s| - i
  {
    match MatchAt(s, i)
    case Some(e) => Some(Span(i, e))
    case None => if i == |s| then None else SearchFrom(s, i + 1)
  }

  /** The span of `re.findall(r'[-+]?\d*\.\d+|\d+', s)[0]`: the leftmost index where a prefix
      is in the pattern's language, with the longest such prefix; `None` when the list is empty. */
  function FirstNumberSpan(s: string): (r: Option<Span>)
    ensures r.None? ==> forall p, e :: 0 <= p < e <= |s| ==> !InPattern(s[p..e])
    ensures r.Some? ==> r.value.start < r.value.end <= |s| && InPattern(s[r.value.start..r.value.end])
    ensures r.Some? ==> forall p, e :: 0 <= p < r.value.start && p < e <= |s| ==> !InPattern(s[p..e])
    ensures r.Some? ==> forall e :: r.value.end < e <= |s| ==> !InPattern(s[r.value.start..e])
  {
    var r := SearchFrom(s, 0);
    assert r.None? ==> forall p, e :: 0 <= p < e <= |s| ==> !InPattern(s[p..e]) by {
      if r.None? {
        forall p, e | 0 <= p < e <= |s| && InPattern(s[p..e])
          ensures false
        {
          MatchAtComplete(s, p, e);
        }
      }
    }
    assert r.Some? ==> forall p, e :: 0 <= p < r.value.start && p < e <= |s| ==> !InPattern(s[p..e]) by {
      if r.Some? {
        forall p, e | 0 <= p < r.value.start && p < e <= |s| && InPattern(s[p..e])
          ensures false
        {
          MatchAtComplete(s, p, e);
        }
      }
    }
    assert r.Some? ==> forall e :: r.value.end < e <= |s| ==> !InPattern(s[r.value.start..e]) by {
      if r.Some? {
        forall e | r.value.end < e <= |s|
          ensures !InPattern(s[r.value.start..e])
        {
          MatchAtLongest(s, r.value.start, e);
        }
      }
    }
    if r.Some? then MatchAtSound(s, r.value.start); r else r
  }

  /** Every text in the pattern's language is a numeral, so `float()` of a match never raises. */
  lemma PatternIsNumeral(t: string)
    requires InPattern(t)
    ensures Lex(t).Some?
  {
    if FractionForm(t) {
      assert Unsigned(t) == if LexSign(t) == NoSign then t else t[1..];
    } else {
      assert LexSign(t) == NoSign;
      RunEndUnique(t, 0, |t|);
    }
  }

  /** The span of `re.findall('\d+', s)[0]` searched from index `i`: the first digit at or
      after `i` and the end of the digit run it starts. */
  function DigitRunFrom(s: string, i: nat): (r: Option<Span>)
    requires i <= |s|
    ensures r.None? ==> forall p :: i <= p < |s| ==> !IsDigit(s[p])
    ensures r.Some? ==> i <= r.value.start < r.value.end <= |s| && IntegerForm(s[r.value.start..r.value.end])
    ensures r.Some? ==> forall p :: i <= p < r.value.start ==> !IsDigit(s[p])
    ensures r.Some? ==> r.value.end == |s| || !IsDigit(s[r.value.end])
    decreases |s| - i
  {
    if i == |s| then None
    else if IsDigit(s[i]) then
      var e := RunEnd(s, i);
      assert forall m :: 0 <= m < e - i ==> s[i..e][m] == s[i + m];
      Some(Span(i, e))
    else DigitRunFrom(s, i + 1)
  }
}
