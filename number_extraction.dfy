/**
 * `extractNumbersFromString` of main.js (lines 8-16): the value of the first
 * (leftmost, greedy) match of the pattern \d+\.?\d* in a string, or an empty
 * sentinel when the string holds no decimal digit. The sentinel is None here;
 * the value is the exact real that `Number` denotes for the matched text.
 */
module NumberExtraction {
  import opened Wrappers

  /** The regular-expression class \d: the ASCII decimal digits. */
  predicate IsDigit(c: char) {
    '0' <= c <= '9'
  }

  predicate AllDigits(s: string) {
    forall i :: 0 <= i < |s| ==> IsDigit(s[i])
  }

  predicate NoDigit(s: string) {
    forall i :: 0 <= i < |s| ==> !IsDigit(s[i])
  }

  /** The strings matched in full by \d+\.?\d*: digits, then optionally a point and more digits. */
  ghost predicate IsNumeral(t: string) {
    exists k :: 0 < k <= |t| && AllDigits(t[..k]) && (k == |t| || (t[k] == '.' && AllDigits(t[k + 1..])))
  }

  /**
   * s[i..j] is the first match of the global regular expression: no digit
   * comes before i, s[i..j] is a numeral, and no longer numeral starts at i.
   */
  ghost predicate IsFirstMatch(s: string, i: nat, j: nat) {
    && i < j <= |s|
    && NoDigit(s[..i])
    && IsNumeral(s[i..j])
    && forall j' :: j < j' <= |s| ==> !IsNumeral(s[i..j'])
  }

  /** The value of a digit character; only ever applied to digits. */
  function DigitValue(c: char): int
  {
    (c as int) - ('0' as int)
  }

  /** The value of a run of decimal digits, read left to right. */
  function DigitsValue(ds: string): int
    decreases |ds|
  {
    if ds == [] then 0 else 10 * DigitsValue(ds[..|ds| - 1]) + DigitValue(ds[|ds| - 1])
  }

  /** The value of the digits after a decimal point: 0.d1 d2 d3 ... */
  function FractionValue(ds: string): real
    decreases |ds|
  {
    if ds == [] then 0.0 else (DigitValue(ds[0]) as real + FractionValue(ds[1..])) / 10.0
  }

  /** Index of the first decimal digit at or after i, or |s| when there is none. */
  function FirstDigitFrom(s: string, i: nat): (r: nat)
    requires i <= |s|
    ensures i <= r <= |s|
    ensures r < |s| ==> IsDigit(s[r])
    decreases |s| - i
  {
    if i == |s| || IsDigit(s[i]) then i else FirstDigitFrom(s, i + 1)
  }

  lemma {:induction false} FirstDigitFromMeaning(s: string, i: nat)
    requires i <= |s|
    ensures forall k :: i <= k < FirstDigitFrom(s, i) ==> !IsDigit(s[k])
    decreases |s| - i
  {
    if i < |s| && !IsDigit(s[i]) {
      FirstDigitFromMeaning(s, i + 1);
    }
  }

  /** End of the maximal run of digits that starts at i. */
  function DigitRunEnd(s: string, i: nat): (r: nat)
    requires i <= |s|
    ensures i <= r <= |s|
    ensures r < |s| ==> !IsDigit(s[r])
    decreases |s| - i
  {
    if i < |s| && IsDigit(s[i]) then DigitRunEnd(s, i + 1) else i
  }

  lemma {:induction false} DigitRunEndMeaning(s: string, i: nat)
    requires i <= |s|
    ensures forall k :: i <= k < DigitRunEnd(s, i) ==> IsDigit(s[k])
    decreases |s| - i
  {
    if i < |s| && IsDigit(s[i]) {
      DigitRunEndMeaning(s, i + 1);
    }
  }

  /** End of the greedy match of \d+\.?\d* that starts at the digit s[i]. */
  function MatchEnd(s: string, i: nat): (j: nat)
    requires i < |s| && IsDigit(s[i])
    ensures i < j <= |s|
  {
    var k := DigitRunEnd(s, i);
    if k < |s| && s[k] == '.' then DigitRunEnd(s, k + 1) else k
  }

  /** What `Number` gives for a numeral: its integer part plus its fraction. */
  function NumeralValue(t: string): real
  {
    var k := DigitRunEnd(t, 0);
    (DigitsValue(t[..k]) as real) + (if k < |t| then FractionValue(t[k + 1..]) else 0.0)
  }

  /** The greedy match is a numeral and no longer numeral starts where it starts. */
  lemma MatchEndIsLongest(s: string, i: nat)
    requires i < |s| && IsDigit(s[i])
    ensures IsNumeral(s[i..MatchEnd(s, i)])
    ensures forall j' :: MatchEnd(s, i) < j' <= |s| ==> !IsNumeral(s[i..j'])
  {
    var k := DigitRunEnd(s, i);
    var j := MatchEnd(s, i);
    var t := s[i..j];
    DigitRunEndMeaning(s, i);
    assert t[..k - i] == s[i..k];
    if j != k {
      DigitRunEndMeaning(s, k + 1);
      assert t[k - i] == '.';
      assert t[k - i + 1..] == s[k + 1..j];
    }
    assert 0 < k - i <= |t| && AllDigits(t[..k - i]);
    forall j' | j < j' <= |s|
      ensures !IsNumeral(s[i..j'])
    {
      NoNumeralBeyondMatch(s, i, j');
    }
  }

  /** No numeral starting at i extends past the greedy match. */
  lemma NoNumeralBeyondMatch(s: string, i: nat, j': nat)
    requires i < |s| && IsDigit(s[i])
    requires MatchEnd(s, i) < j' <= |s|
    ensures !IsNumeral(s[i..j'])
  {
    var k := DigitRunEnd(s, i);
    var t' := s[i..j'];
    forall k' | 0 < k' <= |t'|
      ensures !(AllDigits(t'[..k']) && (k' == |t'| || (t'[k'] == '.' && AllDigits(t'[k' + 1..]))))
    {
      assert AllDigits(t'[..k']) <==> forall x :: i <= x < i + k' ==> IsDigit(s[x]) by {
        assert forall m :: 0 <= m < k' ==> t'[..k'][m] == s[i + m];
      }
      assert k' < |t'| ==> t'[k'] == s[i + k'];
      if k' < |t'| {
        assert AllDigits(t'[k' + 1..]) <==> forall x :: i + k' + 1 <= x < j' ==> IsDigit(s[x]) by {
          var rest := t'[k' + 1..];
          assert forall m :: 0 <= m < |rest| ==> rest[m] == s[i + k' + 1 + m];
        }
      }
    }
  }

  /** extractNumbersFromString: the value of the first match, or the sentinel None. */
  function ExtractFirstNumber(s: string): Option<real>
  {
    var i := FirstDigitFrom(s, 0);
    if i == |s| then None else Some(NumeralValue(s[i..MatchEnd(s, i)]))
  }

  /**
   * What extraction means: the sentinel exactly when no digit occurs, and
   * otherwise the value of the first match of \d+\.?\d* in the sense of
   * IsFirstMatch.
   */
  lemma ExtractFirstNumberMeaning(s: string)
    ensures ExtractFirstNumber(s).None? <==> NoDigit(s)
    ensures ExtractFirstNumber(s).Some? ==>
      exists i: nat, j: nat :: IsFirstMatch(s, i, j) && ExtractFirstNumber(s).value == NumeralValue(s[i..j])
  {
    var i := FirstDigitFrom(s, 0);
    FirstDigitFromMeaning(s, 0);
    if i < |s| {
      MatchEndIsLongest(s, i);
      assert NoDigit(s[..i]) by {
        forall k | 0 <= k < i ensures !IsDigit(s[..i][k]) {
          assert s[..i][k] == s[k];
        }
      }
      assert IsFirstMatch(s, i, MatchEnd(s, i));
    }
  }

  /** The first match of a string is unique: its start and its end are determined. */
  lemma FirstMatchIsUnique(s: string, i: nat, j: nat, i': nat, j': nat)
    requires IsFirstMatch(s, i, j) && IsFirstMatch(s, i', j')
    ensures i == i' && j == j'
  {
    NumeralStartsWithDigit(s[i..j]);
    NumeralStartsWithDigit(s[i'..j']);
    assert IsDigit(s[i]) && IsDigit(s[i']);
  }

  lemma NumeralStartsWithDigit(t: string)
    requires IsNumeral(t)
    ensures |t| > 0 && IsDigit(t[0])
  {
    var k :| 0 < k <= |t| && AllDigits(t[..k]) && (k == |t| || (t[k] == '.' && AllDigits(t[k + 1..])));
    assert t[..k][0] == t[0];
  }

  /** The decimal numeral of a natural number, as JavaScript prints it. */
  function NatToDecimal(n: nat): (ds: string)
    ensures |ds| > 0 && AllDigits(ds)
    decreases n
  {
    var d := ['0' + ((n % 10) as char)];
    if n < 10 then d else NatToDecimal(n / 10) + d
  }

  /** Reading back a printed natural number gives the number. */
  lemma {:induction false} DigitsValueOfDecimal(n: nat)
    ensures DigitsValue(NatToDecimal(n)) == n
    decreases n
  {
    var ds := NatToDecimal(n);
    if n >= 10 {
      DigitsValueOfDecimal(n / 10);
      assert ds[..|ds| - 1] == NatToDecimal(n / 10);
    } else {
      assert ds[..0] == [];
    }
  }

  lemma {:induction false} DigitRunEndAt(s: string, i: nat, k: nat)
    requires i <= k <= |s|
    requires forall m :: i <= m < k ==> IsDigit(s[m])
    requires k < |s| ==> !IsDigit(s[k])
    ensures DigitRunEnd(s, i) == k
    decreases k - i
  {
    if i < k {
      DigitRunEndAt(s, i + 1, k);
    }
  }

  lemma {:induction false} FirstDigitFromAt(s: string, i: nat, k: nat)
    requires i <= k <= |s|
    requires forall m :: i <= m < k ==> !IsDigit(s[m])
    requires k < |s| ==> IsDigit(s[k])
    ensures FirstDigitFrom(s, i) == k
    decreases k - i
  {
    if i < k {
      FirstDigitFromAt(s, i + 1, k);
    }
  }

  /**
   * A number printed after text without digits, and followed by neither a
   * digit nor a point, is what extraction returns.
   */
  lemma ExtractAfterLabel(prefix: string, n: nat, suffix: string)
    requires NoDigit(prefix)
    requires suffix != [] ==> !IsDigit(suffix[0]) && suffix[0] != '.'
    ensures ExtractFirstNumber(prefix + NatToDecimal(n) + suffix) == Some(n as real)
  {
    var ds := NatToDecimal(n);
    var s := prefix + ds + suffix;
    var p := |prefix|;
    var e := p + |ds|;
    assert FirstDigitFrom(s, 0) == p by {
      assert s[p] == ds[0];
      assert forall k :: 0 <= k < p ==> s[k] == prefix[k];
      FirstDigitFromAt(s, 0, p);
    }
    assert MatchEnd(s, p) == e by {
      assert forall m :: p <= m < e ==> s[m] == ds[m - p];
      assert e < |s| ==> s[e] == suffix[0];
      DigitRunEndAt(s, p, e);
    }
    assert s[p..e] == ds;
    assert NumeralValue(ds) == n as real by {
      DigitRunEndAt(ds, 0, |ds|);
      assert ds[..|ds|] == ds;
      DigitsValueOfDecimal(n);
    }
  }

  /** The example of the review pages: "Preliminary Rating: 7 out of 10" yields 7. */
  lemma ExtractPreliminaryRating()
    ensures ExtractFirstNumber("Preliminary Rating: 7 out of 10") == Some(7.0)
  {
    var prefix := "Preliminary Rating: ";
    assert NatToDecimal(7) == "7";
    assert "Preliminary Rating: 7 out of 10" == prefix + NatToDecimal(7) + " out of 10";
    ExtractAfterLabel(prefix, 7, " out of 10");
  }
}
