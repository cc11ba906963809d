/**
 * The score extractor of main.js (`extract_stats`, lines 67-118): for every
 * paper page, scan the markup for the label "Preliminary Rating", take the
 * first number after every even-numbered occurrence, and average them.
 * Loading a page and turning an HTML snippet into text happen in the browser;
 * here they are the function parameters `pageContent` and `innerText`.
 */
module ScoreExtractor {
  import opened Wrappers
  import opened Averaging
  import opened NumberExtraction
  import opened Sequences

  /** The label searched for on a paper's page (main.js:80). */
  const Keyword: string := "Preliminary Rating"

  /** How many characters after the label are looked at (main.js:93). */
  const SnippetLength: nat := 100

  /** JavaScript clamps string positions into 0..length. */
  function Clamp(x: int, n: nat): (r: nat)
    ensures r <= n
    ensures 0 <= x <= n ==> r == x
  {
    if x < 0 then 0 else if x > n then n else x
  }

  predicate OccursAt(content: string, keyword: string, p: int) {
    0 <= p && p + |keyword| <= |content| && forall k :: 0 <= k < |keyword| ==> content[p + k] == keyword[k]
  }

  /** Whether keyword[k..] occurs in content at position p + k, compared character by character. */
  function MatchesFrom(content: string, keyword: string, p: nat, k: nat): bool
    requires p + |keyword| <= |content| && k <= |keyword|
    decreases |keyword| - k
  {
    k == |keyword| || (content[p + k] == keyword[k] && MatchesFrom(content, keyword, p, k + 1))
  }

  lemma {:induction false} MatchesFromMeaning(content: string, keyword: string, p: nat, k: nat)
    requires p + |keyword| <= |content| && k <= |keyword|
    ensures MatchesFrom(content, keyword, p, k) <==> forall m :: k <= m < |keyword| ==> content[p + m] == keyword[m]
    decreases |keyword| - k
  {
    if k < |keyword| {
      MatchesFromMeaning(content, keyword, p, k + 1);
    }
  }

  /**
   * `content.indexOf(keyword, from)`: the first occurrence at or after the
   * clamped start position, or -1 when there is none (IndexOfMeaning).
   */
  function IndexOf(content: string, keyword: string, from: int): (r: int)
    ensures r == -1 || Clamp(from, |content|) <= r <= |content| - |keyword|
    decreases |content| - Clamp(from, |content|)
  {
    var f := Clamp(from, |content|);
    if f + |keyword| > |content| then -1
    else if MatchesFrom(content, keyword, f, 0) then f
    else IndexOf(content, keyword, f + 1)
  }

  /** IndexOf finds an occurrence, and no occurrence lies between the start and it. */
  lemma {:induction false} IndexOfMeaning(content: string, keyword: string, from: int)
    ensures var r := IndexOf(content, keyword, from);
      (r == -1 || (Clamp(from, |content|) <= r && OccursAt(content, keyword, r))) &&
      (r == -1 ==> forall p :: Clamp(from, |content|) <= p ==> !OccursAt(content, keyword, p)) &&
      (r != -1 ==> forall p :: Clamp(from, |content|) <= p < r ==> !OccursAt(content, keyword, p))
    decreases |content| - Clamp(from, |content|)
  {
    var f := Clamp(from, |content|);
    if f + |keyword| <= |content| {
      MatchesFromMeaning(content, keyword, f, 0);
      if !MatchesFrom(content, keyword, f, 0) {
        IndexOfMeaning(content, keyword, f + 1);
      }
    }
  }

  /** The characters s[lo], ..., s[hi - 1], taken one at a time. */
  function Slice(s: string, lo: nat, hi: nat): string
    requires lo <= hi <= |s|
    decreases hi - lo
  {
    if lo == hi then [] else [s[lo]] + Slice(s, lo + 1, hi)
  }

  lemma {:induction false} SliceIsSubsequence(s: string, lo: nat, hi: nat)
    requires lo <= hi <= |s|
    ensures Slice(s, lo, hi) == s[lo..hi]
    decreases hi - lo
  {
    if lo < hi {
      SliceIsSubsequence(s, lo + 1, hi);
      assert s[lo..hi] == [s[lo]] + s[lo + 1..hi];
    }
  }

  /** `s.substring(start, end)`: both ends clamped, swapped when out of order. */
  function Substring(s: string, start: int, end: int): string
  {
    var a := Clamp(start, |s|);
    var b := Clamp(end, |s|);
    if a <= b then Slice(s, a, b) else Slice(s, b, a)
  }

  lemma SubstringShape(s: string, start: int, end: int)
    ensures |Substring(s, start, end)| <= if start <= end then end - start else start - end
    ensures 0 <= start <= |s| && start <= end ==> Substring(s, start, end) == s[start..if end < |s| then end else |s|]
  {
    var a := Clamp(start, |s|);
    var b := Clamp(end, |s|);
    if a <= b {
      SliceIsSubsequence(s, a, b);
    } else {
      SliceIsSubsequence(s, b, a);
    }
  }

  /** `s.split('\n')[0]`: everything before the first line break. */
  function FirstLine(s: string): string
    decreases |s|
  {
    if s == [] || s[0] == '\n' then [] else [s[0]] + FirstLine(s[1..])
  }

  /** The first line is a prefix without line breaks that ends at the first break. */
  lemma {:induction false} FirstLineShape(s: string)
    ensures FirstLine(s) <= s
    ensures '\n' !in FirstLine(s)
    ensures |FirstLine(s)| < |s| ==> s[|FirstLine(s)|] == '\n'
    decreases |s|
  {
    if s != [] && s[0] != '\n' {
      FirstLineShape(s[1..]);
      var r := FirstLine(s[1..]);
      assert FirstLine(s) == [s[0]] + r;
      assert s == [s[0]] + s[1..];
    }
  }

  /** The HTML snippet that follows a label ending at `start` (main.js:93). */
  function Snippet(content: string, start: int): string
  {
    FirstLine(Substring(content, start, start + SnippetLength))
  }

  /** At most 100 characters, no line break, and taken from the page right at `start`. */
  lemma SnippetShape(content: string, start: int)
    ensures |Snippet(content, start)| <= SnippetLength && '\n' !in Snippet(content, start)
    ensures 0 <= start <= |content| ==> SnippetReadAt(content, start)
  {
    var sub := Substring(content, start, start + SnippetLength);
    SubstringShape(content, start, start + SnippetLength);
    FirstLineShape(sub);
  }

  /**
   * The occurrences the scan loop visits when its search starts at `from`:
   * a hit at p makes the next search start at p + |keyword| + 1.
   */
  function Hits(content: string, keyword: string, from: nat): seq<nat>
    requires keyword != []
    decreases |content| + 1 - from
  {
    var p := IndexOf(content, keyword, from);
    if p == -1 then [] else [p] + Hits(content, keyword, p + |keyword| + 1)
  }

  /**
   * Every visited position is a genuine occurrence at or after the start,
   * and consecutive ones are more than |keyword| apart.
   */
  lemma {:induction false} HitsAreSpacedOccurrences(content: string, keyword: string, from: nat)
    requires keyword != []
    ensures forall i :: 0 <= i < |Hits(content, keyword, from)| ==>
      from <= Hits(content, keyword, from)[i] && OccursAt(content, keyword, Hits(content, keyword, from)[i])
    ensures forall i :: 0 <= i < |Hits(content, keyword, from)| - 1 ==>
      Hits(content, keyword, from)[i] + |keyword| + 1 <= Hits(content, keyword, from)[i + 1]
    decreases |content| + 1 - from
  {
    var p := IndexOf(content, keyword, from);
    IndexOfMeaning(content, keyword, from);
    if p != -1 {
      var next := p + |keyword| + 1;
      HitsAreSpacedOccurrences(content, keyword, next);
      var h := Hits(content, keyword, from);
      var t := Hits(content, keyword, next);
      assert h == [p] + t;
      assert forall j :: 0 <= j < |t| ==> next <= t[j] && OccursAt(content, keyword, t[j]);
      assert forall j :: 0 <= j < |t| - 1 ==> t[j] + |keyword| + 1 <= t[j + 1];
      forall i | 0 <= i < |h|
        ensures from <= h[i] && OccursAt(content, keyword, h[i])
      {
        if i > 0 {
          assert h[i] == t[i - 1];
        }
      }
      forall i | 0 <= i < |h| - 1
        ensures h[i] + |keyword| + 1 <= h[i + 1]
      {
        assert h[i + 1] == t[i];
        if i > 0 {
          assert h[i] == t[i - 1];
        }
      }
    }
  }

  /**
   * The scan misses no occurrence except those starting within |keyword|
   * characters after a visited one, where the next search has not started yet.
   */
  lemma {:induction false} HitsCoverOccurrences(content: string, keyword: string, from: nat, q: nat)
    requires keyword != []
    requires from <= q && OccursAt(content, keyword, q)
    ensures q in Hits(content, keyword, from) ||
      exists h :: h in Hits(content, keyword, from) && h < q <= h + |keyword|
    decreases |content| + 1 - from
  {
    var p := IndexOf(content, keyword, from);
    IndexOfMeaning(content, keyword, from);
    assert Clamp(from, |content|) <= q;
    if p != -1 {
      var next := p + |keyword| + 1;
      var t := Hits(content, keyword, next);
      assert Hits(content, keyword, from) == [p] + t;
      if q > p + |keyword| {
        HitsCoverOccurrences(content, keyword, next, q);
        if q !in t {
          var h :| h in t && h < q <= h + |keyword|;
          assert h in Hits(content, keyword, from);
        }
      } else if q > p {
        assert p in Hits(content, keyword, from);
      }
    }
  }

  /**
   * The skipped window is real: in "abab" the occurrence of "ab" at 2 is
   * never visited, because the search resumes at 0 + 2 + 1 = 3.
   */
  lemma ScanSkipsAdjacentOccurrence()
    ensures OccursAt("abab", "ab", 2)
    ensures Hits("abab", "ab", 0) == [0]
  {
    assert OccursAt("abab", "ab", 0);
    IndexOfMeaning("abab", "ab", 0);
    assert IndexOf("abab", "ab", 0) == 0;
    assert IndexOf("abab", "ab", 3) == -1;
    assert Hits("abab", "ab", 3) == [];
  }

  /**
   * The elements of s at the positions the scan scores: the first one when
   * `even` holds, then every other one.
   */
  function Pick<T>(s: seq<T>, even: bool): seq<T>
    decreases |s|
  {
    if s == [] then [] else (if even then [s[0]] else []) + Pick(s[1..], !even)
  }

  /** The elements at positions 0, 2, 4, ... in order. */
  function EvenIndexed<T>(s: seq<T>): seq<T>
  {
    Pick(s, true)
  }

  lemma {:induction false} PickShape<T>(s: seq<T>, even: bool)
    ensures |Pick(s, even)| == if even then (|s| + 1) / 2 else |s| / 2
    ensures forall i :: 0 <= i < |Pick(s, even)| ==> Pick(s, even)[i] == s[if even then 2 * i else 2 * i + 1]
    decreases |s|
  {
    if s != [] {
      PickShape(s[1..], !even);
    }
  }

  /** Of k occurrences, ceil(k/2) are kept: those numbered 0, 2, 4, ..., in order. */
  lemma EvenIndexedShape<T>(s: seq<T>)
    ensures |EvenIndexed(s)| == (|s| + 1) / 2
    ensures forall i :: 0 <= i < |EvenIndexed(s)| ==> EvenIndexed(s)[i] == s[2 * i]
  {
    PickShape(s, true);
  }

  /**
   * The score read after the occurrence of `keyword` at p: the first number
   * in the text of the snippet that follows it (main.js:92-100).
   */
  function Rating(content: string, keyword: string, innerText: string -> string, p: nat): Option<real>
  {
    ExtractFirstNumber(innerText(Snippet(content, p + |keyword|)))
  }

  /** The scores read after each of the given occurrences, in order. */
  function RatingsAt(content: string, keyword: string, innerText: string -> string, hits: seq<nat>): seq<Option<real>>
  {
    Map((p: nat) => Rating(content, keyword, innerText, p), hits)
  }

  /** The `data` array of a page: one score per even-numbered visited occurrence. */
  function Ratings(content: string, keyword: string, innerText: string -> string): seq<Option<real>>
    requires keyword != []
  {
    RatingsAt(content, keyword, innerText, EvenIndexed(Hits(content, keyword, 0)))
  }

  lemma RatingsAtSnoc(content: string, keyword: string, innerText: string -> string, hits: seq<nat>, p: nat)
    ensures RatingsAt(content, keyword, innerText, hits + [p])
      == RatingsAt(content, keyword, innerText, hits) + [Rating(content, keyword, innerText, p)]
  {
    MapSnoc((p: nat) => Rating(content, keyword, innerText, p), hits, p);
  }

  lemma RatingsAtIndex(content: string, keyword: string, innerText: string -> string, hits: seq<nat>, i: nat)
    requires i < |hits|
    ensures RatingsAt(content, keyword, innerText, hits)[i] == Rating(content, keyword, innerText, hits[i])
  {
    MapAt((p: nat) => Rating(content, keyword, innerText, p), hits, i);
  }

  /**
   * A page with k visited occurrences yields ceil(k/2) ratings; rating i is
   * the first number of the snippet after occurrence 2 * i.
   */
  lemma RatingsShape(content: string, keyword: string, innerText: string -> string)
    requires keyword != []
    ensures |Ratings(content, keyword, innerText)| == (|Hits(content, keyword, 0)| + 1) / 2
    ensures forall i :: 0 <= i < |Ratings(content, keyword, innerText)| ==>
      Ratings(content, keyword, innerText)[i]
        == Rating(content, keyword, innerText, Hits(content, keyword, 0)[2 * i])
  {
    RatingsCount(content, keyword, innerText);
    forall i | 0 <= i < |Ratings(content, keyword, innerText)|
      ensures Ratings(content, keyword, innerText)[i]
        == Rating(content, keyword, innerText, Hits(content, keyword, 0)[2 * i])
    {
      RatingAt(content, keyword, innerText, i);
    }
  }

  lemma RatingsCount(content: string, keyword: string, innerText: string -> string)
    requires keyword != []
    ensures |Ratings(content, keyword, innerText)| == (|Hits(content, keyword, 0)| + 1) / 2
  {
    EvenIndexedShape(Hits(content, keyword, 0));
  }

  lemma RatingAt(content: string, keyword: string, innerText: string -> string, i: nat)
    requires keyword != []
    requires i < |Ratings(content, keyword, innerText)|
    ensures 2 * i < |Hits(content, keyword, 0)|
    ensures Ratings(content, keyword, innerText)[i]
      == Rating(content, keyword, innerText, Hits(content, keyword, 0)[2 * i])
  {
    var all := Hits(content, keyword, 0);
    EvenIndexedShape(all);
    RatingsAtIndex(content, keyword, innerText, EvenIndexed(all), i);
  }

  /**
   * The snippet after a visited occurrence is read from the page right after
   * the keyword: at most 100 characters, cut before any line break.
   */
  lemma SnippetFollowsKeyword(content: string, keyword: string, j: nat)
    requires keyword != []
    requires j < |Hits(content, keyword, 0)|
    ensures OccursAt(content, keyword, Hits(content, keyword, 0)[j])
    ensures SnippetReadAt(content, Hits(content, keyword, 0)[j] + |keyword|)
  {
    HitOccurs(content, keyword, j);
    SnippetShape(content, Hits(content, keyword, 0)[j] + |keyword|);
  }

  /**
   * The snippet at `start` is the page from `start` on, without a line break,
   * and it stops at the first line break, after 100 characters, or at the end
   * of the page, whichever comes first.
   */
  predicate SnippetReadAt(content: string, start: nat) {
    var s := Snippet(content, start);
    && |s| <= SnippetLength
    && '\n' !in s
    && start + |s| <= |content|
    && s == content[start..start + |s|]
    && (start + |s| == |content| || |s| == SnippetLength || content[start + |s|] == '\n')
  }

  lemma HitOccurs(content: string, keyword: string, j: nat)
    requires keyword != []
    requires j < |Hits(content, keyword, 0)|
    ensures OccursAt(content, keyword, Hits(content, keyword, 0)[j])
  {
    HitsAreSpacedOccurrences(content, keyword, 0);
  }

  /**
   * The occurrences the scan loop still scores once its search resumes at
   * `from`, in loop form; `even` tells whether the next one found is scored.
   */
  ghost function ScanHits(content: string, keyword: string, from: nat, even: bool): seq<nat>
    requires keyword != []
    decreases |content| + 1 - from
  {
    var p := IndexOf(content, keyword, from);
    if p == -1 then []
    else (if even then [p] else []) + ScanHits(content, keyword, p + |keyword| + 1, !even)
  }

  lemma {:induction false} ScanHitsPicks(content: string, keyword: string, from: nat, even: bool)
    requires keyword != []
    ensures ScanHits(content, keyword, from, even) == Pick(Hits(content, keyword, from), even)
    decreases |content| + 1 - from
  {
    var p := IndexOf(content, keyword, from);
    if p != -1 {
      var h := Hits(content, keyword, from);
      var next := p + |keyword| + 1;
      assert h == [p] + Hits(content, keyword, next);
      assert h[1..] == Hits(content, keyword, next);
      ScanHitsPicks(content, keyword, next, !even);
    }
  }

  /**
   * One round of the scan loop: the occurrence found from `from` is
   * recorded when `even` holds, and the search resumes just past it.
   */
  lemma ScanHitsStep(content: string, keyword: string, from: nat, even: bool, scored: seq<nat>,
                     from': nat, even': bool, scored': seq<nat>, total: seq<nat>)
    requires keyword != []
    requires IndexOf(content, keyword, from) != -1
    requires scored + ScanHits(content, keyword, from, even) == total
    requires from' == IndexOf(content, keyword, from) + |keyword| + 1
    requires even' == !even
    requires scored' == scored + (if even then [IndexOf(content, keyword, from)] else [])
    ensures scored' + ScanHits(content, keyword, from', even') == total
  {
    var p := IndexOf(content, keyword, from);
    var rest := ScanHits(content, keyword, from', even');
    if even {
      AppendAssociates(scored, [p], rest);
    } else {
      AppendEmpty(scored);
    }
  }

  lemma ParityFlips(m: nat)
    ensures ((m + 1) % 2 == 0) == !(m % 2 == 0)
  {
  }

  /** Ratings, with the visited occurrences enumerated the way the loop does. */
  lemma RatingsInLoopForm(content: string, keyword: string, innerText: string -> string)
    requires keyword != []
    ensures Ratings(content, keyword, innerText)
      == RatingsAt(content, keyword, innerText, ScanHits(content, keyword, 0, true))
  {
    ScanHitsPicks(content, keyword, 0, true);
  }

  /** The scan loop of main.js:84-107. */
  method ScanRatings(content: string, keyword: string, innerText: string -> string)
    returns (data: seq<Option<real>>)
    requires keyword != []
    ensures data == Ratings(content, keyword, innerText)
  {
    var matchIndex: nat := 0;
    var startIndex := 0;
    data := [];
    ghost var from: nat := 0;
    ghost var even := true;
    ghost var scored: seq<nat> := [];
    startIndex := IndexOf(content, keyword, startIndex);
    while startIndex != -1
      invariant from <= |content| + 1
      invariant startIndex == IndexOf(content, keyword, from)
      invariant even == (matchIndex % 2 == 0)
      invariant scored + ScanHits(content, keyword, from, even) == ScanHits(content, keyword, 0, true)
      invariant data == RatingsAt(content, keyword, innerText, scored)
      decreases |content| + 1 - from
    {
      ghost var hit: nat := startIndex;
      ghost var from0, even0, scored0 := from, even, scored;
      if matchIndex % 2 == 0 {
        startIndex := startIndex + |keyword|;
        var htmlSnippet := FirstLine(Substring(content, startIndex, startIndex + SnippetLength));
        var text := innerText(htmlSnippet);
        var score := ExtractFirstNumber(text);
        data := data + [score];
        assert htmlSnippet == Snippet(content, hit + |keyword|);
        RatingsAtSnoc(content, keyword, innerText, scored, hit);
        scored := scored + [hit];
      } else {
        startIndex := startIndex + |keyword|;
      }
      startIndex := startIndex + 1;
      ParityFlips(matchIndex);
      matchIndex := matchIndex + 1;
      from := startIndex;
      even := !even;
      ScanHitsStep(content, keyword, from0, even0, scored0, from, even, scored, ScanHits(content, keyword, 0, true));
      startIndex := IndexOf(content, keyword, startIndex);
    }
    assert ScanHits(content, keyword, from, even) == [];
    AppendEmpty(scored);
    RatingsInLoopForm(content, keyword, innerText);
  }

  /** One entry of the `metadata` object built for a paper (main.js:108-111). */
  datatype Paper = Paper(url: string, ratings: seq<Option<real>>, average: real)

  /** The numeric ratings, the "no number" entries dropped. */
  function Numbers(data: seq<Option<real>>): seq<real>
    decreases |data|
  {
    if data == [] then []
    else (match data[0] case Some(x) => [x] case None => []) + Numbers(data[1..])
  }

  /** Numbers keeps exactly the values present and drops only sentinels. */
  lemma {:induction false} NumbersMeaning(data: seq<Option<real>>)
    ensures forall x :: x in Numbers(data) <==> Some(x) in data
    ensures |Numbers(data)| <= |data|
    ensures (forall i :: 0 <= i < |data| ==> data[i].Some?) ==> |Numbers(data)| == |data|
    decreases |data|
  {
    if data != [] {
      NumbersMeaning(data[1..]);
      assert data == [data[0]] + data[1..];
      forall x
        ensures x in Numbers(data) <==> Some(x) in data
      {
        assert Some(x) in data <==> Some(x) == data[0] || Some(x) in data[1..];
      }
      if forall i :: 0 <= i < |data| ==> data[i].Some? {
        assert forall i :: 0 <= i < |data[1..]| ==> data[1..][i] == data[i + 1];
      }
    }
  }

  /**
   * Numbers keeps each value as often as the ratings hold it, so it fixes
   * the mean (AveragePermutation); NumbersAppend adds that the order is kept.
   */
  lemma NumbersMultiset(data: seq<Option<real>>)
    ensures forall x :: multiset(Numbers(data))[x] == multiset(data)[Some(x)]
  {
    forall x
      ensures multiset(Numbers(data))[x] == multiset(data)[Some(x)]
    {
      NumbersMultiplicity(data, x);
    }
  }

  lemma {:induction false} NumbersMultiplicity(data: seq<Option<real>>, x: real)
    ensures multiset(Numbers(data))[x] == multiset(data)[Some(x)]
    decreases |data|
  {
    if data == [] {
    } else {
      NumbersMultiplicity(data[1..], x);
      var head := match data[0] case Some(y) => [y] case None => [];
      assert Numbers(data) == head + Numbers(data[1..]);
      assert data == [data[0]] + data[1..];
      assert multiset(data) == multiset([data[0]]) + multiset(data[1..]);
      assert multiset(Numbers(data)) == multiset(head) + multiset(Numbers(data[1..]));
    }
  }

  /** Dropping sentinels commutes with concatenation, so the kept values stay in their order. */
  lemma {:induction false} NumbersAppend(a: seq<Option<real>>, b: seq<Option<real>>)
    ensures Numbers(a + b) == Numbers(a) + Numbers(b)
    decreases |a|
  {
    if a == [] {
      assert a + b == b;
    } else {
      assert (a + b)[0] == a[0];
      assert (a + b)[1..] == a[1..] + b;
      NumbersAppend(a[1..], b);
      var head := match a[0] case Some(y) => [y] case None => [];
      AppendAssociates(head, Numbers(a[1..]), Numbers(b));
    }
  }

  /**
   * The mean of a page's numeric ratings lies between their smallest and
   * largest value, whatever sentinels the page also produced.
   */
  lemma PaperAverageWithinRatings(data: seq<Option<real>>, lo: real, hi: real)
    requires exists i :: 0 <= i < |data| && data[i].Some?
    requires forall i :: 0 <= i < |data| && data[i].Some? ==> lo <= data[i].value <= hi
    ensures lo <= Average(Numbers(data)) <= hi
  {
    NumbersBounded(data, lo, hi);
    var i :| 0 <= i < |data| && data[i].Some?;
    NumbersMeaning(data);
    assert Some(data[i].value) in data;
    AverageWithinBounds(Numbers(data), lo, hi);
  }

  lemma {:induction false} NumbersBounded(data: seq<Option<real>>, lo: real, hi: real)
    requires forall i :: 0 <= i < |data| && data[i].Some? ==> lo <= data[i].value <= hi
    ensures forall k :: 0 <= k < |Numbers(data)| ==> lo <= Numbers(data)[k] <= hi
    decreases |data|
  {
    if data != [] {
      assert forall i :: 0 <= i < |data[1..]| ==> data[1..][i] == data[i + 1];
      NumbersBounded(data[1..], lo, hi);
    }
  }

  /**
   * What `average(data)` computes when `data` holds the sentinel `[]`, for
   * whole-number ratings: JavaScript's `+` adds numbers until it meets `[]`,
   * which turns the running sum into its decimal string; from there on every
   * rating is appended as text (main.js:21, with the sentinel of main.js:14).
   */
  datatype JsValue = JsNumber(n: nat) | JsString(s: string)

  function JsAdd(acc: JsValue, v: Option<nat>): JsValue
  {
    match acc
    case JsNumber(a) => (match v case Some(b) => JsNumber(a + b) case None => JsString(NatToDecimal(a)))
    case JsString(t) => (match v case Some(b) => JsString(t + NatToDecimal(b)) case None => JsString(t))
  }

  /** `data.reduce((acc, curr) => acc + curr, 0)` as JavaScript evaluates it. */
  function JsSum(data: seq<Option<nat>>): JsValue
    decreases |data|
  {
    if data == [] then JsNumber(0) else JsAdd(JsSum(data[..|data| - 1]), data[|data| - 1])
  }

  /** The digit strings built by JsAdd, read back as numbers by the division. */
  function JsToReal(v: JsValue): real
  {
    match v
    case JsNumber(n) => n as real
    case JsString(t) => DigitsValue(t) as real
  }

  /** `average(data)` as written, for whole-number ratings and sentinels. */
  function AverageAsWritten(data: seq<Option<nat>>): real
  {
    if |data| == 0 then 0.0 else JsToReal(JsSum(data)) / (|data| as real)
  }

  /**
   * Ratings 7, none and 5 average to 25 as written ("7" + 5 is "75"), far
   * outside the ratings given; the model's average of the numeric ratings is 6.
   */
  lemma SentinelBreaksAverage()
    ensures AverageAsWritten([Some(7), None, Some(5)]) == 25.0
    ensures Average(Numbers([Some(7.0), None, Some(5.0)])) == 6.0
  {
    var data: seq<Option<nat>> := [Some(7), None, Some(5)];
    assert data[..2] == [Some(7), None];
    assert data[..2][..1] == [Some(7)];
    assert [Some(7)][..0] == [];
    assert NatToDecimal(7) == "7";
    assert NatToDecimal(5) == "5";
    assert JsSum(data) == JsString("75");
    assert DigitsValue("75") == 75 by {
      assert "75"[..1] == "7";
      assert "7"[..0] == [];
    }
    var ratings: seq<Option<real>> := [Some(7.0), None, Some(5.0)];
    assert ratings[1..] == [None, Some(5.0)];
    assert ratings[1..][1..] == [Some(5.0)];
    assert [Some(5.0)][1..] == [];
    assert Numbers(ratings) == [7.0, 5.0];
    assert [7.0, 5.0][..1] == [7.0];
    assert [7.0][..0] == [];
  }

  /** The record kept for the paper at `url` whose page markup is `content`. */
  function PaperOf(url: string, content: string, innerText: string -> string): Paper
  {
    var data := Ratings(content, Keyword, innerText);
    Paper(url, data, Average(Numbers(data)))
  }

  /** The records of all papers, in the order their pages are visited. */
  function Metadata(urls: seq<string>, pageContent: string -> string, innerText: string -> string): seq<Paper>
  {
    Map((url: string) => PaperOf(url, pageContent(url), innerText), urls)
  }

  /** `extract_stats` (main.js:67-118): one record per paper page. */
  method ExtractStats(urls: seq<string>, pageContent: string -> string, innerText: string -> string)
    returns (metadata: seq<Paper>)
    ensures metadata == Metadata(urls, pageContent, innerText)
  {
    metadata := [];
    for i := 0 to |urls|
      invariant metadata == Metadata(urls[..i], pageContent, innerText)
    {
      var url := urls[i];
      var content := pageContent(url);
      var data := ScanRatings(content, Keyword, innerText);
      var avg := Average(Numbers(data));
      MapSnoc((url: string) => PaperOf(url, pageContent(url), innerText), urls[..i], url);
      assert urls[..i + 1] == urls[..i] + [url];
      metadata := metadata + [Paper(url, data, avg)];
    }
    assert urls[..|urls|] == urls;
  }

  /** Record i describes the i-th page. */
  lemma MetadataAt(urls: seq<string>, pageContent: string -> string, innerText: string -> string, i: nat)
    requires i < |urls|
    ensures |Metadata(urls, pageContent, innerText)| == |urls|
    ensures Metadata(urls, pageContent, innerText)[i] == PaperOf(urls[i], pageContent(urls[i]), innerText)
  {
    MapAt((url: string) => PaperOf(url, pageContent(url), innerText), urls, i);
  }
}
