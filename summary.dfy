/**
 * The summary printed after all pages are processed (main.js:137-192):
 * the mean of the per-paper averages, the mean of all reviewer ratings,
 * the papers above each mean, and a four-bucket histogram of the averages.
 * `result` is the sequence of paper records in the order they were stored.
 */
module Summary {
  import opened Wrappers
  import opened Sequences
  import opened Averaging
  import opened ScoreExtractor

  /** `Number(r)` on a stored rating: the "no number" sentinel `[]` becomes 0. */
  function ToNumber(r: Option<real>): real
  {
    match r
    case Some(x) => x
    case None => 0.0
  }

  /** The per-paper averages, in order (main.js:139-142). */
  function Averages(papers: seq<Paper>): seq<real>
  {
    Map((p: Paper) => p.average, papers)
  }

  method CollectAverages(papers: seq<Paper>) returns (scores: seq<real>)
    ensures scores == Averages(papers)
  {
    scores := [];
    for i := 0 to |papers|
      invariant scores == Averages(papers[..i])
    {
      MapSnoc((p: Paper) => p.average, papers[..i], papers[i]);
      assert papers[..i + 1] == papers[..i] + [papers[i]];
      scores := scores + [papers[i].average];
    }
    assert papers[..|papers|] == papers;
  }

  /** Every stored rating of every paper as a number, paper after paper (main.js:147-151). */
  function AllRatings(papers: seq<Paper>): seq<real>
    decreases |papers|
  {
    if papers == [] then []
    else AllRatings(papers[..|papers| - 1]) + Map(ToNumber, papers[|papers| - 1].ratings)
  }

  method CollectRatings(papers: seq<Paper>) returns (scoresR: seq<real>)
    ensures scoresR == AllRatings(papers)
  {
    scoresR := [];
    for i := 0 to |papers|
      invariant scoresR == AllRatings(papers[..i])
    {
      var ratings := papers[i].ratings;
      ghost var before := scoresR;
      for j := 0 to |ratings|
        invariant scoresR == before + Map(ToNumber, ratings[..j])
      {
        MapSnoc(ToNumber, ratings[..j], ratings[j]);
        assert ratings[..j + 1] == ratings[..j] + [ratings[j]];
        AppendAssociates(before, Map(ToNumber, ratings[..j]), [ToNumber(ratings[j])]);
        scoresR := scoresR + [ToNumber(ratings[j])];
      }
      assert ratings[..|ratings|] == ratings;
      assert papers[..i + 1][..i] == papers[..i];
    }
    assert papers[..|papers|] == papers;
  }

  /** How many ratings the papers hold together. */
  function RatingCount(papers: seq<Paper>): nat
    decreases |papers|
  {
    if papers == [] then 0 else RatingCount(papers[..|papers| - 1]) + |papers[|papers| - 1].ratings|
  }

  /** One number per stored rating, each paper's ratings in its own order. */
  lemma {:induction false} AllRatingsMeaning(papers: seq<Paper>, i: nat, j: nat)
    requires i < |papers| && j < |papers[i].ratings|
    ensures |AllRatings(papers)| == RatingCount(papers)
    ensures RatingCount(papers[..i]) + j < |AllRatings(papers)|
    ensures AllRatings(papers)[RatingCount(papers[..i]) + j] == ToNumber(papers[i].ratings[j])
    decreases |papers|
  {
    var init := papers[..|papers| - 1];
    var last := papers[|papers| - 1];
    AllRatingsLength(papers);
    if i < |papers| - 1 {
      assert init[i] == papers[i];
      assert init[..i] == papers[..i];
      AllRatingsMeaning(init, i, j);
    } else {
      assert papers[..i] == init;
      AllRatingsLength(init);
      MapAt(ToNumber, last.ratings, j);
    }
  }

  lemma {:induction false} AllRatingsLength(papers: seq<Paper>)
    ensures |AllRatings(papers)| == RatingCount(papers)
    decreases |papers|
  {
    if papers != [] {
      AllRatingsLength(papers[..|papers| - 1]);
    }
  }

  /** The number of papers whose average is strictly above m (main.js:155-160). */
  function CountAbove(papers: seq<Paper>, m: real): nat
    decreases |papers|
  {
    if papers == [] then 0
    else CountAbove(papers[..|papers| - 1], m) + (if papers[|papers| - 1].average > m then 1 else 0)
  }

  method CountPapersAbove(papers: seq<Paper>, m: real) returns (count: nat)
    ensures count == CountAbove(papers, m)
  {
    count := 0;
    for i := 0 to |papers|
      invariant count == CountAbove(papers[..i], m)
    {
      assert papers[..i + 1][..i] == papers[..i];
      if papers[i].average > m {
        count := count + 1;
      }
    }
    assert papers[..|papers|] == papers;
  }

  /** At most every paper is above m, and all of them are exactly when each average exceeds m. */
  lemma {:induction false} CountAboveBounds(papers: seq<Paper>, m: real)
    ensures CountAbove(papers, m) <= |papers|
    ensures CountAbove(papers, m) == |papers| <==> forall i :: 0 <= i < |papers| ==> papers[i].average > m
    decreases |papers|
  {
    if papers != [] {
      var init := papers[..|papers| - 1];
      CountAboveBounds(init, m);
      assert forall i :: 0 <= i < |init| ==> init[i] == papers[i];
    }
  }

  /** Not every paper can be strictly above the mean of all averages. */
  lemma AboveMeanIsNotAll(papers: seq<Paper>)
    requires papers != []
    ensures CountAbove(papers, Average(Averages(papers))) < |papers|
  {
    var xs := Averages(papers);
    NotAllAboveAverage(xs);
    var i :| 0 <= i < |xs| && xs[i] <= Average(xs);
    MapAt((p: Paper) => p.average, papers, i);
    CountAboveBounds(papers, Average(xs));
  }

  /** Whether some rating of the paper is strictly above m (main.js:165-166). */
  predicate HasRatingAbove(p: Paper, m: real)
  {
    exists k :: 0 <= k < |p.ratings| && ToNumber(p.ratings[k]) > m
  }

  /** The number of papers with at least one rating strictly above m (main.js:163-170). */
  function CountWithRatingAbove(papers: seq<Paper>, m: real): nat
    decreases |papers|
  {
    if papers == [] then 0
    else CountWithRatingAbove(papers[..|papers| - 1], m) + (if HasRatingAbove(papers[|papers| - 1], m) then 1 else 0)
  }

  /** The inner loop stops at the first rating above m, so a paper adds at most one. */
  method CountPapersWithRatingAbove(papers: seq<Paper>, m: real) returns (count: nat)
    ensures count == CountWithRatingAbove(papers, m)
  {
    count := 0;
    for i := 0 to |papers|
      invariant count == CountWithRatingAbove(papers[..i], m)
    {
      assert papers[..i + 1][..i] == papers[..i];
      var ratings := papers[i].ratings;
      ghost var before := count;
      ghost var stopped := false;
      var j := 0;
      while j < |ratings|
        invariant 0 <= j <= |ratings|
        invariant count == before
        invariant forall k :: 0 <= k < j ==> ToNumber(ratings[k]) <= m
        decreases |ratings| - j
      {
        if ToNumber(ratings[j]) > m {
          count := count + 1;
          stopped := true;
          break;
        }
        j := j + 1;
      }
      assert stopped ==> count == before + 1 && HasRatingAbove(papers[i], m);
      assert !stopped ==> count == before && !HasRatingAbove(papers[i], m);
    }
    assert papers[..|papers|] == papers;
  }

  /** How many of xs are strictly above m. */
  function CountGreater(xs: seq<real>, m: real): nat
    decreases |xs|
  {
    if xs == [] then 0 else CountGreater(xs[..|xs| - 1], m) + (if xs[|xs| - 1] > m then 1 else 0)
  }

  lemma {:induction false} CountGreaterAppend(xs: seq<real>, ys: seq<real>, m: real)
    ensures CountGreater(xs + ys, m) == CountGreater(xs, m) + CountGreater(ys, m)
    decreases |ys|
  {
    if ys == [] {
      AppendEmpty(xs);
    } else {
      var init := ys[..|ys| - 1];
      assert (xs + ys)[..|xs + ys| - 1] == xs + init;
      CountGreaterAppend(xs, init, m);
    }
  }

  lemma {:induction false} CountGreaterWitness(xs: seq<real>, m: real, k: nat)
    requires k < |xs| && xs[k] > m
    ensures CountGreater(xs, m) >= 1
    decreases |xs|
  {
    if k < |xs| - 1 {
      var init := xs[..|xs| - 1];
      assert init[k] == xs[k];
      CountGreaterWitness(init, m, k);
    }
  }

  /**
   * Counting each paper once: no more papers than there are papers, and no
   * more than there are ratings above m, which the loop would count
   * without its `break`.
   */
  lemma {:induction false} CountWithRatingAboveBounds(papers: seq<Paper>, m: real)
    ensures CountWithRatingAbove(papers, m) <= |papers|
    ensures CountWithRatingAbove(papers, m) <= CountGreater(AllRatings(papers), m)
    decreases |papers|
  {
    if papers != [] {
      var init := papers[..|papers| - 1];
      var last := papers[|papers| - 1];
      CountWithRatingAboveBounds(init, m);
      CountGreaterAppend(AllRatings(init), Map(ToNumber, last.ratings), m);
      if HasRatingAbove(last, m) {
        var k :| 0 <= k < |last.ratings| && ToNumber(last.ratings[k]) > m;
        MapAt(ToNumber, last.ratings, k);
        CountGreaterWitness(Map(ToNumber, last.ratings), m, k);
      }
    }
  }

  /** The histogram bucket of an average, its ranges checked in the order of main.js:179-187. */
  function Bucket(a: real): Option<nat>
  {
    if a >= 1.0 && a < 2.0 then Some(0)
    else if a >= 2.0 && a < 3.0 then Some(1)
    else if a >= 3.0 && a < 4.0 then Some(2)
    else if a >= 4.0 && a <= 5.0 then Some(3)
    else None
  }

  /** The ranges [1,2), [2,3), [3,4) and [4,5] printed in the summary. */
  predicate InRange(a: real, b: nat)
  {
    (b == 0 && 1.0 <= a < 2.0) || (b == 1 && 2.0 <= a < 3.0) ||
    (b == 2 && 3.0 <= a < 4.0) || (b == 3 && 4.0 <= a <= 5.0)
  }

  /** The if-chain puts an average in a bucket exactly when it lies in that bucket's range. */
  lemma BucketMeaning(a: real, b: nat)
    ensures Bucket(a) == Some(b) <==> InRange(a, b)
  {
  }

  /** The ranges do not overlap. */
  lemma RangesDisjoint(a: real, b: nat, c: nat)
    requires InRange(a, b) && InRange(a, c)
    ensures b == c
  {
  }

  /** An average of exactly 3 is counted in [3,4). */
  lemma BucketOfThree()
    ensures Bucket(3.0) == Some(2)
  {
  }

  /** Averages outside [1,5], and only those, are counted in no bucket. */
  lemma BucketNone(a: real)
    ensures Bucket(a) == None <==> (a < 1.0 || a > 5.0)
  {
  }

  /** The number of papers whose average falls in bucket b. */
  function CountInBucket(papers: seq<Paper>, b: nat): nat
    decreases |papers|
  {
    if papers == [] then 0
    else CountInBucket(papers[..|papers| - 1], b) + (if Bucket(papers[|papers| - 1].average) == Some(b) then 1 else 0)
  }

  /** The number of papers whose average falls in no bucket. */
  function CountOutside(papers: seq<Paper>): nat
    decreases |papers|
  {
    if papers == [] then 0
    else CountOutside(papers[..|papers| - 1]) + (if Bucket(papers[|papers| - 1].average) == None then 1 else 0)
  }

  /** The histogram loop of main.js:173-188. */
  method Histogram(papers: seq<Paper>) returns (count12: nat, count23: nat, count34: nat, count45: nat)
    ensures count12 == CountInBucket(papers, 0) && count23 == CountInBucket(papers, 1)
    ensures count34 == CountInBucket(papers, 2) && count45 == CountInBucket(papers, 3)
  {
    count12, count23, count34, count45 := 0, 0, 0, 0;
    for i := 0 to |papers|
      invariant count12 == CountInBucket(papers[..i], 0) && count23 == CountInBucket(papers[..i], 1)
      invariant count34 == CountInBucket(papers[..i], 2) && count45 == CountInBucket(papers[..i], 3)
    {
      assert papers[..i + 1][..i] == papers[..i];
      var a := papers[i].average;
      if a >= 1.0 && a < 2.0 {
        count12 := count12 + 1;
      } else if a >= 2.0 && a < 3.0 {
        count23 := count23 + 1;
      } else if a >= 3.0 && a < 4.0 {
        count34 := count34 + 1;
      } else if a >= 4.0 && a <= 5.0 {
        count45 := count45 + 1;
      }
    }
    assert papers[..|papers|] == papers;
  }

  /** Every paper lands in exactly one bucket or in none, so the four counts add up to at most n. */
  lemma {:induction false} HistogramPartition(papers: seq<Paper>)
    ensures CountInBucket(papers, 0) + CountInBucket(papers, 1) + CountInBucket(papers, 2)
      + CountInBucket(papers, 3) + CountOutside(papers) == |papers|
    decreases |papers|
  {
    if papers != [] {
      HistogramPartition(papers[..|papers| - 1]);
    }
  }

  /** The figures of the printed summary (main.js:137-192). */
  datatype Report = Report(
    processed: nat,
    averageRating: real,
    reviewerAverage: real,
    aboveAverage: nat,
    aboveReviewerAverage: nat,
    between1And2: nat,
    between2And3: nat,
    between3And4: nat,
    between4And5: nat)

  /** The summary of the stored paper records. */
  function ReportOf(papers: seq<Paper>): Report
  {
    var avgAll := Average(Averages(papers));
    var avgReviewers := Average(AllRatings(papers));
    Report(|papers|, avgAll, avgReviewers, CountAbove(papers, avgAll), CountWithRatingAbove(papers, avgReviewers),
           CountInBucket(papers, 0), CountInBucket(papers, 1), CountInBucket(papers, 2), CountInBucket(papers, 3))
  }

  method Summarize(papers: seq<Paper>) returns (report: Report)
    ensures report == ReportOf(papers)
  {
    var scores := CollectAverages(papers);
    var avgAll := Average(scores);
    var scoresR := CollectRatings(papers);
    var avgReviewers := Average(scoresR);
    var count := CountPapersAbove(papers, avgAll);
    var countR := CountPapersWithRatingAbove(papers, avgReviewers);
    var count12, count23, count34, count45 := Histogram(papers);
    report := Report(|papers|, avgAll, avgReviewers, count, countR, count12, count23, count34, count45);
  }

  /**
   * The counts are consistent: fewer papers than all sit above the overall
   * mean, at most all have a rating above the reviewer mean, and the
   * histogram counts no paper twice.
   */
  lemma ReportBounds(papers: seq<Paper>)
    ensures var r := ReportOf(papers);
      r.aboveAverage <= r.processed && (r.processed > 0 ==> r.aboveAverage < r.processed) &&
      r.aboveReviewerAverage <= r.processed &&
      r.between1And2 + r.between2And3 + r.between3And4 + r.between4And5 <= r.processed
  {
    CountAboveBounds(papers, Average(Averages(papers)));
    if papers != [] {
      AboveMeanIsNotAll(papers);
    }
    CountWithRatingAboveBounds(papers, Average(AllRatings(papers)));
    HistogramPartition(papers);
  }
}
