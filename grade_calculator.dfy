/** GradeCalculator: letter grades from totals, and term and cumulative averages. */
module GradeCalculator {
  import opened Records

  // ---------------------------------------------------------------------------
  // Letter grades
  // ---------------------------------------------------------------------------

  /** One row of the grading scale: a letter and the closed range of totals it covers. */
  datatype Band = Band(letter: char, lo: real, hi: real)

  /** The grading scale, in the order its bands are tried. */
  const GradingScale: seq<Band> := [
    Band('A', 80.0, 100.0),
    Band('B', 70.0, 79.0),
    Band('C', 60.0, 69.0),
    Band('D', 50.0, 59.0),
    Band('F', 0.0, 49.0)
  ]

  predicate InBand(score: real, b: Band) {
    b.lo <= score <= b.hi
  }

  /** The letter of the first band of `scale` that contains `score`; 'F' when none does. */
  function FirstBandLetter(scale: seq<Band>, score: real): char {
    if |scale| == 0 then 'F'
    else if InBand(score, scale[0]) then scale[0].letter
    else FirstBandLetter(scale[1..], score)
  }

  /** The grade the scale gives to `score`. */
  function Grade(score: real): char {
    FirstBandLetter(GradingScale, score)
  }

  /** Tries the bands in order and returns the first that contains the score,
      falling back to 'F' after the last band. */
  method CalculateGrade(score: real) returns (grade: char)
    ensures grade == Grade(score)
    ensures grade in {'A', 'B', 'C', 'D', 'F'}
  {
    GradeRange(score);
    var i := 0;
    while i < |GradingScale|
      invariant 0 <= i <= |GradingScale|
      invariant FirstBandLetter(GradingScale[i..], score) == Grade(score)
    {
      if InBand(score, GradingScale[i]) {
        return GradingScale[i].letter;
      }
      i := i + 1;
    }
    return 'F';
  }

  /** Every letter `FirstBandLetter` returns is a letter of the scale or the fallback 'F'. */
  lemma {:induction false} FirstBandLetterIn(scale: seq<Band>, score: real)
    ensures FirstBandLetter(scale, score) == 'F'
         || exists i :: 0 <= i < |scale| && scale[i].letter == FirstBandLetter(scale, score)
  {
    if |scale| > 0 && !InBand(score, scale[0]) {
      FirstBandLetterIn(scale[1..], score);
      if FirstBandLetter(scale[1..], score) != 'F' {
        var i :| 0 <= i < |scale[1..]| && scale[1..][i].letter == FirstBandLetter(scale[1..], score);
        assert scale[i + 1].letter == FirstBandLetter(scale, score);
      }
    }
  }

  /** A grade is always one of A, B, C, D and F. */
  lemma GradeRange(score: real)
    ensures Grade(score) in {'A', 'B', 'C', 'D', 'F'}
  {
    FirstBandLetterIn(GradingScale, score);
  }

  /** No total lies in two bands of the scale. */
  predicate Disjoint(scale: seq<Band>) {
    forall i, j :: 0 <= i < j < |scale| ==> scale[i].hi < scale[j].lo || scale[j].hi < scale[i].lo
  }

  /** In a scale of disjoint bands, the first band containing a score is the only one. */
  lemma {:induction false} FirstBandIsTheBand(scale: seq<Band>, score: real, i: int)
    requires Disjoint(scale)
    requires 0 <= i < |scale| && InBand(score, scale[i])
    ensures FirstBandLetter(scale, score) == scale[i].letter
  {
    if i > 0 {
      assert !InBand(score, scale[0]);
      assert Disjoint(scale[1..]) by {
        forall p, q | 0 <= p < q < |scale[1..]|
          ensures scale[1..][p].hi < scale[1..][q].lo || scale[1..][q].hi < scale[1..][p].lo
        {
          assert scale[1..][p] == scale[p + 1] && scale[1..][q] == scale[q + 1];
        }
      }
      FirstBandIsTheBand(scale[1..], score, i - 1);
    }
  }

  /** When no band contains a score, the fallback decides. */
  lemma {:induction false} NoBandFallsBack(scale: seq<Band>, score: real)
    requires forall i :: 0 <= i < |scale| ==> !InBand(score, scale[i])
    ensures FirstBandLetter(scale, score) == 'F'
  {
    if |scale| > 0 {
      assert !InBand(score, scale[0]);
      NoBandFallsBack(scale[1..], score);
    }
  }

  /** A score in a band of the grading scale gets that band's letter;
      a score in no band gets 'F'. */
  lemma GradeIsBandLetter(score: real)
    ensures forall i :: 0 <= i < |GradingScale| && InBand(score, GradingScale[i])
              ==> Grade(score) == GradingScale[i].letter
    ensures (forall i :: 0 <= i < |GradingScale| ==> !InBand(score, GradingScale[i]))
              ==> Grade(score) == 'F'
  {
    assert Disjoint(GradingScale);
    forall i | 0 <= i < |GradingScale| && InBand(score, GradingScale[i])
      ensures Grade(score) == GradingScale[i].letter
    {
      FirstBandIsTheBand(GradingScale, score, i);
    }
    if forall i :: 0 <= i < |GradingScale| ==> !InBand(score, GradingScale[i]) {
      NoBandFallsBack(GradingScale, score);
    }
  }

  /** Band boundaries are inclusive on both sides. */
  lemma GradeBoundaries()
    ensures Grade(100.0) == 'A' && Grade(80.0) == 'A'
    ensures Grade(79.0) == 'B' && Grade(70.0) == 'B'
    ensures Grade(69.0) == 'C' && Grade(60.0) == 'C'
    ensures Grade(59.0) == 'D' && Grade(50.0) == 'D'
    ensures Grade(49.0) == 'F' && Grade(0.0) == 'F'
  {
    GradeIsBandLetter(100.0);
    GradeIsBandLetter(80.0);
    GradeIsBandLetter(79.0);
    GradeIsBandLetter(70.0);
    GradeIsBandLetter(69.0);
    GradeIsBandLetter(60.0);
    GradeIsBandLetter(59.0);
    GradeIsBandLetter(50.0);
    GradeIsBandLetter(49.0);
    GradeIsBandLetter(0.0);
  }

  /** Negative totals, totals above 100 and totals in the gaps between bands
      all reach the 'F' fallback. */
  lemma GradeOutsideBands(score: real)
    requires score < 0.0 || score > 100.0
          || (79.0 < score < 80.0) || (69.0 < score < 70.0)
          || (59.0 < score < 60.0) || (49.0 < score < 50.0)
    ensures Grade(score) == 'F'
  {
    GradeIsBandLetter(score);
  }

  /** The order of the letters, best first: A above B above C above D above F. */
  function LetterRank(c: char): int {
    if c == 'A' then 4 else if c == 'B' then 3 else if c == 'C' then 2 else if c == 'D' then 1 else 0
  }

  /** Totals are sums of two real-valued scores, so they need not be whole
      numbers. A total of 79.5 lies between the B and A bands and gets 'F',
      below the 'B' of the smaller total 79: the scale is not monotone. */
  lemma GradeNotMonotone()
    ensures 79.0 < 79.5 && Grade(79.0) == 'B' && Grade(79.5) == 'F'
    ensures LetterRank(Grade(79.5)) < LetterRank(Grade(79.0))
  {
    GradeIsBandLetter(79.0);
    GradeIsBandLetter(79.5);
  }

  /** The scale read as lower cut-offs: each band runs up to the next band's
      minimum, and totals outside [0, 100] still get 'F'. */
  function CorrectedGrade(score: real): char {
    if score < 0.0 || score > 100.0 then 'F'
    else if score >= 80.0 then 'A'
    else if score >= 70.0 then 'B'
    else if score >= 60.0 then 'C'
    else if score >= 50.0 then 'D'
    else 'F'
  }

  /** Within [0, 100] a higher total never gets a worse corrected letter,
      and 79.5 gets 'B'. */
  lemma CorrectedGradeMonotone(lower: real, higher: real)
    requires 0.0 <= lower <= higher <= 100.0
    ensures LetterRank(CorrectedGrade(lower)) <= LetterRank(CorrectedGrade(higher))
    ensures CorrectedGrade(79.5) == 'B'
  {
  }

  /** The correction changes nothing for a total the scale places in a band,
      nor for a total outside [0, 100]. */
  lemma CorrectedGradeAgrees(score: real)
    requires (exists i :: 0 <= i < |GradingScale| && InBand(score, GradingScale[i]))
          || score < 0.0 || score > 100.0
    ensures CorrectedGrade(score) == Grade(score)
  {
    GradeIsBandLetter(score);
  }

  // ---------------------------------------------------------------------------
  // Term and cumulative averages
  // ---------------------------------------------------------------------------

  /** Does `m` belong to the given student and term? */
  predicate Selects(m: Mark, studentId: int, term: int) {
    m.studentId == studentId && m.term == term
  }

  /** The totals of the rows of `marks` for exactly that student and term, in row order. */
  function Totals(marks: seq<Mark>, studentId: int, term: int): seq<real> {
    if |marks| == 0 then []
    else (if Selects(marks[0], studentId, term) then [marks[0].total] else [])
         + Totals(marks[1..], studentId, term)
  }

  function Sum(xs: seq<real>): real {
    if |xs| == 0 then 0.0 else xs[0] + Sum(xs[1..])
  }

  /** The arithmetic mean; 0 for no values. */
  function Mean(xs: seq<real>): real {
    if |xs| == 0 then 0.0 else Sum(xs) / (|xs| as real)
  }

  /** The mean of the student's totals for one term; 0 when there are none. */
  function TermAverage(marks: seq<Mark>, studentId: int, term: int): real {
    Mean(Totals(marks, studentId, term))
  }

  /** The term-dependent mean of means. Term 1 is the term-1 average, term 2
      the mean of the first two term averages, and any other term the mean of
      the term-2 cumulative average and the term-3 average. */
  function CumulativeAverage(marks: seq<Mark>, studentId: int, currentTerm: int): real
    decreases if currentTerm == 1 || currentTerm == 2 then 0 else 1
  {
    if currentTerm == 1 then
      TermAverage(marks, studentId, 1)
    else if currentTerm == 2 then
      (TermAverage(marks, studentId, 1) + TermAverage(marks, studentId, 2)) / 2.0
    else
      (CumulativeAverage(marks, studentId, 2) + TermAverage(marks, studentId, 3)) / 2.0
  }

  /** `Totals` keeps a value exactly when some selected row carries it. */
  lemma {:induction false} TotalsMembers(marks: seq<Mark>, studentId: int, term: int, x: real)
    ensures x in Totals(marks, studentId, term)
        <==> exists m :: m in marks && Selects(m, studentId, term) && m.total == x
  {
    if |marks| > 0 {
      TotalsMembers(marks[1..], studentId, term, x);
      assert forall m :: m in marks <==> m == marks[0] || m in marks[1..];
    }
  }

  /** `Totals` of a concatenation of tables is the concatenation of their `Totals`. */
  lemma {:induction false} TotalsAppend(marks: seq<Mark>, more: seq<Mark>, studentId: int, term: int)
    ensures Totals(marks + more, studentId, term) == Totals(marks, studentId, term) + Totals(more, studentId, term)
  {
    if |marks| > 0 {
      assert (marks + more)[1..] == marks[1..] + more;
      TotalsAppend(marks[1..], more, studentId, term);
    } else {
      assert marks + more == more;
    }
  }

  /** A student with no rows for a term has term average 0. */
  lemma TermAverageNoMarks(marks: seq<Mark>, studentId: int, term: int)
    requires forall m :: m in marks ==> !Selects(m, studentId, term)
    ensures TermAverage(marks, studentId, term) == 0.0
  {
    var ts := Totals(marks, studentId, term);
    if |ts| > 0 {
      TotalsMembers(marks, studentId, term, ts[0]);
    }
  }

  /** The term average reads only the rows of that student and term: adding a
      row of another student or of another term leaves it unchanged. */
  lemma TermAverageIgnoresOtherRows(marks: seq<Mark>, m: Mark, studentId: int, term: int)
    requires !Selects(m, studentId, term)
    ensures TermAverage(marks + [m], studentId, term) == TermAverage(marks, studentId, term)
    ensures TermAverage([m] + marks, studentId, term) == TermAverage(marks, studentId, term)
  {
    TotalsAppend(marks, [m], studentId, term);
    TotalsAppend([m], marks, studentId, term);
    assert Totals([m], studentId, term) == [];
    assert Totals(marks, studentId, term) + [] == Totals(marks, studentId, term);
    assert [] + Totals(marks, studentId, term) == Totals(marks, studentId, term);
  }

  lemma {:induction false} SumSnoc(xs: seq<real>, x: real)
    ensures Sum(xs + [x]) == Sum(xs) + x
  {
    if |xs| == 0 {
      assert xs + [x] == [x];
    } else {
      assert (xs + [x])[1..] == xs[1..] + [x];
      SumSnoc(xs[1..], x);
    }
  }

  /** Adding one more row of that student and term moves the average as a
      running mean does: n rows averaging `a`, plus a total `t`, give n + 1
      rows averaging (n * a + t) / (n + 1). */
  lemma TermAverageAddRow(marks: seq<Mark>, m: Mark, studentId: int, term: int)
    requires Selects(m, studentId, term)
    ensures var n := |Totals(marks, studentId, term)| as real;
      TermAverage(marks + [m], studentId, term) * (n + 1.0)
        == TermAverage(marks, studentId, term) * n + m.total
  {
    var ts := Totals(marks, studentId, term);
    TotalsAppend(marks, [m], studentId, term);
    assert Totals([m], studentId, term) == [m.total];
    assert Totals(marks + [m], studentId, term) == ts + [m.total];
    SumSnoc(ts, m.total);
    MeanTimesSize(ts + [m.total]);
    MeanTimesSize(ts);
  }

  /** The mean times the number of values is the sum. */
  lemma MeanTimesSize(xs: seq<real>)
    ensures Mean(xs) * (|xs| as real) == Sum(xs)
  {
    if |xs| > 0 {
      var n := |xs| as real;
      assert (Sum(xs) / n) * n == Sum(xs);
    }
  }

  /** A sum of values within [lo, hi] lies within [n*lo, n*hi]. */
  lemma {:induction false} SumBounds(xs: seq<real>, lo: real, hi: real)
    requires forall i :: 0 <= i < |xs| ==> lo <= xs[i] <= hi
    ensures (|xs| as real) * lo <= Sum(xs) <= (|xs| as real) * hi
  {
    if |xs| > 0 {
      SumBounds(xs[1..], lo, hi);
      assert (|xs| as real) * lo == lo + (|xs[1..]| as real) * lo;
      assert (|xs| as real) * hi == hi + (|xs[1..]| as real) * hi;
    }
  }

  /** Dividing a sum within [n*lo, n*hi] by n > 0 gives a mean within [lo, hi]. */
  lemma MeanBounds(sum: real, n: real, lo: real, hi: real)
    requires n > 0.0 && n * lo <= sum <= n * hi
    ensures lo <= sum / n <= hi
  {
    var mean := sum / n;
    assert mean * n == sum;
  }

  /** When every stored total lies in [0, 100], so does every term average. */
  lemma TermAverageWithinScoreRange(marks: seq<Mark>, studentId: int, term: int)
    requires forall m :: m in marks ==> 0.0 <= m.total <= 100.0
    ensures 0.0 <= TermAverage(marks, studentId, term) <= 100.0
  {
    var ts := Totals(marks, studentId, term);
    if |ts| > 0 {
      forall i | 0 <= i < |ts| ensures 0.0 <= ts[i] <= 100.0 {
        TotalsMembers(marks, studentId, term, ts[i]);
      }
      SumBounds(ts, 0.0, 100.0);
      MeanBounds(Sum(ts), |ts| as real, 0.0, 100.0);
    }
  }

  /** When every stored total lies in [0, 100], so does every cumulative average. */
  lemma CumulativeWithinScoreRange(marks: seq<Mark>, studentId: int, currentTerm: int)
    requires forall m :: m in marks ==> 0.0 <= m.total <= 100.0
    ensures 0.0 <= CumulativeAverage(marks, studentId, currentTerm) <= 100.0
  {
    TermAverageWithinScoreRange(marks, studentId, 1);
    TermAverageWithinScoreRange(marks, studentId, 2);
    TermAverageWithinScoreRange(marks, studentId, 3);
  }

  /** The weights of the term averages in each cumulative average: any term
      other than 1 and 2 weighs term 1 and term 2 a quarter each and term 3 a half. */
  lemma CumulativeWeights(marks: seq<Mark>, studentId: int, currentTerm: int)
    ensures var t1, t2, t3 := TermAverage(marks, studentId, 1), TermAverage(marks, studentId, 2),
                              TermAverage(marks, studentId, 3);
      CumulativeAverage(marks, studentId, currentTerm)
        == if currentTerm == 1 then t1
           else if currentTerm == 2 then t1 / 2.0 + t2 / 2.0
           else t1 / 4.0 + t2 / 4.0 + t3 / 2.0
  {
  }

  /** Term averages of 80, 60 and 100 give cumulative averages of 80, 70 and 85
      (not the plain mean of the three terms, 80). */
  lemma CumulativeExample(marks: seq<Mark>, studentId: int)
    requires TermAverage(marks, studentId, 1) == 80.0
    requires TermAverage(marks, studentId, 2) == 60.0
    requires TermAverage(marks, studentId, 3) == 100.0
    ensures CumulativeAverage(marks, studentId, 1) == 80.0
    ensures CumulativeAverage(marks, studentId, 2) == 70.0
    ensures CumulativeAverage(marks, studentId, 3) == 85.0
  {
  }
}
