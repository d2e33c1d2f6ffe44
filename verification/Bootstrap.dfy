/** The paired bootstrap and the verdict it supports. */
module Bootstrap {
  import opened Percentile

  const LOW := 0.025
  const HIGH := 0.975
  const MARGIN := -0.1

  function Sum(s: seq<real>): real {
    if s == [] then 0.0 else s[0] + Sum(s[1..])
  }

  /** One resample: the generator is fixed by its seed, so its draws are a given list of indices. */
  predicate Draw(indices: seq<nat>, size: nat) {
    |indices| == size && forall i :: 0 <= i < |indices| ==> indices[i] < size
  }

  predicate Draws(draws: seq<seq<nat>>, size: nat) {
    draws != [] && forall i :: 0 <= i < |draws| ==> Draw(draws[i], size)
  }

  function Resample(d: seq<real>, indices: seq<nat>): (r: seq<real>)
    requires Draw(indices, |d|)
    ensures |r| == |d| && forall i :: 0 <= i < |d| ==> r[i] == d[indices[i]]
  {
    seq(|indices|, i requires 0 <= i < |indices| => d[indices[i]])
  }

  function Over(a: real, n: real): real
    requires n > 0.0
  {
    a / n
  }

  function Mean(d: seq<real>, indices: seq<nat>): real
    requires d != [] && Draw(indices, |d|)
  {
    Over(Sum(Resample(d, indices)), |d| as real)
  }

  function Samples(d: seq<real>, draws: seq<seq<nat>>): (r: seq<real>)
    requires d != [] && Draws(draws, |d|)
    ensures |r| == |draws| && forall i :: 0 <= i < |draws| ==> r[i] == Mean(d, draws[i])
  {
    seq(|draws|, i requires 0 <= i < |draws| => Mean(d, draws[i]))
  }

  function PairedBootstrap(d: seq<real>, draws: seq<seq<nat>>): (real, real)
    requires d != [] && Draws(draws, |d|)
  {
    (Percentile.Of(Samples(d, draws), LOW), Percentile.Of(Samples(d, draws), HIGH))
  }

  /** The one-sided bound of the dominance evaluator; no bound without differences. */
  datatype Bound = NoBound | Bound(value: real)

  function LowerBound(d: seq<real>, draws: seq<seq<nat>>): Bound
    requires d != [] ==> Draws(draws, |d|)
  {
    if d == [] then NoBound else Bound(Percentile.Of(Samples(d, draws), 0.05))
  }

  lemma {:induction false} SumDominates(s: seq<real>, t: seq<real>)
    requires Below(s, t)
    ensures Sum(s) <= Sum(t)
  {
    if s != [] {
      SumDominates(s[1..], t[1..]);
    }
  }

  lemma {:induction false} SumWithin(s: seq<real>, lo: real, hi: real)
    requires forall i :: 0 <= i < |s| ==> lo <= s[i] <= hi
    ensures lo * |s| as real <= Sum(s) <= hi * |s| as real
  {
    if s != [] {
      SumWithin(s[1..], lo, hi);
      assert |s| as real == |s[1..]| as real + 1.0;
      assert lo * |s| as real == lo * |s[1..]| as real + lo;
      assert hi * |s| as real == hi * |s[1..]| as real + hi;
    }
  }

  lemma {:induction false} SumNegate(s: seq<real>)
    ensures Sum(Negate(s)) == -Sum(s)
  {
    if s != [] {
      SumNegate(s[1..]);
    }
  }

  lemma DivideOrder(a: real, b: real, n: real)
    requires a <= b && n > 0.0
    ensures Over(a, n) <= Over(b, n)
  {
  }

  lemma DivideBack(a: real, n: real)
    requires n > 0.0
    ensures Over(a * n, n) == a
  {
  }

  lemma OverNegate(a: real, n: real)
    requires n > 0.0
    ensures Over(-a, n) == -Over(a, n)
  {
  }

  lemma MeanDominates(d: seq<real>, e: seq<real>, indices: seq<nat>)
    requires d != [] && Below(d, e) && Draw(indices, |d|)
    ensures Mean(d, indices) <= Mean(e, indices)
  {
    SumDominates(Resample(d, indices), Resample(e, indices));
    DivideOrder(Sum(Resample(d, indices)), Sum(Resample(e, indices)), |d| as real);
  }

  lemma MeanWithin(d: seq<real>, indices: seq<nat>, lo: real, hi: real)
    requires d != [] && Draw(indices, |d|)
    requires forall i :: 0 <= i < |d| ==> lo <= d[i] <= hi
    ensures lo <= Mean(d, indices) <= hi
  {
    hide Sum, Over;
    var n := |d| as real;
    var sum := Sum(Resample(d, indices));
    SumWithin(Resample(d, indices), lo, hi);
    DivideOrder(lo * n, sum, n);
    DivideOrder(sum, hi * n, n);
    DivideBack(lo, n);
    DivideBack(hi, n);
  }

  lemma SamplesDominate(d: seq<real>, e: seq<real>, draws: seq<seq<nat>>)
    requires d != [] && Below(d, e) && Draws(draws, |d|)
    ensures Below(Samples(d, draws), Samples(e, draws))
  {
    forall i | 0 <= i < |draws| ensures Samples(d, draws)[i] <= Samples(e, draws)[i] {
      MeanDominates(d, e, draws[i]);
    }
  }

  /** For fixed draws, better differences never lower either bound. */
  lemma BootstrapMonotone(d: seq<real>, e: seq<real>, draws: seq<seq<nat>>)
    requires d != [] && Below(d, e) && Draws(draws, |d|)
    ensures PairedBootstrap(d, draws).0 <= PairedBootstrap(e, draws).0
    ensures PairedBootstrap(d, draws).1 <= PairedBootstrap(e, draws).1
    ensures LowerBound(d, draws).value <= LowerBound(e, draws).value
  {
    SamplesDominate(d, e, draws);
    PercentileDominates(Samples(d, draws), Samples(e, draws), LOW);
    PercentileDominates(Samples(d, draws), Samples(e, draws), HIGH);
    PercentileDominates(Samples(d, draws), Samples(e, draws), 0.05);
  }

  /** The interval is ordered and never leaves the range of the differences. */
  lemma BootstrapInterval(d: seq<real>, draws: seq<seq<nat>>, lo: real, hi: real)
    requires d != [] && Draws(draws, |d|)
    requires forall i :: 0 <= i < |d| ==> lo <= d[i] <= hi
    ensures lo <= PairedBootstrap(d, draws).0 <= PairedBootstrap(d, draws).1 <= hi
    ensures lo <= LowerBound(d, draws).value <= hi
  {
    var s := Samples(d, draws);
    forall i | 0 <= i < |s| ensures lo <= s[i] <= hi {
      MeanWithin(d, draws[i], lo, hi);
    }
    PercentileWithin(s, LOW, lo, hi);
    PercentileWithin(s, HIGH, lo, hi);
    PercentileWithin(s, 0.05, lo, hi);
    PercentileMonotone(s, LOW, HIGH);
  }

  lemma ResampleNegate(d: seq<real>, indices: seq<nat>)
    requires Draw(indices, |d|)
    ensures Resample(Negate(d), indices) == Negate(Resample(d, indices))
  {
    var r := Resample(d, indices);
    forall i | 0 <= i < |d| ensures Resample(Negate(d), indices)[i] == Negate(r)[i] {
      NegateAt(d, indices[i]);
      NegateAt(r, i);
    }
  }

  lemma MeanIs(d: seq<real>, indices: seq<nat>)
    requires d != [] && Draw(indices, |d|)
    ensures Mean(d, indices) == Over(Sum(Resample(d, indices)), |d| as real)
  {
  }

  lemma MeanNegate(d: seq<real>, indices: seq<nat>)
    requires d != [] && Draw(indices, |d|)
    ensures Mean(Negate(d), indices) == -Mean(d, indices)
  {
    hide *;
    MeanIs(d, indices);
    MeanIs(Negate(d), indices);
    ResampleNegate(d, indices);
    SumNegate(Resample(d, indices));
    OverNegate(Sum(Resample(d, indices)), |d| as real);
  }

  lemma SamplesNegate(d: seq<real>, draws: seq<seq<nat>>)
    requires d != [] && Draws(draws, |d|)
    ensures Samples(Negate(d), draws) == Negate(Samples(d, draws))
  {
    hide Mean, Negate;
    forall i | 0 <= i < |draws| ensures Samples(Negate(d), draws)[i] == Negate(Samples(d, draws))[i] {
      MeanNegate(d, draws[i]);
      NegateAt(Samples(d, draws), i);
    }
  }

  lemma BootstrapIs(d: seq<real>, draws: seq<seq<nat>>)
    requires d != [] && Draws(draws, |d|)
    ensures Samples(d, draws) != [] && 0.0 <= LOW <= HIGH <= 1.0 && 1.0 - HIGH == LOW && 1.0 - LOW == HIGH
    ensures PairedBootstrap(d, draws) == (Percentile.Of(Samples(d, draws), LOW), Percentile.Of(Samples(d, draws), HIGH))
  {
  }

  /** Exchanging target and reference turns the interval into its mirror image. */
  lemma BootstrapMirror(d: seq<real>, draws: seq<seq<nat>>)
    requires d != [] && Draws(draws, |d|)
    ensures PairedBootstrap(Negate(d), draws) == (-PairedBootstrap(d, draws).1, -PairedBootstrap(d, draws).0)
  {
    hide *;
    BootstrapIs(d, draws);
    BootstrapIs(Negate(d), draws);
    SamplesNegate(d, draws);
    PercentileMirror(Samples(d, draws), HIGH);
    PercentileMirror(Samples(d, draws), LOW);
  }

  /** A sample is the mean of the drawn differences. */
  lemma SampleIsMean(d: seq<real>, draws: seq<seq<nat>>, i: nat)
    requires d != [] && Draws(draws, |d|) && i < |draws|
    ensures Times(Samples(d, draws)[i], |d| as real) ==
            Sum(seq(|d|, j requires 0 <= j < |d| => d[draws[i][j]]))
  {
    assert Resample(d, draws[i]) == seq(|d|, j requires 0 <= j < |d| => d[draws[i][j]]);
    DivideBack(Sum(Resample(d, draws[i])), |d| as real);
  }

  /**
   * What the bounds say about the samples: a fortieth of them below the lower bound of the
   * interval and a fortieth above the upper one, a twentieth below the one-sided bound.
   */
  lemma IntervalRanks(d: seq<real>, draws: seq<seq<nat>>)
    requires d != [] && Draws(draws, |d|)
    ensures Divides(Samples(d, draws), PairedBootstrap(d, draws).0, 0.025)
    ensures Divides(Samples(d, draws), PairedBootstrap(d, draws).1, 0.975)
    ensures Divides(Samples(d, draws), LowerBound(d, draws).value, 0.05)
  {
    hide Divides, Samples, Percentile.Of;
    PercentileRank(Samples(d, draws), 0.025);
    PercentileRank(Samples(d, draws), 0.975);
    PercentileRank(Samples(d, draws), 0.05);
  }

  // ---------------------------------------------------------------- verdict

  /** PASS needs a clean record, at least one difference, and a lower bound above the margin. */
  predicate Pass(violations: nat, d: seq<real>, draws: seq<seq<nat>>)
    requires d != [] ==> Draws(draws, |d|)
  {
    violations == 0 && d != [] && PairedBootstrap(d, draws).0 > MARGIN
  }

  /** Improving target outcomes never turns a PASS into an INCONCLUSIVE. */
  lemma PassMonotone(violations: nat, d: seq<real>, e: seq<real>, draws: seq<seq<nat>>)
    requires Below(d, e) && (d != [] ==> Draws(draws, |d|)) && Pass(violations, d, draws)
    ensures Pass(violations, e, draws)
  {
    BootstrapMonotone(d, e, draws);
  }

  /** A clean PASS is the same as an upper bound below the negated margin with the sides exchanged. */
  lemma PassBothWays(d: seq<real>, draws: seq<seq<nat>>)
    requires d != [] && Draws(draws, |d|)
    ensures Pass(0, d, draws) <==> PairedBootstrap(Negate(d), draws).1 < -MARGIN
  {
    BootstrapMirror(d, draws);
  }

  // ---------------------------------------------------------------- scoring the pairs

  const MINIMUM_PAIRS: nat := 30

  datatype Score = Missing | Scored(value: int)

  /** One pair: how many of its other checks failed, and the two scores. */
  datatype Row = Row(faults: nat, target: Score, reference: Score)

  predicate ValidScore(s: Score) {
    s == Scored(0) || s == Scored(1)
  }

  predicate Usable(r: Row) {
    ValidScore(r.target) && ValidScore(r.reference)
  }

  function Differences(rows: seq<Row>): seq<real> {
    if rows == [] then []
    else Differences(rows[..|rows| - 1]) +
         (var r := rows[|rows| - 1];
          if Usable(r) then [(r.target.value - r.reference.value) as real] else [])
  }

  function Violations(rows: seq<Row>): nat {
    if rows == [] then 0
    else Violations(rows[..|rows| - 1]) + rows[|rows| - 1].faults + (if Usable(rows[|rows| - 1]) then 0 else 1)
  }

  lemma {:induction false} DifferencesRange(rows: seq<Row>)
    ensures |Differences(rows)| <= |rows|
    ensures forall i :: 0 <= i < |Differences(rows)| ==> -1.0 <= Differences(rows)[i] <= 1.0
    ensures Violations(rows) == 0 ==> |Differences(rows)| == |rows| && forall i :: 0 <= i < |rows| ==> Usable(rows[i])
  {
    if rows != [] {
      DifferencesRange(rows[..|rows| - 1]);
    }
  }

  /** `draw` gives the index draws of the seeded generator for each number of differences. */
  method Evaluate(rows: seq<Row>, faults: nat, draw: nat -> seq<seq<nat>>)
    returns (differences: seq<real>, violations: nat, pass: bool)
    requires forall n: nat :: n > 0 ==> Draws(draw(n), n)
    ensures differences == Differences(rows)
    ensures violations == faults + (if |rows| < MINIMUM_PAIRS then 1 else 0) + Violations(rows)
    ensures pass <==> Pass(violations, differences, draw(|differences|))
    ensures pass ==> |differences| == |rows| >= MINIMUM_PAIRS && forall i :: 0 <= i < |rows| ==> Usable(rows[i])
    ensures pass ==> MARGIN < PairedBootstrap(differences, draw(|differences|)).0 <= 1.0
  {
    violations := faults + (if |rows| < MINIMUM_PAIRS then 1 else 0);
    differences := [];
    var i := 0;
    while i < |rows|
      invariant 0 <= i <= |rows|
      invariant differences == Differences(rows[..i])
      invariant violations == faults + (if |rows| < MINIMUM_PAIRS then 1 else 0) + Violations(rows[..i])
    {
      assert rows[..i + 1][..i] == rows[..i];
      violations := violations + rows[i].faults;
      if Usable(rows[i]) {
        differences := differences + [(rows[i].target.value - rows[i].reference.value) as real];
      } else {
        violations := violations + 1;
      }
      i := i + 1;
    }
    assert rows[..i] == rows;
    DifferencesRange(rows);
    pass := false;
    if differences != [] {
      var interval := PairedBootstrap(differences, draw(|differences|));
      BootstrapInterval(differences, draw(|differences|), -1.0, 1.0);
      pass := violations == 0 && interval.0 > MARGIN;
    }
  }

  // ---------------------------------------------------------------- the verdict on rows

  /** Both outcomes of a pair are known, as success or failure. */
  ghost predicate Scores(r: Row, target: int, reference: int) {
    && r.target == Scored(target) && r.reference == Scored(reference)
    && (target == 0 || target == 1) && (reference == 0 || reference == 1)
  }

  lemma UsableScores(r: Row)
    ensures Usable(r) <==> r.target.Scored? && r.reference.Scored? && Scores(r, r.target.value, r.reference.value)
  {
  }

  /** The difference of a pair is the target's outcome minus the reference's. */
  lemma {:induction false} DifferenceAt(rows: seq<Row>, i: nat, target: int, reference: int)
    requires (forall k :: 0 <= k < |rows| ==> Usable(rows[k])) && i < |rows| && Scores(rows[i], target, reference)
    ensures |Differences(rows)| == |rows| && Differences(rows)[i] == (target - reference) as real
  {
    var n := |rows| - 1;
    AllDifferences(rows[..n]);
    if i < n {
      DifferenceAt(rows[..n], i, target, reference);
    }
  }

  lemma {:induction false} AllDifferences(rows: seq<Row>)
    requires forall k :: 0 <= k < |rows| ==> Usable(rows[k])
    ensures |Differences(rows)| == |rows|
  {
    if rows != [] {
      AllDifferences(rows[..|rows| - 1]);
    }
  }

  lemma {:induction false} CleanRows(rows: seq<Row>)
    ensures Violations(rows) == 0 <==> forall i :: 0 <= i < |rows| ==> rows[i].faults == 0 && Usable(rows[i])
  {
    if rows != [] {
      var n := |rows| - 1;
      CleanRows(rows[..n]);
      assert forall i :: 0 <= i < n ==> rows[..n][i] == rows[i];
    }
  }

  /** All violations that the evaluation counts. */
  ghost function AllViolations(rows: seq<Row>, faults: nat): nat {
    faults + (if |rows| < MINIMUM_PAIRS then 1 else 0) + Violations(rows)
  }

  /** A pass, written out. */
  lemma PassExactly(rows: seq<Row>, faults: nat, draws: seq<seq<nat>>)
    requires Differences(rows) != [] ==> Draws(draws, |Differences(rows)|)
    ensures Pass(AllViolations(rows, faults), Differences(rows), draws) <==>
            && faults == 0 && |rows| >= 30
            && (forall i :: 0 <= i < |rows| ==> rows[i].faults == 0 && Usable(rows[i]))
            && |Differences(rows)| == |rows|
            && Percentile.Of(Samples(Differences(rows), draws), 0.025) > -0.1
  {
    CleanRows(rows);
    DifferencesRange(rows);
    hide Percentile.Of, Samples, Usable;
  }

  /** The row of a pair whose target did no worse and whose reference did no better. */
  ghost predicate NoWorse(better: Row, r: Row) {
    && Usable(better) && Usable(r) && better.faults <= r.faults
    && better.target.value >= r.target.value && better.reference.value <= r.reference.value
  }

  lemma BetterDifferences(rows: seq<Row>, better: seq<Row>)
    requires |better| == |rows| && forall i :: 0 <= i < |rows| ==> NoWorse(better[i], rows[i])
    ensures Below(Differences(rows), Differences(better))
  {
    AllDifferences(rows);
    AllDifferences(better);
    forall i | 0 <= i < |rows|
      ensures Differences(rows)[i] <= Differences(better)[i]
    {
      DifferenceAt(rows, i, rows[i].target.value, rows[i].reference.value);
      DifferenceAt(better, i, better[i].target.value, better[i].reference.value);
    }
  }

  /** Raising target outcomes, lowering reference outcomes or removing faults never ends a pass. */
  lemma PassMonotoneOnRows(rows: seq<Row>, better: seq<Row>, faults: nat, draws: seq<seq<nat>>)
    requires |better| == |rows| && forall i :: 0 <= i < |rows| ==> NoWorse(better[i], rows[i])
    requires Differences(rows) != [] ==> Draws(draws, |Differences(rows)|)
    requires Pass(AllViolations(rows, faults), Differences(rows), draws)
    ensures |Differences(better)| == |Differences(rows)|
    ensures Pass(AllViolations(better, faults), Differences(better), draws)
  {
    BetterDifferences(rows, better);
    BootstrapMonotone(Differences(rows), Differences(better), draws);
    CleanRows(rows);
    CleanRows(better);
    hide Differences, PairedBootstrap, Violations;
  }
}
