/**
 * Scoring against the LMS growth standard: the nearest-row search, the choice
 * between a table row and a blend of the bracketing pair, the LMS transform
 * from a measured value to an SD score and its inverse, and the rounding of
 * scores to one decimal place.
 */
module Scoring {
  import opened GrowthStandards
  import opened Transcendental

  /** The skewness, median and coefficient of variation in force at one age. */
  datatype Lms = Lms(L: real, M: real, S: real)

  function Params(r: LmsRow): Lms
  {
    Lms(r.L, r.M, r.S)
  }

  function Abs(x: real): real
  {
    if x < 0.0 then -x else x
  }

  /** How far row `i` lies from the query age. */
  function Dist(t: seq<LmsRow>, i: nat, age: real): real
    requires i < |t|
  {
    Abs(t[i].age - age)
  }

  // ---------------------------------------------------------------------------
  // Nearest-row search
  // ---------------------------------------------------------------------------

  /** `k` is the first index among the first `n` rows whose age is nearest to
      `age`: no row is nearer, and every earlier row is strictly farther. */
  ghost predicate FirstNearest(t: seq<LmsRow>, age: real, n: nat, k: nat)
    requires n <= |t|
  {
    && k < n
    && (forall j :: 0 <= j < n ==> Dist(t, k, age) <= Dist(t, j, age))
    && (forall j :: 0 <= j < k ==> Dist(t, k, age) < Dist(t, j, age))
  }

  /** At most one index is the first nearest one. */
  lemma FirstNearestUnique(t: seq<LmsRow>, age: real, n: nat, k1: nat, k2: nat)
    requires n <= |t| && FirstNearest(t, age, n, k1) && FirstNearest(t, age, n, k2)
    ensures k1 == k2
  {
    assert Dist(t, k1, age) == Dist(t, k2, age);
  }

  /** The nearest row among the first `n`, ties resolved towards the lower index. */
  function NearestAmong(t: seq<LmsRow>, age: real, n: nat): (k: nat)
    requires 0 < n <= |t|
    ensures FirstNearest(t, age, n, k)
  {
    if n == 1 then 0
    else
      var k := NearestAmong(t, age, n - 1);
      if Dist(t, n - 1, age) < Dist(t, k, age) then n - 1 else k
  }

  /** The row the scan of calculateSDScore settles on. */
  function NearestIndex(t: seq<LmsRow>, age: real): (k: nat)
    requires |t| > 0
    ensures FirstNearest(t, age, |t|, k)
  {
    NearestAmong(t, age, |t|)
  }

  // ---------------------------------------------------------------------------
  // Interpolation
  // ---------------------------------------------------------------------------

  /** The nearest row is used as it stands: it is the first row, the last
      row, or it has exactly the query age. */
  predicate UsesRowDirectly(t: seq<LmsRow>, age: real)
    requires |t| > 0
  {
    var k := NearestIndex(t, age);
    k == 0 || k == |t| - 1 || t[k].age == age
  }

  /** Lower index of the bracketing pair around an interior nearest row `k`. */
  function BracketIndex(t: seq<LmsRow>, age: real, k: nat): nat
    requires 0 < k < |t|
  {
    if age < t[k].age then k - 1 else k
  }

  /** Position of `age` between the ages of `lo` and `hi`, as a fraction. */
  function Fraction(lo: LmsRow, hi: LmsRow, age: real): real
    requires lo.age < hi.age
  {
    (age - lo.age) / (hi.age - lo.age)
  }

  function Lerp(a: real, b: real, f: real): real
  {
    a + f * (b - a)
  }

  /** `x` lies between `a` and `b`, in either order. */
  predicate Between(x: real, a: real, b: real)
  {
    (a <= x <= b) || (b <= x <= a)
  }

  lemma LerpBetween(a: real, b: real, f: real)
    requires 0.0 <= f <= 1.0
    ensures Between(Lerp(a, b, f), a, b)
  {
    var d := b - a;
    if a <= b {
      assert 0.0 <= f * d;
      assert 0.0 <= (1.0 - f) * d;
    } else {
      assert f * d <= 0.0;
      assert (1.0 - f) * d <= 0.0;
    }
    assert f * d + (1.0 - f) * d == d;
  }

  /** L, M and S blended linearly between two rows. */
  function Blend(lo: LmsRow, hi: LmsRow, age: real): (p: Lms)
    requires lo.age <= age <= hi.age && lo.age < hi.age
    ensures Between(p.L, lo.L, hi.L) && Between(p.M, lo.M, hi.M) && Between(p.S, lo.S, hi.S)
  {
    var f := Fraction(lo, hi, age);
    FractionInUnitInterval(lo, hi, age);
    LerpBetween(lo.L, hi.L, f);
    LerpBetween(lo.M, hi.M, f);
    LerpBetween(lo.S, hi.S, f);
    Lms(Lerp(lo.L, hi.L, f), Lerp(lo.M, hi.M, f), Lerp(lo.S, hi.S, f))
  }

  lemma FractionInUnitInterval(lo: LmsRow, hi: LmsRow, age: real)
    requires lo.age <= age <= hi.age && lo.age < hi.age
    ensures 0.0 <= Fraction(lo, hi, age) <= 1.0
    ensures lo.age < age < hi.age ==> 0.0 < Fraction(lo, hi, age) < 1.0
  {
    var d := hi.age - lo.age;
    assert Fraction(lo, hi, age) * d == age - lo.age;
  }

  /** Away from the first and last rows and from exact row ages, the nearest
      row and its neighbour on the query's side strictly bracket the query age;
      so the lower index is always a valid pair (the code's fallback when it
      is not can never run) and the blend fraction lies strictly inside (0, 1). */
  lemma BracketWellFormed(t: seq<LmsRow>, age: real)
    requires ValidTable(t) && !UsesRowDirectly(t, age)
    ensures 0 < NearestIndex(t, age) < |t| - 1
    ensures var i := BracketIndex(t, age, NearestIndex(t, age));
      && i < |t| - 1
      && t[i].age < age < t[i + 1].age
      && 0.0 < Fraction(t[i], t[i + 1], age) < 1.0
  {
    var k := NearestIndex(t, age);
    var i := BracketIndex(t, age, k);
    AscendingFromAdjacent(t);
    if age < t[k].age {
      assert Dist(t, k, age) < Dist(t, k - 1, age);
    } else {
      assert Dist(t, k, age) <= Dist(t, k + 1, age);
    }
    FractionInUnitInterval(t[i], t[i + 1], age);
  }

  /** The L, M and S that calculateSDScore settles on for `age`. */
  function InterpolateAt(t: seq<LmsRow>, age: real): (p: Lms)
    requires ValidTable(t)
    ensures p.M > 0.0 && p.S > 0.0
  {
    var k := NearestIndex(t, age);
    if UsesRowDirectly(t, age) then
      Params(t[k])
    else
      var i := BracketIndex(t, age, k);
      BracketWellFormed(t, age);
      Blend(t[i], t[i + 1], age)
  }

  /** The two shapes InterpolateAt takes: the nearest row, or a blend of the
      bracketing pair on the query's side of it. */
  lemma InterpolateAtCases(t: seq<LmsRow>, age: real)
    requires ValidTable(t)
    ensures UsesRowDirectly(t, age) ==> InterpolateAt(t, age) == Params(t[NearestIndex(t, age)])
    ensures !UsesRowDirectly(t, age) ==>
      && 0 < NearestIndex(t, age) < |t| - 1
      && var i := BracketIndex(t, age, NearestIndex(t, age));
      && t[i].age < age < t[i + 1].age
      && InterpolateAt(t, age) == Blend(t[i], t[i + 1], age)
  {
    if !UsesRowDirectly(t, age) {
      BracketWellFormed(t, age);
    }
  }

  /** When a blend is used, each of L, M and S lies between the values of the
      two bracketing rows. */
  lemma BlendStaysBetweenRows(t: seq<LmsRow>, age: real)
    requires ValidTable(t) && !UsesRowDirectly(t, age)
    ensures var i := BracketIndex(t, age, NearestIndex(t, age));
      && i < |t| - 1
      && var p := InterpolateAt(t, age);
      && Between(p.L, t[i].L, t[i + 1].L)
      && Between(p.M, t[i].M, t[i + 1].M)
      && Between(p.S, t[i].S, t[i + 1].S)
  {
    BracketWellFormed(t, age);
  }

  /** A row's own age selects that row, unblended. */
  lemma ExactRow(t: seq<LmsRow>, j: nat)
    requires ValidTable(t) && j < |t|
    ensures UsesRowDirectly(t, t[j].age)
    ensures InterpolateAt(t, t[j].age) == Params(t[j])
  {
    AscendingFromAdjacent(t);
    var age := t[j].age;
    assert FirstNearest(t, age, |t|, j) by {
      forall i | 0 <= i < |t| && i != j ensures Dist(t, j, age) < Dist(t, i, age) {
        assert t[i].age != t[j].age;
      }
    }
    FirstNearestUnique(t, age, |t|, j, NearestIndex(t, age));
  }

  /** A query no later than the midpoint of the first two rows selects the
      first row unblended; a tie at the midpoint goes to the first row. This
      includes every age below the table. */
  lemma NearFirstRow(t: seq<LmsRow>, age: real)
    requires ValidTable(t) && 2.0 * age <= t[0].age + t[1].age
    ensures NearestIndex(t, age) == 0
    ensures InterpolateAt(t, age) == Params(t[0])
  {
    AscendingFromAdjacent(t);
    assert FirstNearest(t, age, |t|, 0) by {
      forall j | 0 < j < |t| ensures Dist(t, 0, age) <= Dist(t, j, age) {
        assert t[1].age <= t[j].age;
      }
    }
    FirstNearestUnique(t, age, |t|, 0, NearestIndex(t, age));
  }

  /** A query past the midpoint of the last two rows selects the last row
      unblended. This includes every age above the table, and also ages
      inside the last interval. */
  lemma NearLastRow(t: seq<LmsRow>, age: real)
    requires ValidTable(t) && 2.0 * age > t[|t| - 2].age + t[|t| - 1].age
    ensures NearestIndex(t, age) == |t| - 1
    ensures InterpolateAt(t, age) == Params(t[|t| - 1])
  {
    AscendingFromAdjacent(t);
    var n := |t|;
    assert FirstNearest(t, age, n, n - 1) by {
      forall j | 0 <= j < n - 1 ensures Dist(t, n - 1, age) < Dist(t, j, age) {
        assert t[j].age <= t[n - 2].age;
      }
    }
    FirstNearestUnique(t, age, n, n - 1, NearestIndex(t, age));
  }

  /** Exactly when the nearest row is used unblended: at or before the first
      midpoint, past the last midpoint, or at a row's own age. */
  lemma UsesRowDirectlyExactly(t: seq<LmsRow>, age: real)
    requires ValidTable(t)
    ensures UsesRowDirectly(t, age) <==>
      || 2.0 * age <= t[0].age + t[1].age
      || 2.0 * age > t[|t| - 2].age + t[|t| - 1].age
      || exists j :: 0 <= j < |t| && t[j].age == age
  {
    var n := |t|;
    var k := NearestIndex(t, age);
    if UsesRowDirectly(t, age) {
      if k == 0 {
        assert Dist(t, 0, age) <= Dist(t, 1, age);
      } else if k == n - 1 {
        assert Dist(t, n - 1, age) < Dist(t, n - 2, age);
      }
    } else if 2.0 * age <= t[0].age + t[1].age {
      NearFirstRow(t, age);
    } else if 2.0 * age > t[n - 2].age + t[n - 1].age {
      NearLastRow(t, age);
    } else if j :| 0 <= j < n && t[j].age == age {
      ExactRow(t, j);
    }
  }

  // ---------------------------------------------------------------------------
  // The LMS transform and its inverse
  // ---------------------------------------------------------------------------

  /** The unrounded SD score of `value` under the parameters L, M and S. */
  function ZScore(f: MathFunctions, value: real, L: real, M: real, S: real): real
    requires M > 0.0 && S > 0.0
  {
    if L == 0.0 then Ln(f, value / M) / S
    else (Pow(f, value / M, L) - 1.0) / (L * S)
  }

  /** calculateSDValue: the value lying `sd` SDs from the median M. */
  function SDValue(f: MathFunctions, L: real, M: real, S: real, sd: real): real
  {
    if L == 0.0 then M * Exp(f, S * sd)
    else M * Pow(f, 1.0 + L * S * sd, 1.0 / L)
  }

  /** The median scores zero, in the logarithmic and in the power branch. */
  lemma ZScoreOfMedian(f: MathFunctions, L: real, M: real, S: real)
    requires Lawful(f) && M > 0.0 && S > 0.0
    ensures ZScore(f, M, L, M, S) == 0.0
  {
    assert M / M == 1.0;
  }

  /** Zero SDs from the median is the median, in both branches. */
  lemma SDValueAtZero(f: MathFunctions, L: real, M: real, S: real)
    requires Lawful(f)
    ensures SDValue(f, L, M, S, 0.0) == M
  {
    assert L * S * 0.0 == 0.0;
  }

  /** The base of the power branch must stay positive for the inverse to be
      defined; the logarithmic branch has no such limit. */
  predicate InDomain(L: real, S: real, sd: real)
  {
    L == 0.0 || 1.0 + L * S * sd > 0.0
  }

  lemma CancelFactor(a: real, x: real)
    requires a != 0.0
    ensures a * x / a == x && x * a / a == x
  {
  }

  /** The inverse transform undoes the forward transform: scoring the value at
      `sd` SDs gives back `sd` exactly. */
  lemma ZScoreOfSDValue(f: MathFunctions, L: real, M: real, S: real, sd: real)
    requires Lawful(f) && M > 0.0 && S > 0.0 && InDomain(L, S, sd)
    ensures ZScore(f, SDValue(f, L, M, S, sd), L, M, S) == sd
  {
    if L == 0.0 {
      assert Ln(f, Exp(f, S * sd)) == S * sd;
      LogBranchInverse(f, M, S, sd);
    } else {
      var b := 1.0 + L * S * sd;
      CancelFactor(L, 1.0);
      assert Pow(f, Pow(f, b, 1.0 / L), L) == b;
      PowerBranchInverse(f, L, M, S, sd);
    }
  }

  lemma LogBranchInverse(f: MathFunctions, M: real, S: real, sd: real)
    requires M > 0.0 && S > 0.0
    requires Ln(f, Exp(f, S * sd)) == S * sd
    ensures ZScore(f, SDValue(f, 0.0, M, S, sd), 0.0, M, S) == sd
  {
    var e := Exp(f, S * sd);
    var value := SDValue(f, 0.0, M, S, sd);
    assert value == M * e;
    CancelFactor(M, e);
    assert ZScore(f, value, 0.0, M, S) == Ln(f, e) / S;
    CancelFactor(S, sd);
  }

  lemma PowerBranchInverse(f: MathFunctions, L: real, M: real, S: real, sd: real)
    requires L != 0.0 && M > 0.0 && S > 0.0
    requires Pow(f, Pow(f, 1.0 + L * S * sd, 1.0 / L), L) == 1.0 + L * S * sd
    ensures ZScore(f, SDValue(f, L, M, S, sd), L, M, S) == sd
  {
    var v := Pow(f, 1.0 + L * S * sd, 1.0 / L);
    var value := SDValue(f, L, M, S, sd);
    assert value == M * v;
    CancelFactor(M, v);
    var ls := L * S;
    assert ls != 0.0;
    assert ZScore(f, value, L, M, S) == (Pow(f, v, L) - 1.0) / ls;
    assert ZScore(f, value, L, M, S) == (ls * sd) / ls;
    CancelFactor(ls, sd);
  }

  /** The value at an SD level strictly increases with the level. */
  lemma SDValueIncreasing(f: MathFunctions, L: real, M: real, S: real, sd1: real, sd2: real)
    requires Lawful(f) && M > 0.0 && S > 0.0 && sd1 < sd2
    requires InDomain(L, S, sd1) && InDomain(L, S, sd2)
    ensures SDValue(f, L, M, S, sd1) < SDValue(f, L, M, S, sd2)
  {
    if L == 0.0 {
      ScaleStrict(S, sd1, sd2);
      ExpIncreasing(f, S * sd1, S * sd2);
      ScaleStrict(M, Exp(f, S * sd1), Exp(f, S * sd2));
    } else {
      var ls := L * S;
      var b1, b2 := 1.0 + ls * sd1, 1.0 + ls * sd2;
      var e := 1.0 / L;
      assert b1 > 0.0 && b2 > 0.0;
      SignOfProduct(L, S);
      ReciprocalSign(L);
      if L > 0.0 {
        ScaleStrict(ls, sd1, sd2);
        PowIncreasing(f, b1, b2, e);
      } else {
        ScaleStrictNegative(ls, sd1, sd2);
        PowDecreasing(f, b2, b1, e);
      }
      ScaleStrict(M, Pow(f, b1, e), Pow(f, b2, e));
    }
  }

  lemma ScaleStrict(a: real, x: real, y: real)
    requires a > 0.0 && x < y
    ensures a * x < a * y
  {
  }

  lemma ScaleStrictNegative(a: real, x: real, y: real)
    requires a < 0.0 && x < y
    ensures a * x > a * y
  {
  }

  lemma SignOfProduct(l: real, s: real)
    requires s > 0.0 && l != 0.0
    ensures l > 0.0 ==> l * s > 0.0
    ensures l < 0.0 ==> l * s < 0.0
  {
  }

  lemma ReciprocalSign(l: real)
    requires l != 0.0
    ensures l > 0.0 ==> 1.0 / l > 0.0
    ensures l < 0.0 ==> 1.0 / l < 0.0
  {
  }

  lemma ExpIncreasing(f: MathFunctions, x: real, y: real)
    requires Lawful(f) && x < y
    ensures Exp(f, x) < Exp(f, y)
  {
  }

  lemma PowIncreasing(f: MathFunctions, a: real, b: real, e: real)
    requires Lawful(f) && 0.0 < a < b && e > 0.0
    ensures Pow(f, a, e) < Pow(f, b, e)
  {
  }

  lemma PowDecreasing(f: MathFunctions, a: real, b: real, e: real)
    requires Lawful(f) && 0.0 < a < b && e < 0.0
    ensures Pow(f, a, e) > Pow(f, b, e)
  {
  }

  // ---------------------------------------------------------------------------
  // Rounding
  // ---------------------------------------------------------------------------

  /** `x` is a whole number of tenths. */
  predicate OnTenthGrid(x: real)
  {
    (x * 10.0).Floor as real == x * 10.0
  }

  /** Math.round(z * 10) / 10: Math.round rounds halves towards +infinity,
      so the result is the multiple of 0.1 in (z - 0.05, z + 0.05]. */
  function RoundTenth(z: real): (r: real)
    ensures OnTenthGrid(r)
    ensures z - 0.05 < r <= z + 0.05
  {
    (z * 10.0 + 0.5).Floor as real / 10.0
  }

  /** Rounding leaves a score that is already a whole number of tenths alone. */
  lemma RoundTenthOnGrid(n: int)
    ensures RoundTenth(n as real / 10.0) == n as real / 10.0
  {
    var x := n as real / 10.0;
    assert x * 10.0 == n as real;
    assert (n as real + 0.5).Floor == n;
  }

  /** Halves go up, not away from zero: -0.25 rounds to -0.2 and 0.25 to 0.3. */
  lemma RoundTenthHalvesGoUp()
    ensures RoundTenth(-0.25) == -0.2 && RoundTenth(0.25) == 0.3
  {
    assert (-0.25 * 10.0 + 0.5).Floor == -2;
    assert (0.25 * 10.0 + 0.5).Floor == 3;
  }

  // ---------------------------------------------------------------------------
  // Scores
  // ---------------------------------------------------------------------------

  /** The parameters in force for one sex, metric and age. */
  function ParamsAt(age: real, sex: Sex, metric: Metric): (p: Lms)
    ensures p.M > 0.0 && p.S > 0.0
  {
    StandardsValid(sex, metric);
    InterpolateAt(Standards(sex, metric), age)
  }

  /** calculateSDScore: the SD score of `value`, rounded to one decimal. */
  function SDScore(f: MathFunctions, value: real, age: real, sex: Sex, metric: Metric): real
  {
    var p := ParamsAt(age, sex, metric);
    RoundTenth(ZScore(f, value, p.L, p.M, p.S))
  }

  /** The interpolated median at any age scores exactly 0. */
  lemma ScoreOfMedianIsZero(f: MathFunctions, age: real, sex: Sex, metric: Metric)
    requires Lawful(f)
    ensures SDScore(f, ParamsAt(age, sex, metric).M, age, sex, metric) == 0.0
  {
    var p := ParamsAt(age, sex, metric);
    ZScoreOfMedian(f, p.L, p.M, p.S);
    RoundTenthOnGrid(0);
  }

  /** The value at `n` tenths of an SD scores back exactly `n` tenths. */
  lemma ScoreOfSDValue(f: MathFunctions, n: int, age: real, sex: Sex, metric: Metric)
    requires Lawful(f)
    requires InDomain(ParamsAt(age, sex, metric).L, ParamsAt(age, sex, metric).S, n as real / 10.0)
    ensures var p := ParamsAt(age, sex, metric);
      SDScore(f, SDValue(f, p.L, p.M, p.S, n as real / 10.0), age, sex, metric) == n as real / 10.0
  {
    var p := ParamsAt(age, sex, metric);
    ZScoreOfSDValue(f, p.L, p.M, p.S, n as real / 10.0);
    RoundTenthOnGrid(n);
  }

  /** Below the first row's age, and above the last row's, the scores use the
      end rows as they stand. */
  lemma ScoresClampToTableEnds(age: real, sex: Sex, metric: Metric)
    ensures age <= 0.0 ==> ParamsAt(age, sex, metric) == Params(Standards(sex, metric)[0])
    ensures age >= 17.5 ==> ParamsAt(age, sex, metric) == Params(Standards(sex, metric)[39])
  {
    var t := Standards(sex, metric);
    StandardsValid(sex, metric);
    if age <= 0.0 {
      NearFirstRow(t, age);
    }
    if age >= 17.5 {
      NearLastRow(t, age);
    }
  }

  /** At 17.3 years the score uses the 17.5 row unblended, although 17.3 lies
      between the 17 and 17.5 rows. */
  lemma AgeSeventeenPointThreeUsesLastRow(sex: Sex, metric: Metric)
    ensures ParamsAt(17.3, sex, metric) == Params(Standards(sex, metric)[39])
  {
    var t := Standards(sex, metric);
    StandardsValid(sex, metric);
    assert t[38].age == 17.0;
    NearLastRow(t, 17.3);
  }

  /** A boy 106.8 cm tall at exactly 5 years is at the median: score 0. */
  lemma BoyAtMedianHeightAtFive(f: MathFunctions)
    requires Lawful(f)
    ensures SDScore(f, 106.8, 5.0, Male, Height) == 0.0
  {
    StandardsValid(Male, Height);
    assert MaleHeight[14] == LmsRow(5.0, 0.542, 106.8, 0.0403);
    ExactRow(MaleHeight, 14);
    ScoreOfMedianIsZero(f, 5.0, Male, Height);
  }

  /** calculateSDScore: the nearest-row lookup (a loop, hence a method),
      then the transform and the rounding, which are pure. */
  method CalculateSDScore(f: MathFunctions, value: real, age: real, sex: Sex, metric: Metric)
    returns (score: real)
    ensures score == SDScore(f, value, age, sex, metric)
  {
    StandardsValid(sex, metric);
    var p := LookupLms(Standards(sex, metric), age);
    score := RoundTenth(ZScore(f, value, p.L, p.M, p.S));
  }

  /** The lookup part of calculateSDScore: the nearest row itself, or a
      blend of the bracketing pair. */
  method LookupLms(t: seq<LmsRow>, age: real) returns (p: Lms)
    requires ValidTable(t)
    ensures p == InterpolateAt(t, age)
  {
    var closestIndex := NearestRow(t, age);
    InterpolateAtCases(t, age);
    if closestIndex == 0 || closestIndex == |t| - 1 || t[closestIndex].age == age {
      p := Lms(t[closestIndex].L, t[closestIndex].M, t[closestIndex].S);
    } else {
      var i := if age < t[closestIndex].age then closestIndex - 1 else closestIndex;
      // The source falls back to the nearest row when i is out of range; it never is.
      assert 0 <= i < |t| - 1;
      var fraction := (age - t[i].age) / (t[i + 1].age - t[i].age);
      p := Lms(
        t[i].L + fraction * (t[i + 1].L - t[i].L),
        t[i].M + fraction * (t[i + 1].M - t[i].M),
        t[i].S + fraction * (t[i + 1].S - t[i].S));
    }
  }

  /** The scan of calculateSDScore: the first row whose age is nearest the
      query. A later row replaces the current one only when strictly nearer,
      so ties keep the lower index. */
  method NearestRow(t: seq<LmsRow>, age: real) returns (closestIndex: nat)
    requires |t| > 0
    ensures closestIndex < |t|
    ensures forall j :: 0 <= j < |t| ==> Dist(t, closestIndex, age) <= Dist(t, j, age)
    ensures forall j :: 0 <= j < closestIndex ==> Dist(t, closestIndex, age) < Dist(t, j, age)
    ensures closestIndex == NearestIndex(t, age)
  {
    closestIndex := 0;
    var minDiff := Abs(t[0].age - age);
    for i := 1 to |t|
      invariant closestIndex < i
      invariant minDiff == Dist(t, closestIndex, age)
      invariant FirstNearest(t, age, i, closestIndex)
    {
      var diff := Abs(t[i].age - age);
      if diff < minDiff {
        minDiff := diff;
        closestIndex := i;
      }
    }
    FirstNearestUnique(t, age, |t|, closestIndex, NearestIndex(t, age));
  }
}
