/**
 * The reference table store: the four LMS tables of the growth standard
 * (boys' and girls' height and weight), each a sequence of rows anchored at an age
 * in years, and the well-formedness facts the scoring engine relies on.
 */
module GrowthStandards {

  datatype Sex = Male | Female

  datatype Metric = Height | Weight

  /** One reference row: at `age` years the distribution is described by
      skewness `L`, median `M` and coefficient of variation `S`. */
  datatype LmsRow = LmsRow(age: real, L: real, M: real, S: real)

  /** Boys' height (cm) */
  const MaleHeight: seq<LmsRow> := [
    LmsRow(0.0, 2.300, 49.0, 0.0417),
    LmsRow(0.25, 2.212, 61.5, 0.0378),
    LmsRow(0.5, 2.124, 67.7, 0.0351),
    LmsRow(0.75, 2.036, 71.6, 0.0335),
    LmsRow(1.0, 1.948, 74.8, 0.0328),
    LmsRow(1.25, 1.861, 77.8, 0.0328),
    LmsRow(1.5, 1.773, 80.7, 0.0332),
    LmsRow(1.75, 1.685, 83.4, 0.0340),
    LmsRow(2.0, 1.597, 85.8, 0.0348),
    LmsRow(2.5, 1.421, 89.7, 0.0364),
    LmsRow(3.0, 1.245, 93.5, 0.0378),
    LmsRow(3.5, 1.069, 97.1, 0.0386),
    LmsRow(4.0, 0.894, 100.4, 0.0392),
    LmsRow(4.5, 0.718, 103.6, 0.0397),
    LmsRow(5.0, 0.542, 106.8, 0.0403),
    LmsRow(5.5, 0.366, 110.1, 0.0410),
    LmsRow(6.0, 0.190, 113.3, 0.0417),
    LmsRow(6.5, 0.015, 116.4, 0.0423),
    LmsRow(7.0, -0.161, 119.5, 0.0426),
    LmsRow(7.5, -0.337, 122.4, 0.0426),
    LmsRow(8.0, -0.513, 125.1, 0.0424),
    LmsRow(8.5, -0.689, 127.8, 0.0421),
    LmsRow(9.0, -0.864, 130.4, 0.0420),
    LmsRow(9.5, -1.040, 133.1, 0.0424),
    LmsRow(10.0, -1.216, 135.9, 0.0435),
    LmsRow(10.5, -1.392, 138.8, 0.0453),
    LmsRow(11.0, -1.401, 142.0, 0.0476),
    LmsRow(11.5, -0.965, 145.4, 0.0500),
    LmsRow(12.0, -0.275, 149.0, 0.0519),
    LmsRow(12.5, 0.428, 153.1, 0.0526),
    LmsRow(13.0, 0.931, 157.0, 0.0517),
    LmsRow(13.5, 1.090, 160.5, 0.0491),
    LmsRow(14.0, 0.865, 163.4, 0.0453),
    LmsRow(14.5, 0.323, 165.6, 0.0414),
    LmsRow(15.0, -0.370, 167.3, 0.0382),
    LmsRow(15.5, -0.982, 168.6, 0.0358),
    LmsRow(16.0, -1.267, 169.5, 0.0344),
    LmsRow(16.5, -1.031, 170.1, 0.0340),
    LmsRow(17.0, -0.516, 170.5, 0.0340),
    LmsRow(17.5, 0.000, 170.8, 0.0340)
  ]

  /** Girls' height (cm) */
  const FemaleHeight: seq<LmsRow> := [
    LmsRow(0.0, 1.200, 48.5, 0.0390),
    LmsRow(0.25, 1.159, 60.1, 0.0361),
    LmsRow(0.5, 1.117, 66.2, 0.0341),
    LmsRow(0.75, 1.076, 70.2, 0.0327),
    LmsRow(1.0, 1.034, 73.5, 0.0318),
    LmsRow(1.25, 0.993, 76.6, 0.0316),
    LmsRow(1.5, 0.952, 79.5, 0.0317),
    LmsRow(1.75, 0.910, 82.2, 0.0321),
    LmsRow(2.0, 0.869, 84.6, 0.0328),
    LmsRow(2.5, 0.786, 88.4, 0.0344),
    LmsRow(3.0, 0.703, 91.8, 0.0361),
    LmsRow(3.5, 0.620, 95.4, 0.0376),
    LmsRow(4.0, 0.538, 99.4, 0.0389),
    LmsRow(4.5, 0.455, 103.2, 0.0399),
    LmsRow(5.0, 0.372, 106.7, 0.0406),
    LmsRow(5.5, 0.289, 109.7, 0.0411),
    LmsRow(6.0, 0.206, 112.7, 0.0414),
    LmsRow(6.5, 0.124, 115.5, 0.0416),
    LmsRow(7.0, 0.041, 118.3, 0.0418),
    LmsRow(7.5, -0.042, 121.2, 0.0421),
    LmsRow(8.0, -0.114, 124.1, 0.0428),
    LmsRow(8.5, -0.036, 127.2, 0.0438),
    LmsRow(9.0, 0.213, 130.4, 0.0451),
    LmsRow(9.5, 0.599, 133.8, 0.0466),
    LmsRow(10.0, 1.055, 137.2, 0.0477),
    LmsRow(10.5, 1.506, 140.6, 0.0481),
    LmsRow(11.0, 1.879, 144.0, 0.0472),
    LmsRow(11.5, 2.118, 147.2, 0.0447),
    LmsRow(12.0, 2.190, 150.0, 0.0410),
    LmsRow(12.5, 2.090, 152.1, 0.0367),
    LmsRow(13.0, 1.843, 153.8, 0.0342),
    LmsRow(13.5, 1.498, 155.1, 0.0324),
    LmsRow(14.0, 1.124, 155.9, 0.0314),
    LmsRow(14.5, 0.801, 156.6, 0.0310),
    LmsRow(15.0, 0.602, 157.0, 0.0310),
    LmsRow(15.5, 0.579, 157.3, 0.0310),
    LmsRow(16.0, 0.742, 157.5, 0.0310),
    LmsRow(16.5, 1.032, 157.7, 0.0310),
    LmsRow(17.0, 1.295, 157.8, 0.0310),
    LmsRow(17.5, 1.250, 157.8, 0.0310)
  ]

  /** Boys' weight (kg) */
  const MaleWeight: seq<LmsRow> := [
    LmsRow(0.0, 0.774, 3.00, 0.149),
    LmsRow(0.25, 0.490, 6.31, 0.131),
    LmsRow(0.5, 0.262, 7.93, 0.119),
    LmsRow(0.75, 0.082, 8.80, 0.110),
    LmsRow(1.0, -0.062, 9.38, 0.105),
    LmsRow(1.25, -0.177, 9.91, 0.102),
    LmsRow(1.5, -0.269, 10.4, 0.101),
    LmsRow(1.75, -0.344, 11.0, 0.102),
    LmsRow(2.0, -0.408, 11.5, 0.103),
    LmsRow(2.5, -0.513, 12.5, 0.108),
    LmsRow(3.0, -0.607, 13.5, 0.113),
    LmsRow(3.5, -0.703, 14.5, 0.119),
    LmsRow(4.0, -0.804, 15.5, 0.123),
    LmsRow(4.5, -0.913, 16.5, 0.127),
    LmsRow(5.0, -1.026, 17.5, 0.131),
    LmsRow(5.5, -1.136, 18.5, 0.134),
    LmsRow(6.0, -1.236, 19.6, 0.138),
    LmsRow(6.5, -1.321, 20.9, 0.142),
    LmsRow(7.0, -1.384, 22.2, 0.146),
    LmsRow(7.5, -1.420, 23.5, 0.152),
    LmsRow(8.0, -1.429, 25.0, 0.159),
    LmsRow(8.5, -1.407, 26.4, 0.166),
    LmsRow(9.0, -1.358, 28.0, 0.174),
    LmsRow(9.5, -1.284, 29.6, 0.182),
    LmsRow(10.0, -1.191, 31.4, 0.189),
    LmsRow(10.5, -1.084, 33.4, 0.195),
    LmsRow(11.0, -0.971, 35.6, 0.200),
    LmsRow(11.5, -0.862, 38.1, 0.204),
    LmsRow(12.0, -0.764, 40.7, 0.206),
    LmsRow(12.5, -0.686, 43.6, 0.205),
    LmsRow(13.0, -0.636, 46.3, 0.201),
    LmsRow(13.5, -0.619, 49.0, 0.196),
    LmsRow(14.0, -0.642, 51.6, 0.187),
    LmsRow(14.5, -0.705, 54.0, 0.178),
    LmsRow(15.0, -0.809, 55.9, 0.169),
    LmsRow(15.5, -0.952, 57.5, 0.161),
    LmsRow(16.0, -1.127, 58.8, 0.155),
    LmsRow(16.5, -1.325, 59.7, 0.151),
    LmsRow(17.0, -1.534, 60.4, 0.147),
    LmsRow(17.5, -1.739, 60.9, 0.141)
  ]

  /** Girls' weight (kg) */
  const FemaleWeight: seq<LmsRow> := [
    LmsRow(0.0, 0.754, 2.95, 0.146),
    LmsRow(0.25, 0.375, 5.86, 0.126),
    LmsRow(0.5, 0.083, 7.32, 0.113),
    LmsRow(0.75, -0.139, 8.14, 0.106),
    LmsRow(1.0, -0.303, 8.72, 0.103),
    LmsRow(1.25, -0.422, 9.26, 0.102),
    LmsRow(1.5, -0.506, 9.82, 0.102),
    LmsRow(1.75, -0.563, 10.4, 0.104),
    LmsRow(2.0, -0.602, 11.0, 0.105),
    LmsRow(2.5, -0.646, 12.1, 0.110),
    LmsRow(3.0, -0.677, 13.1, 0.114),
    LmsRow(3.5, -0.718, 14.0, 0.118),
    LmsRow(4.0, -0.778, 15.1, 0.122),
    LmsRow(4.5, -0.861, 16.1, 0.127),
    LmsRow(5.0, -0.960, 17.1, 0.131),
    LmsRow(5.5, -1.068, 18.2, 0.137),
    LmsRow(6.0, -1.171, 19.4, 0.142),
    LmsRow(6.5, -1.259, 20.6, 0.148),
    LmsRow(7.0, -1.319, 21.9, 0.154),
    LmsRow(7.5, -1.344, 23.2, 0.159),
    LmsRow(8.0, -1.328, 24.5, 0.164),
    LmsRow(8.5, -1.269, 25.9, 0.169),
    LmsRow(9.0, -1.169, 27.4, 0.174),
    LmsRow(9.5, -1.037, 29.2, 0.180),
    LmsRow(10.0, -0.884, 31.2, 0.185),
    LmsRow(10.5, -0.722, 33.6, 0.190),
    LmsRow(11.0, -0.572, 36.3, 0.194),
    LmsRow(11.5, -0.448, 39.0, 0.195),
    LmsRow(12.0, -0.368, 41.5, 0.194),
    LmsRow(12.5, -0.346, 43.8, 0.187),
    LmsRow(13.0, -0.389, 45.8, 0.176),
    LmsRow(13.5, -0.496, 47.5, 0.164),
    LmsRow(14.0, -0.653, 48.8, 0.154),
    LmsRow(14.5, -0.830, 49.8, 0.147),
    LmsRow(15.0, -0.976, 50.6, 0.142),
    LmsRow(15.5, -1.012, 51.2, 0.139),
    LmsRow(16.0, -1.072, 51.6, 0.138),
    LmsRow(16.5, -1.132, 51.9, 0.137),
    LmsRow(17.0, -1.192, 52.1, 0.135),
    LmsRow(17.5, -1.252, 52.3, 0.134)
  ]

  /** The table for one sex and one metric. */
  function Standards(sex: Sex, metric: Metric): seq<LmsRow>
  {
    match (sex, metric)
    case (Male, Height) => MaleHeight
    case (Male, Weight) => MaleWeight
    case (Female, Height) => FemaleHeight
    case (Female, Weight) => FemaleWeight
  }

  /** Ages strictly increase from one row to the next. */
  ghost predicate AdjacentAscending(t: seq<LmsRow>)
  {
    forall i :: 0 < i < |t| ==> t[i - 1].age < t[i].age
  }

  /** Ages strictly increase between any two rows. */
  ghost predicate Ascending(t: seq<LmsRow>)
  {
    forall i, j :: 0 <= i < j < |t| ==> t[i].age < t[j].age
  }

  /** Every row has a positive median and a positive coefficient of variation,
      so that the transforms never divide by zero. */
  ghost predicate PositiveMS(t: seq<LmsRow>)
  {
    forall i :: 0 <= i < |t| ==> t[i].M > 0.0 && t[i].S > 0.0
  }

  /** What the scoring engine needs of a table: at least two rows, strictly
      increasing ages, positive M and S. */
  ghost predicate ValidTable(t: seq<LmsRow>)
  {
    |t| >= 2 && AdjacentAscending(t) && PositiveMS(t)
  }

  /** The same requirements, checked row by row from index `i` on. */
  predicate WellFormedFrom(t: seq<LmsRow>, i: nat)
    decreases |t| - i
  {
    i >= |t| ||
    (t[i].M > 0.0 && t[i].S > 0.0 && (i + 1 < |t| ==> t[i].age < t[i + 1].age) && WellFormedFrom(t, i + 1))
  }

  lemma {:induction false} WellFormedFromSuffix(t: seq<LmsRow>, i: nat)
    requires WellFormedFrom(t, i)
    ensures forall j :: i < j < |t| ==> t[j - 1].age < t[j].age
    ensures forall j :: i <= j < |t| ==> t[j].M > 0.0 && t[j].S > 0.0
    decreases |t| - i
  {
    if i < |t| {
      WellFormedFromSuffix(t, i + 1);
    }
  }

  /** The row-by-row check establishes the table invariant. */
  lemma WellFormedIsValid(t: seq<LmsRow>)
    requires |t| >= 2 && WellFormedFrom(t, 0)
    ensures ValidTable(t)
  {
    WellFormedFromSuffix(t, 0);
  }

  /** Adjacent ordering gives ordering between any two rows. */
  lemma {:induction false} AscendingFromAdjacent(t: seq<LmsRow>)
    requires AdjacentAscending(t)
    ensures Ascending(t)
  {
    if |t| > 1 {
      var u := t[..|t| - 1];
      assert AdjacentAscending(u) by {
        forall i | 0 < i < |u| ensures u[i - 1].age < u[i].age {
          assert u[i - 1] == t[i - 1] && u[i] == t[i];
        }
      }
      AscendingFromAdjacent(u);
      forall i, j | 0 <= i < j < |t| ensures t[i].age < t[j].age {
        if j < |t| - 1 {
          assert t[i] == u[i] && t[j] == u[j];
        } else if i < j - 1 {
          assert t[i] == u[i] && t[j - 1] == u[j - 1];
        }
      }
    }
  }

  lemma MaleHeightWellFormed()
    ensures WellFormedFrom(MaleHeight, 0) && Spans40Rows(MaleHeight)
  {
    assert WellFormedFrom(MaleHeight, 40); assert WellFormedFrom(MaleHeight, 39); assert WellFormedFrom(MaleHeight, 38); assert WellFormedFrom(MaleHeight, 37); assert WellFormedFrom(MaleHeight, 36); assert WellFormedFrom(MaleHeight, 35);
    assert WellFormedFrom(MaleHeight, 34); assert WellFormedFrom(MaleHeight, 33); assert WellFormedFrom(MaleHeight, 32); assert WellFormedFrom(MaleHeight, 31); assert WellFormedFrom(MaleHeight, 30); assert WellFormedFrom(MaleHeight, 29);
    assert WellFormedFrom(MaleHeight, 28); assert WellFormedFrom(MaleHeight, 27); assert WellFormedFrom(MaleHeight, 26); assert WellFormedFrom(MaleHeight, 25); assert WellFormedFrom(MaleHeight, 24); assert WellFormedFrom(MaleHeight, 23);
    assert WellFormedFrom(MaleHeight, 22); assert WellFormedFrom(MaleHeight, 21); assert WellFormedFrom(MaleHeight, 20); assert WellFormedFrom(MaleHeight, 19); assert WellFormedFrom(MaleHeight, 18); assert WellFormedFrom(MaleHeight, 17);
    assert WellFormedFrom(MaleHeight, 16); assert WellFormedFrom(MaleHeight, 15); assert WellFormedFrom(MaleHeight, 14); assert WellFormedFrom(MaleHeight, 13); assert WellFormedFrom(MaleHeight, 12); assert WellFormedFrom(MaleHeight, 11);
    assert WellFormedFrom(MaleHeight, 10); assert WellFormedFrom(MaleHeight, 9); assert WellFormedFrom(MaleHeight, 8); assert WellFormedFrom(MaleHeight, 7); assert WellFormedFrom(MaleHeight, 6); assert WellFormedFrom(MaleHeight, 5);
    assert WellFormedFrom(MaleHeight, 4); assert WellFormedFrom(MaleHeight, 3); assert WellFormedFrom(MaleHeight, 2); assert WellFormedFrom(MaleHeight, 1); assert WellFormedFrom(MaleHeight, 0);
  }

  lemma FemaleHeightWellFormed()
    ensures WellFormedFrom(FemaleHeight, 0) && Spans40Rows(FemaleHeight)
  {
    assert WellFormedFrom(FemaleHeight, 40); assert WellFormedFrom(FemaleHeight, 39); assert WellFormedFrom(FemaleHeight, 38); assert WellFormedFrom(FemaleHeight, 37); assert WellFormedFrom(FemaleHeight, 36); assert WellFormedFrom(FemaleHeight, 35);
    assert WellFormedFrom(FemaleHeight, 34); assert WellFormedFrom(FemaleHeight, 33); assert WellFormedFrom(FemaleHeight, 32); assert WellFormedFrom(FemaleHeight, 31); assert WellFormedFrom(FemaleHeight, 30); assert WellFormedFrom(FemaleHeight, 29);
    assert WellFormedFrom(FemaleHeight, 28); assert WellFormedFrom(FemaleHeight, 27); assert WellFormedFrom(FemaleHeight, 26); assert WellFormedFrom(FemaleHeight, 25); assert WellFormedFrom(FemaleHeight, 24); assert WellFormedFrom(FemaleHeight, 23);
    assert WellFormedFrom(FemaleHeight, 22); assert WellFormedFrom(FemaleHeight, 21); assert WellFormedFrom(FemaleHeight, 20); assert WellFormedFrom(FemaleHeight, 19); assert WellFormedFrom(FemaleHeight, 18); assert WellFormedFrom(FemaleHeight, 17);
    assert WellFormedFrom(FemaleHeight, 16); assert WellFormedFrom(FemaleHeight, 15); assert WellFormedFrom(FemaleHeight, 14); assert WellFormedFrom(FemaleHeight, 13); assert WellFormedFrom(FemaleHeight, 12); assert WellFormedFrom(FemaleHeight, 11);
    assert WellFormedFrom(FemaleHeight, 10); assert WellFormedFrom(FemaleHeight, 9); assert WellFormedFrom(FemaleHeight, 8); assert WellFormedFrom(FemaleHeight, 7); assert WellFormedFrom(FemaleHeight, 6); assert WellFormedFrom(FemaleHeight, 5);
    assert WellFormedFrom(FemaleHeight, 4); assert WellFormedFrom(FemaleHeight, 3); assert WellFormedFrom(FemaleHeight, 2); assert WellFormedFrom(FemaleHeight, 1); assert WellFormedFrom(FemaleHeight, 0);
  }

  lemma MaleWeightWellFormed()
    ensures WellFormedFrom(MaleWeight, 0) && Spans40Rows(MaleWeight)
  {
    assert WellFormedFrom(MaleWeight, 40); assert WellFormedFrom(MaleWeight, 39); assert WellFormedFrom(MaleWeight, 38); assert WellFormedFrom(MaleWeight, 37); assert WellFormedFrom(MaleWeight, 36); assert WellFormedFrom(MaleWeight, 35);
    assert WellFormedFrom(MaleWeight, 34); assert WellFormedFrom(MaleWeight, 33); assert WellFormedFrom(MaleWeight, 32); assert WellFormedFrom(MaleWeight, 31); assert WellFormedFrom(MaleWeight, 30); assert WellFormedFrom(MaleWeight, 29);
    assert WellFormedFrom(MaleWeight, 28); assert WellFormedFrom(MaleWeight, 27); assert WellFormedFrom(MaleWeight, 26); assert WellFormedFrom(MaleWeight, 25); assert WellFormedFrom(MaleWeight, 24); assert WellFormedFrom(MaleWeight, 23);
    assert WellFormedFrom(MaleWeight, 22); assert WellFormedFrom(MaleWeight, 21); assert WellFormedFrom(MaleWeight, 20); assert WellFormedFrom(MaleWeight, 19); assert WellFormedFrom(MaleWeight, 18); assert WellFormedFrom(MaleWeight, 17);
    assert WellFormedFrom(MaleWeight, 16); assert WellFormedFrom(MaleWeight, 15); assert WellFormedFrom(MaleWeight, 14); assert WellFormedFrom(MaleWeight, 13); assert WellFormedFrom(MaleWeight, 12); assert WellFormedFrom(MaleWeight, 11);
    assert WellFormedFrom(MaleWeight, 10); assert WellFormedFrom(MaleWeight, 9); assert WellFormedFrom(MaleWeight, 8); assert WellFormedFrom(MaleWeight, 7); assert WellFormedFrom(MaleWeight, 6); assert WellFormedFrom(MaleWeight, 5);
    assert WellFormedFrom(MaleWeight, 4); assert WellFormedFrom(MaleWeight, 3); assert WellFormedFrom(MaleWeight, 2); assert WellFormedFrom(MaleWeight, 1); assert WellFormedFrom(MaleWeight, 0);
  }

  lemma FemaleWeightWellFormed()
    ensures WellFormedFrom(FemaleWeight, 0) && Spans40Rows(FemaleWeight)
  {
    assert WellFormedFrom(FemaleWeight, 40); assert WellFormedFrom(FemaleWeight, 39); assert WellFormedFrom(FemaleWeight, 38); assert WellFormedFrom(FemaleWeight, 37); assert WellFormedFrom(FemaleWeight, 36); assert WellFormedFrom(FemaleWeight, 35);
    assert WellFormedFrom(FemaleWeight, 34); assert WellFormedFrom(FemaleWeight, 33); assert WellFormedFrom(FemaleWeight, 32); assert WellFormedFrom(FemaleWeight, 31); assert WellFormedFrom(FemaleWeight, 30); assert WellFormedFrom(FemaleWeight, 29);
    assert WellFormedFrom(FemaleWeight, 28); assert WellFormedFrom(FemaleWeight, 27); assert WellFormedFrom(FemaleWeight, 26); assert WellFormedFrom(FemaleWeight, 25); assert WellFormedFrom(FemaleWeight, 24); assert WellFormedFrom(FemaleWeight, 23);
    assert WellFormedFrom(FemaleWeight, 22); assert WellFormedFrom(FemaleWeight, 21); assert WellFormedFrom(FemaleWeight, 20); assert WellFormedFrom(FemaleWeight, 19); assert WellFormedFrom(FemaleWeight, 18); assert WellFormedFrom(FemaleWeight, 17);
    assert WellFormedFrom(FemaleWeight, 16); assert WellFormedFrom(FemaleWeight, 15); assert WellFormedFrom(FemaleWeight, 14); assert WellFormedFrom(FemaleWeight, 13); assert WellFormedFrom(FemaleWeight, 12); assert WellFormedFrom(FemaleWeight, 11);
    assert WellFormedFrom(FemaleWeight, 10); assert WellFormedFrom(FemaleWeight, 9); assert WellFormedFrom(FemaleWeight, 8); assert WellFormedFrom(FemaleWeight, 7); assert WellFormedFrom(FemaleWeight, 6); assert WellFormedFrom(FemaleWeight, 5);
    assert WellFormedFrom(FemaleWeight, 4); assert WellFormedFrom(FemaleWeight, 3); assert WellFormedFrom(FemaleWeight, 2); assert WellFormedFrom(FemaleWeight, 1); assert WellFormedFrom(FemaleWeight, 0);
  }

  /** The shape of the shipped tables: 40 rows from age 0 to age 17.5. */
  predicate Spans40Rows(t: seq<LmsRow>)
  {
    |t| == 40 && t[0].age == 0.0 && t[39].age == 17.5
  }

  /** Each of the four shipped tables has 40 rows spanning ages 0 to 17.5,
      strictly increasing ages, and positive M and S in every row. */
  lemma StandardsValid(sex: Sex, metric: Metric)
    ensures ValidTable(Standards(sex, metric)) && Ascending(Standards(sex, metric))
    ensures Spans40Rows(Standards(sex, metric))
  {
    var t := Standards(sex, metric);
    if sex == Male && metric == Height {
      MaleHeightWellFormed();
    } else if sex == Male {
      MaleWeightWellFormed();
    } else if metric == Height {
      FemaleHeightWellFormed();
    } else {
      FemaleWeightWellFormed();
    }
    WellFormedIsValid(t);
    AscendingFromAdjacent(t);
  }

  /** The boys' height row at 17.5 years has L = 0, so the logarithmic branch
      of the transforms is reached by real lookups. */
  lemma LogBranchRowExists()
    ensures MaleHeight[39].age == 17.5 && MaleHeight[39].L == 0.0
  {
  }
}
