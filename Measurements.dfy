/**
 * The measurement list kept by the application: the age of a child at a
 * measurement date, adding a scored measurement after validating the form,
 * deleting one entry, and rescoring every entry when the child's sex changes.
 *
 * Dates are whole day numbers. Form fields that the user left empty are
 * `None`; a filled field holds the number it parses to.
 */
module Measurements {
  import opened GrowthStandards
  import opened Transcendental
  import opened Scoring

  datatype Option<T> = None | Some(value: T)

  /** One row of the measurement list. Entries carry an age once they were
      scored; an entry without one is never rescored. */
  datatype Measurement = Measurement(
    date: int,
    age: Option<real>,
    height: real,
    weight: real,
    heightSD: real,
    weightSD: real)

  datatype ChildInfo = ChildInfo(birthDate: Option<int>, gender: Sex)

  /** The measurement form; an empty height or weight field is `None`. */
  datatype MeasurementForm = MeasurementForm(date: int, height: Option<real>, weight: Option<real>)

  /** Why an add request was refused, or that it succeeded. */
  datatype AddOutcome = Added | MissingInput | AgeOutOfRange

  /** The number of days from birth within which a measurement is accepted:
      18 years of 12 months of 30.44 days is 6575.04 days. */
  const MaxAgeDays: int := 6575

  /** calculateAge: months of 30.44 days, then years of 12 months. */
  function AgeInYears(birthDay: int, day: int): (age: real)
    ensures age < 0.0 <==> day < birthDay
    ensures age > 18.0 <==> day - birthDay > MaxAgeDays
    ensures age == 0.0 <==> day == birthDay
  {
    (day - birthDay) as real / 30.44 / 12.0
  }

  /** A later measurement date never gives a smaller age. */
  lemma AgeInYearsMonotone(birthDay: int, day1: int, day2: int)
    requires day1 <= day2
    ensures AgeInYears(birthDay, day1) <= AgeInYears(birthDay, day2)
  {
    var d1, d2 := (day1 - birthDay) as real, (day2 - birthDay) as real;
    assert d1 / 30.44 <= d2 / 30.44;
  }

  /** Two calendar years, 2020-01-01 to 2022-01-01, are 731 days: just over
      two years of age. */
  lemma TwoCalendarYearsAge()
    ensures 2.0 < AgeInYears(0, 731) < 2.002
  {
  }

  /** The form accepted by `AddMeasurement` holds every required input. */
  predicate HasAllInputs(child: ChildInfo, form: MeasurementForm)
  {
    child.birthDate.Some? && form.height.Some? && form.weight.Some?
  }

  /** addMeasurement. A missing birth date, height or weight, or an age
      outside [0, 18] years, leaves the list and the form as they were;
      otherwise one scored entry is appended and the form is cleared, its
      date set to `today`. */
  method AddMeasurement(f: MathFunctions, measurements: seq<Measurement>, child: ChildInfo,
                        form: MeasurementForm, today: int)
    returns (updated: seq<Measurement>, nextForm: MeasurementForm, outcome: AddOutcome)
    ensures outcome == MissingInput <==> !HasAllInputs(child, form)
    ensures outcome == AgeOutOfRange <==>
      HasAllInputs(child, form) &&
      (form.date < child.birthDate.value || form.date - child.birthDate.value > MaxAgeDays)
    ensures outcome != Added ==> updated == measurements && nextForm == form
    ensures outcome == Added ==>
      && |updated| == |measurements| + 1
      && updated[..|measurements|] == measurements
      && nextForm == MeasurementForm(today, None, None)
    ensures outcome == Added ==>
      var entry := updated[|measurements|];
      var age := AgeInYears(child.birthDate.value, form.date);
      && entry.date == form.date
      && entry.age == Some(age)
      && 0.0 <= age <= 18.0
      && entry.height == form.height.value
      && entry.weight == form.weight.value
      && entry.heightSD == SDScore(f, entry.height, age, child.gender, Height)
      && entry.weightSD == SDScore(f, entry.weight, age, child.gender, Weight)
  {
    if child.birthDate.None? || form.height.None? || form.weight.None? {
      return measurements, form, MissingInput;
    }
    var age := AgeInYears(child.birthDate.value, form.date);
    if age < 0.0 || age > 18.0 {
      return measurements, form, AgeOutOfRange;
    }
    var height := form.height.value;
    var weight := form.weight.value;
    var heightSD := CalculateSDScore(f, height, age, child.gender, Height);
    var weightSD := CalculateSDScore(f, weight, age, child.gender, Weight);
    var entry := Measurement(form.date, Some(age), height, weight, heightSD, weightSD);
    updated := measurements + [entry];
    nextForm := MeasurementForm(today, None, None);
    outcome := Added;
  }

  /** Where Array.prototype.splice starts for `index` on a list of length
      `n`: a negative index counts back from the end, and the start is clamped
      to [0, n]. */
  function SpliceStart(n: nat, index: int): (start: nat)
    ensures start <= n
    ensures 0 <= index <= n ==> start == index
    ensures index < 0 && 0 <= n + index ==> start == n + index
    ensures index > n ==> start == n
    ensures n + index < 0 ==> start == 0
  {
    if index < 0 then (if n + index < 0 then 0 else n + index)
    else if index > n then n else index
  }

  /** deleteMeasurement: when the user confirms, copies the list and splices
      one entry out of the copy at `index`. */
  method DeleteMeasurement(measurements: seq<Measurement>, index: int, confirmed: bool)
    returns (updated: seq<Measurement>)
    ensures var start := SpliceStart(|measurements|, index);
      if confirmed && start < |measurements|
      then updated == measurements[..start] + measurements[start + 1..]
      else updated == measurements
    ensures confirmed && 0 <= index < |measurements| ==>
      && |updated| == |measurements| - 1
      && (forall j :: 0 <= j < index ==> updated[j] == measurements[j])
      && (forall j :: index <= j < |updated| ==> updated[j] == measurements[j + 1])
      && multiset(updated) + multiset{measurements[index]} == multiset(measurements)
  {
    if !confirmed {
      return measurements;
    }
    var n := |measurements|;
    var start := SpliceStart(n, index);
    if start == n {
      return measurements;
    }
    var copy := new Measurement[n](i requires 0 <= i < n => measurements[i]);
    var k := start;
    while k + 1 < n
      invariant start <= k < n
      invariant forall j :: 0 <= j < start ==> copy[j] == measurements[j]
      invariant forall j :: start <= j < k ==> copy[j] == measurements[j + 1]
      invariant forall j :: k <= j < n ==> copy[j] == measurements[j]
    {
      copy[k] := copy[k + 1];
      k := k + 1;
    }
    updated := copy[..n - 1];
    assert updated == measurements[..start] + measurements[start + 1..] by {
      forall j | 0 <= j < n - 1
        ensures updated[j] == (measurements[..start] + measurements[start + 1..])[j]
      {
      }
    }
    calc {
      multiset(measurements);
    == { assert measurements == measurements[..start] + [measurements[start]] + measurements[start + 1..]; }
      multiset(measurements[..start]) + multiset{measurements[start]} + multiset(measurements[start + 1..]);
    }
  }

  /** One entry after a rescoring pass with `gender`: entries without an age
      are returned as they are; the others get fresh height and weight
      scores and keep every other field. */
  function Rescore(f: MathFunctions, m: Measurement, gender: Sex): Measurement
  {
    if m.age.None? then m
    else m.(heightSD := SDScore(f, m.height, m.age.value, gender, Height),
            weightSD := SDScore(f, m.weight, m.age.value, gender, Weight))
  }

  /** updateMeasurementsWithSD: `Rescore` applied to every entry in order. */
  function Rescored(f: MathFunctions, ms: seq<Measurement>, gender: Sex): seq<Measurement>
  {
    if ms == [] then [] else [Rescore(f, ms[0], gender)] + Rescored(f, ms[1..], gender)
  }

  /** Rescoring keeps the length and the order, touches only the two score
      fields, leaves entries without an age alone and scores the others
      for `gender` at their own age. */
  lemma {:induction false} RescoredEntries(f: MathFunctions, ms: seq<Measurement>, gender: Sex)
    ensures |Rescored(f, ms, gender)| == |ms|
    ensures forall i :: 0 <= i < |ms| ==>
      var r := Rescored(f, ms, gender)[i];
      && r.date == ms[i].date && r.age == ms[i].age
      && r.height == ms[i].height && r.weight == ms[i].weight
      && (ms[i].age.None? ==> r == ms[i])
      && (ms[i].age.Some? ==>
            && r.heightSD == SDScore(f, ms[i].height, ms[i].age.value, gender, Height)
            && r.weightSD == SDScore(f, ms[i].weight, ms[i].age.value, gender, Weight))
  {
    if ms != [] {
      RescoredEntries(f, ms[1..], gender);
      forall i | 0 < i < |ms|
        ensures Rescored(f, ms, gender)[i] == Rescored(f, ms[1..], gender)[i - 1]
      {
      }
    }
  }

  /** Only the last rescoring counts: rescoring with `g1` and then with `g2`
      is rescoring with `g2`. */
  lemma {:induction false} RescoredLastWins(f: MathFunctions, ms: seq<Measurement>, g1: Sex, g2: Sex)
    ensures Rescored(f, Rescored(f, ms, g1), g2) == Rescored(f, ms, g2)
  {
    if ms != [] {
      var r1 := Rescored(f, ms, g1);
      assert r1[0] == Rescore(f, ms[0], g1) && r1[1..] == Rescored(f, ms[1..], g1);
      RescoredLastWins(f, ms[1..], g1, g2);
    }
  }

  /** Rescoring twice with the same gender is rescoring once. */
  lemma RescoredIdempotent(f: MathFunctions, ms: seq<Measurement>, gender: Sex)
    ensures Rescored(f, Rescored(f, ms, gender), gender) == Rescored(f, ms, gender)
  {
    RescoredLastWins(f, ms, gender, gender);
  }

  /** Rescoring a list with one more entry at the end rescores the list and
      that entry: appending and rescoring commute. */
  lemma {:induction false} RescoredAppend(f: MathFunctions, ms: seq<Measurement>, m: Measurement, gender: Sex)
    ensures Rescored(f, ms + [m], gender) == Rescored(f, ms, gender) + [Rescore(f, m, gender)]
  {
    if ms != [] {
      assert (ms + [m])[1..] == ms[1..] + [m];
      RescoredAppend(f, ms[1..], m, gender);
    }
  }

  /** The effect that runs when the child's sex changes: a non-empty list is
      rescored for the new sex. */
  function OnGenderChange(f: MathFunctions, ms: seq<Measurement>, gender: Sex): seq<Measurement>
  {
    if |ms| > 0 then Rescored(f, ms, gender) else ms
  }

  /** The emptiness guard makes no difference: the effect always leaves the
      rescored list. */
  lemma OnGenderChangeRescores(f: MathFunctions, ms: seq<Measurement>, gender: Sex)
    ensures OnGenderChange(f, ms, gender) == Rescored(f, ms, gender)
  {
  }
}
