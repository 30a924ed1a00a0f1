/**
 The metabolic estimator: the Mifflin–St Jeor BMR equation, the guard that
 reports an incomplete input as 0 ("unavailable"), and the activity-scaled
 TDEE.
 */
module Metabolism {
  import opened Numbers
  import opened Activity

  /** Any sex other than male takes the female constant. */
  datatype Sex = Male | Female

  const MaleConstant: real := 5.0
  const FemaleConstant: real := -161.0

  /** The Mifflin–St Jeor equation, in kcal/day, before any rounding. */
  function MifflinStJeor(sex: Sex, kg: real, cm: real, age: real): (r: real)
  {
    var base := 10.0 * kg + 6.25 * cm - 5.0 * age;
    if sex == Male then base + MaleConstant else base + FemaleConstant
  }

  /** Mass, height and age are all strictly positive: the estimate is available. */
  predicate Complete(kg: real, cm: real, age: real)
  {
    kg > 0.0 && cm > 0.0 && age > 0.0
  }

  /** BMR as displayed: 0 when an input is missing or non-positive, otherwise the
      formula rounded to the nearest integer and clamped at 0. A positive BMR is
      the nearest integer to the formula, and an available BMR is 0 exactly when
      the formula rounds to nothing positive. */
  function Bmr(sex: Sex, kg: real, cm: real, age: Field): (r: int)
    ensures r >= 0
    ensures !Complete(kg, cm, Parse(age)) ==> r == 0
    ensures Complete(kg, cm, Parse(age)) ==> (r == 0 <==> MifflinStJeor(sex, kg, cm, Parse(age)) < 0.5)
    ensures r > 0 ==> r as real - 0.5 <= MifflinStJeor(sex, kg, cm, Parse(age)) < r as real + 0.5
  {
    var a := Parse(age);
    if kg <= 0.0 || cm <= 0.0 || a <= 0.0 then 0
    else
      var rounded := Round(MifflinStJeor(sex, kg, cm, a));
      if rounded < 0 then 0 else rounded
  }

  /** TDEE: an unavailable BMR stays unavailable; otherwise the nearest integer
      to BMR times the chosen multiplier (halves up). A positive BMR never
      shrinks. `Bmr` never yields a negative value; the last clause only records
      what the same code does with one. */
  function Tdee(bmr: int, level: Level): (t: int)
    ensures t == 0 <==> bmr == 0
    ensures bmr != 0 ==> t as real - 0.5 <= bmr as real * Multiplier(level) < t as real + 0.5
    ensures bmr > 0 ==> t >= bmr
    ensures bmr < 0 ==> t < 0
  {
    if bmr == 0 then 0
    else
      MultiplierBounds(level, level);
      ScaledKeepsSign(bmr, Multiplier(level));
      Round(bmr as real * Multiplier(level))
  }

  /** Scaling a whole number by a multiplier of at least 1.2 and rounding keeps
      its sign and never moves a positive value down (the negative case is only
      needed for `Tdee`'s clause about negative input). */
  lemma ScaledKeepsSign(b: int, m: real)
    requires MinMultiplier <= m <= MaxMultiplier
    ensures b > 0 ==> Round(b as real * m) >= b
    ensures b < 0 ==> Round(b as real * m) < 0
  {
    ScaleBetween(b as real, m, MinMultiplier, MaxMultiplier);
    if b > 0 {
      RoundMonotone(b as real, b as real * m);
      RoundOfInteger(b);
    } else if b < 0 {
      RoundMonotone(b as real * m, -1.0);
      RoundOfInteger(-1);
    }
  }

  /** Multiplying by a factor between `lo` and `hi` keeps a non-negative value
      between the two products (and the reverse for a negative one). */
  lemma ScaleBetween(b: real, m: real, lo: real, hi: real)
    requires lo <= m <= hi
    ensures b >= 0.0 ==> b * lo <= b * m <= b * hi
    ensures b <= 0.0 ==> b * hi <= b * m <= b * lo
  {
    if b >= 0.0 {
      assert b * m - b * lo == b * (m - lo);
      assert b * hi - b * m == b * (hi - m);
    } else {
      assert b * lo - b * m == (-b) * (m - lo);
      assert b * m - b * hi == (-b) * (hi - m);
    }
  }

  /** Male minus female is exactly 5 − (−161) = 166 kcal for equal inputs. */
  lemma FormulaSexGap(kg: real, cm: real, age: real)
    ensures MifflinStJeor(Male, kg, cm, age) - MifflinStJeor(Female, kg, cm, age) == 166.0
  {
  }

  /** The formula rises with mass and height and falls with age. */
  lemma FormulaMonotone(sex: Sex, kg: real, cm: real, age: real, kg': real, cm': real, age': real)
    requires kg <= kg' && cm <= cm' && age' <= age
    ensures MifflinStJeor(sex, kg, cm, age) <= MifflinStJeor(sex, kg', cm', age')
    ensures kg < kg' || cm < cm' || age' < age ==> MifflinStJeor(sex, kg, cm, age) < MifflinStJeor(sex, kg', cm', age')
  {
  }

  /** Whatever the sex, an incomplete input gives BMR 0. */
  lemma IncompleteIsUnavailable(sex: Sex, kg: real, cm: real, age: Field)
    requires kg <= 0.0 || cm <= 0.0 || Parse(age) <= 0.0
    ensures Bmr(sex, kg, cm, age) == 0
    ensures Bmr(Male, kg, cm, age) == Bmr(Female, kg, cm, age)
  {
  }

  /** With complete input and a non-negative formula value, BMR is the formula
      rounded half-up, and so within half a kcal of it. */
  lemma BmrNearFormula(sex: Sex, kg: real, cm: real, age: Field)
    requires Complete(kg, cm, Parse(age))
    requires MifflinStJeor(sex, kg, cm, Parse(age)) >= 0.0
    ensures Bmr(sex, kg, cm, age) == (MifflinStJeor(sex, kg, cm, Parse(age)) + 0.5).Floor
    ensures -0.5 < Bmr(sex, kg, cm, age) as real - MifflinStJeor(sex, kg, cm, Parse(age)) <= 0.5
  {
  }

  /** The sex gap survives rounding: male BMR is never below female BMR, and
      exceeds it by exactly 166 once the female BMR is available. */
  lemma BmrSexGap(kg: real, cm: real, age: Field)
    ensures Bmr(Male, kg, cm, age) >= Bmr(Female, kg, cm, age)
    ensures Bmr(Female, kg, cm, age) > 0 ==> Bmr(Male, kg, cm, age) == Bmr(Female, kg, cm, age) + 166
  {
    var a := Parse(age);
    FormulaSexGap(kg, cm, a);
    assert MifflinStJeor(Male, kg, cm, a) == MifflinStJeor(Female, kg, cm, a) + (166 as real);
    RoundShift(MifflinStJeor(Female, kg, cm, a), 166);
  }

  /** BMR never decreases when mass or height grows. */
  lemma BmrMonotoneInBody(sex: Sex, kg: real, cm: real, kg': real, cm': real, age: Field)
    requires kg <= kg' && cm <= cm'
    ensures Bmr(sex, kg, cm, age) <= Bmr(sex, kg', cm', age)
  {
    var a := Parse(age);
    if Complete(kg, cm, a) {
      FormulaMonotone(sex, kg, cm, a, kg', cm', a);
      RoundMonotone(MifflinStJeor(sex, kg, cm, a), MifflinStJeor(sex, kg', cm', a));
    }
  }

  /** Among available ages, BMR never increases as age grows. */
  lemma BmrAntitoneInAge(sex: Sex, kg: real, cm: real, age: real, age': real)
    requires 0.0 < age <= age'
    ensures Bmr(sex, kg, cm, Some(age')) <= Bmr(sex, kg, cm, Some(age))
  {
    if Complete(kg, cm, age) {
      FormulaMonotone(sex, kg, cm, age', kg, cm, age);
      RoundMonotone(MifflinStJeor(sex, kg, cm, age'), MifflinStJeor(sex, kg, cm, age));
    }
  }

  /** For an available BMR, TDEE lies between BMR and the extra-active TDEE, at
      least the sedentary TDEE, and strictly above BMR from 3 kcal upward. */
  lemma TdeeBounds(bmr: int, level: Level)
    requires bmr > 0
    ensures Round(bmr as real * MinMultiplier) <= Tdee(bmr, level) <= Round(bmr as real * MaxMultiplier)
    ensures bmr <= Tdee(bmr, level)
    ensures bmr >= 3 ==> bmr < Tdee(bmr, level)
  {
    var b := bmr as real;
    MultiplierBounds(level, level);
    ScaleBetween(b, Multiplier(level), MinMultiplier, MaxMultiplier);
    RoundMonotone(b * MinMultiplier, b * Multiplier(level));
    RoundMonotone(b * Multiplier(level), b * MaxMultiplier);
    if bmr >= 3 {
      assert b * MinMultiplier >= b + 0.5;
      RoundMonotone(b + 0.5, b * MinMultiplier);
      RoundUnique(b + 0.5, bmr + 1);
    }
  }

  /** The strict increase needs BMR of at least 3: at 1 and 2 kcal the
      sedentary multiplier rounds back to BMR itself. */
  lemma TinyBmrNotRaised()
    ensures Tdee(1, Sedentary) == 1 && Tdee(2, Sedentary) == 2
    ensures Tdee(1, Light) == 1
  {
    assert 1.0 * Multiplier(Sedentary) == 1.2;
    assert 2.0 * Multiplier(Sedentary) == 2.4;
    assert 1.0 * Multiplier(Light) == 1.375;
    RoundUnique(1.2, 1);
    RoundUnique(2.4, 2);
    RoundUnique(1.375, 1);
  }

  /** For a fixed BMR, a higher activity level never gives a lower TDEE. */
  lemma TdeeMonotoneInLevel(bmr: int, level: Level, level': Level)
    requires bmr >= 0
    requires Index(level) <= Index(level')
    ensures Tdee(bmr, level) <= Tdee(bmr, level')
  {
    if bmr > 0 {
      MultiplierBounds(level, level');
      ScaleBetween(bmr as real, Multiplier(level), Multiplier(level), Multiplier(level'));
      RoundMonotone(bmr as real * Multiplier(level), bmr as real * Multiplier(level'));
    }
  }

  /** For a fixed activity level, a larger BMR never gives a smaller TDEE. */
  lemma TdeeMonotoneInBmr(bmr: int, bmr': int, level: Level)
    requires 0 <= bmr <= bmr'
    ensures Tdee(bmr, level) <= Tdee(bmr', level)
  {
    if bmr > 0 {
      var m := Multiplier(level);
      MultiplierBounds(level, level);
      assert bmr' as real * m - bmr as real * m == (bmr' - bmr) as real * m;
      RoundMonotone(bmr as real * m, bmr' as real * m);
    }
  }
}
