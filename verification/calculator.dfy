/**
 The whole calculator form: the raw state the page keeps, and the results it
 derives from that state (BMR, TDEE and maintenance calories), recomputed
 from scratch for every snapshot of the form.
 */
module Calculator {
  import opened Numbers
  import opened Activity
  import opened Units
  import opened Metabolism

  /** The page's input state, one component per form control. */
  datatype Form = Form(
    unitSystem: UnitSystem,
    sex: Sex,
    age: Field,
    weight: Field,
    heightCm: Field,
    heightFt: Field,
    heightIn: Field,
    activity: Level
  )

  /** The derived figures, in kcal/day; 0 means "not yet available". */
  datatype Results = Results(bmr: int, tdee: int, maintenance: int)

  /** The page as it first opens: metric, male, sedentary, every field empty. */
  const InitialForm: Form := Form(Metric, Male, None, None, None, None, None, Sedentary)

  /** The form's weight and height in kilograms and centimetres. */
  function Measured(f: Form): Measurement
  {
    ToMetric(f.unitSystem, f.weight, f.heightCm, f.heightFt, f.heightIn)
  }

  /** Normalise the measurements, estimate BMR, scale it to TDEE; maintenance
      calories are TDEE. Every figure is a non-negative whole number, and TDEE
      and BMR are unavailable together. A non-positive mass, height or age makes
      everything unavailable; a complete form shows a BMR exactly when the
      formula reaches 1/2, and then BMR and TDEE are the nearest integers to the
      formula and to BMR times the chosen multiplier. */
  function Calculate(f: Form): (r: Results)
    ensures 0 <= r.bmr <= r.tdee
    ensures r.maintenance == r.tdee
    ensures r.tdee == 0 <==> r.bmr == 0
    ensures Parse(f.age) <= 0.0 ==> r == Results(0, 0, 0)
    ensures Parse(f.weight) <= 0.0 ==> r == Results(0, 0, 0)
    ensures Measured(f).kg <= 0.0 || Measured(f).cm <= 0.0 ==> r == Results(0, 0, 0)
    ensures Complete(Measured(f).kg, Measured(f).cm, Parse(f.age))
        ==> (r.bmr > 0 <==> MifflinStJeor(f.sex, Measured(f).kg, Measured(f).cm, Parse(f.age)) >= 0.5)
    ensures r.bmr > 0 ==> r.bmr as real - 0.5 <= MifflinStJeor(f.sex, Measured(f).kg, Measured(f).cm, Parse(f.age))
                                                 < r.bmr as real + 0.5
    ensures r.bmr > 0 ==> r.tdee as real - 0.5 <= r.bmr as real * Multiplier(f.activity) < r.tdee as real + 0.5
  {
    var m := Measured(f);
    var bmr := Bmr(f.sex, m.kg, m.cm, f.age);
    var tdee := Tdee(bmr, f.activity);
    Results(bmr, tdee, tdee)
  }

  /** The results depend only on the fields the chosen unit system reads. */
  lemma IgnoredFieldsIrrelevant(f: Form, x: Field)
    ensures f.unitSystem == Metric ==> Calculate(f.(heightFt := x)) == Calculate(f)
    ensures f.unitSystem == Metric ==> Calculate(f.(heightIn := x)) == Calculate(f)
    ensures f.unitSystem == Imperial ==> Calculate(f.(heightCm := x)) == Calculate(f)
  {
  }

  /** Filling the imperial fields gives the same results as filling the metric
      fields with the converted values. */
  lemma ImperialFormAgreesWithMetric(f: Form)
    requires f.unitSystem == Imperial
    ensures Calculate(f) == Calculate(f.(
      unitSystem := Metric,
      weight := Some(Parse(f.weight) * KgPerLb),
      heightCm := Some(FeetInchesToCm(Parse(f.heightFt), Parse(f.heightIn)))))
  {
    ImperialAgreesWithMetric(f.weight, f.heightCm, f.heightFt, f.heightIn);
  }

  /** A freshly opened page shows nothing, whatever sex or activity is chosen. */
  lemma EmptyFormUnavailable(sex: Sex, level: Level, system: UnitSystem)
    ensures Calculate(InitialForm.(sex := sex, activity := level, unitSystem := system)) == Results(0, 0, 0)
  {
  }

  /** A more active choice never lowers the results shown for the same body data. */
  lemma MoreActiveNeverLower(f: Form, level: Level)
    requires Index(f.activity) <= Index(level)
    ensures Calculate(f).bmr == Calculate(f.(activity := level)).bmr
    ensures Calculate(f).tdee <= Calculate(f.(activity := level)).tdee
  {
    var m := Measured(f);
    TdeeMonotoneInLevel(Bmr(f.sex, m.kg, m.cm, f.age), f.activity, level);
  }

  /** Male, 28 years, 70 kg, 175 cm, sedentary: formula 1658.75, BMR 1659,
      TDEE round(1990.8) = 1991. */
  lemma WorkedExampleMale()
    ensures Calculate(Form(Metric, Male, Some(28.0), Some(70.0), Some(175.0), None, None, Sedentary))
         == Results(1659, 1991, 1991)
  {
    assert MifflinStJeor(Male, 70.0, 175.0, 28.0) == 1658.75;
    RoundUnique(1658.75, 1659);
    assert 1659.0 * Multiplier(Sedentary) == 1990.8;
    RoundUnique(1990.8, 1991);
  }

  /** Female, 30 years, 60 kg, 165 cm, moderate (1.55): formula 1320.25,
      BMR 1320, TDEE 2046. */
  lemma WorkedExampleFemale()
    ensures Calculate(Form(Metric, Female, Some(30.0), Some(60.0), Some(165.0), None, None, Moderate))
         == Results(1320, 2046, 2046)
  {
    assert MifflinStJeor(Female, 60.0, 165.0, 30.0) == 1320.25;
    RoundUnique(1320.25, 1320);
    assert 1320.0 * Multiplier(Moderate) == 2046.0;
    RoundUnique(2046.0, 2046);
  }

  /** The same man entered in imperial units (154 lb, 5 ft 9 in) gets the same
      BMR and TDEE: the formula moves to 1658.9072498, which still rounds to 1659. */
  lemma WorkedExampleImperial()
    ensures Calculate(Form(Imperial, Male, Some(28.0), Some(154.0), None, Some(5.0), Some(9.0), Sedentary))
         == Results(1659, 1991, 1991)
  {
    ImperialExample();
    assert MifflinStJeor(Male, 69.85322498, 175.26, 28.0) == 1658.9072498;
    RoundUnique(1658.9072498, 1659);
    assert 1659.0 * Multiplier(Sedentary) == 1990.8;
    RoundUnique(1990.8, 1991);
  }
}
