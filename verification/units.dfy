/**
 The unit normaliser (`toMetric`): raw weight and height fields, in either
 unit system, become a mass in kilograms and a height in centimetres.
 No rounding happens here.
 */
module Units {
  import opened Numbers

  datatype UnitSystem = Metric | Imperial

  /** A body measurement in canonical units. */
  datatype Measurement = Measurement(kg: real, cm: real)

  /** Exact kilograms per international avoirdupois pound. */
  const KgPerLb: real := 0.45359237
  const InchesPerFoot: real := 12.0
  /** Exact centimetres per international inch. */
  const CmPerInch: real := 2.54

  /** Feet and inches to centimetres, via the total number of inches: each
      foot adds 30.48 cm and each inch 2.54 cm. */
  function FeetInchesToCm(ft: real, inch: real): (cm: real)
    ensures cm == ft * 30.48 + inch * 2.54
  {
    (ft * InchesPerFoot + inch) * CmPerInch
  }

  /** Metric fields pass through; imperial pounds and feet/inches are converted.
      Whichever fields the chosen system reads, non-negative readings give a
      non-negative measurement. */
  function ToMetric(system: UnitSystem, weight: Field, heightCm: Field, heightFt: Field, heightIn: Field)
    : (m: Measurement)
    ensures Parse(weight) >= 0.0 ==> m.kg >= 0.0
    ensures Parse(weight) <= 0.0 ==> m.kg <= 0.0
    ensures system == Metric && Parse(heightCm) >= 0.0 ==> m.cm >= 0.0
    ensures system == Imperial && Parse(heightFt) >= 0.0 && Parse(heightIn) >= 0.0 ==> m.cm >= 0.0
  {
    match system
    case Metric =>
      Measurement(Parse(weight), Parse(heightCm))
    case Imperial =>
      var lbs := Parse(weight);
      var ft := Parse(heightFt);
      var inch := Parse(heightIn);
      Measurement(lbs * KgPerLb, FeetInchesToCm(ft, inch))
  }

  /** Metric input is taken as entered, and the feet/inch fields play no part. */
  lemma MetricPassThrough(weight: Field, heightCm: Field, ft: Field, inch: Field, ft': Field, inch': Field)
    ensures ToMetric(Metric, weight, heightCm, ft, inch) == Measurement(Parse(weight), Parse(heightCm))
    ensures ToMetric(Metric, weight, heightCm, ft, inch) == ToMetric(Metric, weight, heightCm, ft', inch')
  {
  }

  /** Imperial input is converted with the exact pound and inch factors, and the
      centimetre field plays no part. */
  lemma ImperialConversion(weight: Field, heightCm: Field, heightCm': Field, ft: Field, inch: Field)
    ensures ToMetric(Imperial, weight, heightCm, ft, inch).kg == Parse(weight) * 0.45359237
    ensures ToMetric(Imperial, weight, heightCm, ft, inch).cm == (Parse(ft) * 12.0 + Parse(inch)) * 2.54
    ensures ToMetric(Imperial, weight, heightCm, ft, inch) == ToMetric(Imperial, weight, heightCm', ft, inch)
  {
  }

  /** Entering pounds and feet/inches gives the same measurement as entering
      their metric equivalents in the metric fields. */
  lemma ImperialAgreesWithMetric(weight: Field, heightCm: Field, ft: Field, inch: Field)
    ensures ToMetric(Imperial, weight, heightCm, ft, inch)
         == ToMetric(Metric, Some(Parse(weight) * KgPerLb), Some(FeetInchesToCm(Parse(ft), Parse(inch))), ft, inch)
  {
  }

  /** Empty fields count as zero in either system. */
  lemma EmptyFieldsReadZero(system: UnitSystem)
    ensures ToMetric(system, None, None, None, None) == Measurement(0.0, 0.0)
  {
  }

  /** One foot is twelve inches: moving a foot into the inch field leaves the height unchanged. */
  lemma FootIsTwelveInches(ft: real, inch: real)
    ensures FeetInchesToCm(ft + 1.0, inch) == FeetInchesToCm(ft, inch + 12.0)
    ensures FeetInchesToCm(1.0, 0.0) == 30.48
  {
  }

  /** Imperial conversion is strictly increasing in pounds, feet and inches. */
  lemma ImperialMonotone(lb: real, lb': real, ft: real, ft': real, inch: real, inch': real)
    requires lb <= lb' && ft <= ft' && inch <= inch'
    ensures ToMetric(Imperial, Some(lb), None, Some(ft), Some(inch)).kg
         <= ToMetric(Imperial, Some(lb'), None, Some(ft'), Some(inch')).kg
    ensures ToMetric(Imperial, Some(lb), None, Some(ft), Some(inch)).cm
         <= ToMetric(Imperial, Some(lb'), None, Some(ft'), Some(inch')).cm
    ensures lb < lb' ==> (ToMetric(Imperial, Some(lb), None, Some(ft), Some(inch)).kg
                          < ToMetric(Imperial, Some(lb'), None, Some(ft'), Some(inch')).kg)
    ensures ft < ft' || inch < inch' ==> (ToMetric(Imperial, Some(lb), None, Some(ft), Some(inch)).cm
                                          < ToMetric(Imperial, Some(lb'), None, Some(ft'), Some(inch')).cm)
  {
  }

  /** 154 lb at 5 ft 9 in is 69.85322498 kg at 175.26 cm. */
  lemma ImperialExample()
    ensures ToMetric(Imperial, Some(154.0), None, Some(5.0), Some(9.0)) == Measurement(69.85322498, 175.26)
  {
  }
}
