# Calorie maintenance calculator — Dafny model

The calculator is a single page. It takes sex, age, weight and height in
metric or imperial units, plus one of five activity levels. It shows the
Basal Metabolic Rate (BMR) from the Mifflin–St Jeor equation, and the Total
Daily Energy Expenditure (TDEE), which it also shows as maintenance calories.
All of its logic is in `src/App.jsx`. This project models that logic as pure
Dafny functions over exact reals and proves properties of them.

- `Numbers`: a raw form field as `Option<real>`. `None` is an empty or
  unparseable entry, and `Parse` reads it as 0 (`Number(x) || 0`). `Round` is
  `Math.round`, i.e. `Floor(x + 1/2)`.
- `Activity`: the five-entry `ACTIVITY_LEVELS` table and the multiplier of
  each level.
- `Units`: `toMetric`, from metric or imperial fields to kilograms and
  centimetres.
- `Metabolism`: the Mifflin–St Jeor equation, the guarded BMR (0 when mass,
  height or age is not positive; otherwise rounded and clamped at 0), and TDEE
  (0 when BMR is 0; otherwise BMR times the multiplier, rounded).
- `Calculator`: the form state of the page and the figures it derives from it,
  with worked examples.

Notes on how the model reads the code:
- The code parses age with `Number(age) || 0`, so the model's age is a real
  number, not an integer. A fractional age is accepted, and a missing or
  non-positive age makes every figure 0.
- In the source, any sex other than `"male"` takes the female constant −161,
  and any unit system other than `"metric"` takes the imperial branch. The
  model has exactly two values for each.
- The activity value always comes from one of the select box's options, so it
  is modelled as an enumeration, and `Number(activity)` as the option's
  multiplier.
- BMR is not always strictly below TDEE. At BMR 1 or 2 the sedentary
  multiplier rounds back to the same value (`Round(1.2) = 1`,
  `Round(2.4) = 2`). The model proves `BMR <= TDEE`, with strict inequality
  from BMR 3 upward, and `Metabolism.TinyBmrNotRaised` gives the small cases.
- `Metabolism.Tdee` is defined for every whole-number BMR, including negative
  ones, which `Metabolism.Bmr` never produces. Its clause about a negative BMR,
  and the negative half of `Metabolism.ScaledKeepsSign` that proves it, only
  describe what the same code would do with such an input. On the page, BMR is
  always 0 or positive.

## Model

| member | source | states |
|---|---|---|
| Numbers.Parse | src/App.jsx:14-21 | a field read with `Number`, falling back to 0, is 0 exactly when it is empty, unparseable or an entered zero; otherwise it reads as the entered number |
| Numbers.Round | src/App.jsx:58-64 | `Math.round` gives the integer n with n − 1/2 <= x < n + 1/2, so halves round up |
| Activity.Multiplier | src/App.jsx:63 | `Number(activity)` for any chosen option is a multiplier in [1.2, 1.9] taken from the table |
| Activity.TableShape | src/App.jsx:3-9 | the table has exactly five multipliers; they rise strictly from 1.2 to 1.9 |
| Activity.MultiplierBounds | src/App.jsx:3-9 | every level's multiplier is in [1.2, 1.9], and a later level has a strictly larger multiplier |
| Units.ToMetric | src/App.jsx:11-26 | non-negative readings of the fields the chosen system uses give a non-negative mass and height; a non-positive weight gives a non-positive mass |
| Units.FeetInchesToCm | src/App.jsx:22-24 | feet and inches become centimetres at 30.48 cm per foot and 2.54 cm per inch |
| Units.MetricPassThrough | src/App.jsx:12-16 | metric weight and height are taken as parsed, and the feet/inch fields have no effect |
| Units.ImperialConversion | src/App.jsx:18-25 | imperial mass is lb · 0.45359237 and height is (ft·12 + in) · 2.54; the centimetre field has no effect |
| Units.ImperialAgreesWithMetric | src/App.jsx:11-26 | imperial input gives the same measurement as entering its converted values in the metric fields |
| Units.EmptyFieldsReadZero | src/App.jsx:14-21 | empty fields read as 0 kg and 0 cm in either system |
| Units.FootIsTwelveInches | src/App.jsx:22-24 | one foot more equals twelve inches more, and one foot is 30.48 cm |
| Units.ImperialMonotone | src/App.jsx:19-24 | imperial conversion is non-decreasing in pounds, feet and inches, and strictly increasing in any input that grows |
| Units.ImperialExample | src/App.jsx:19-24 | 154 lb at 5 ft 9 in is 69.85322498 kg at 175.26 cm |
| Metabolism.FormulaSexGap | src/App.jsx:28-31 | for equal mass, height and age, the male value of `MifflinStJeor` (10·kg + 6.25·cm − 5·age + 5) exceeds the female one (the same base − 161) by exactly 166 |
| Metabolism.FormulaMonotone | src/App.jsx:28-31 | `MifflinStJeor` is strictly increasing in mass and height and strictly decreasing in age |
| Metabolism.Bmr | src/App.jsx:55-59 | BMR is >= 0; it is 0 for incomplete input; for complete input it is 0 exactly when the formula is below 1/2; a positive BMR is the nearest integer to the formula |
| Metabolism.IncompleteIsUnavailable | src/App.jsx:56-57 | a non-positive mass, height or parsed age gives BMR 0, whatever the sex |
| Metabolism.BmrNearFormula | src/App.jsx:58 | for complete input with formula f >= 0, BMR = Floor(f + 1/2), which is within 1/2 of f |
| Metabolism.BmrSexGap | src/App.jsx:55-59 | male BMR is never below female BMR, and is exactly 166 above it whenever female BMR is positive |
| Metabolism.BmrMonotoneInBody | src/App.jsx:55-59 | BMR never decreases when mass or height grows |
| Metabolism.BmrAntitoneInAge | src/App.jsx:55-59 | for positive ages, BMR never increases as age grows |
| Metabolism.Tdee | src/App.jsx:61-65 | TDEE is 0 exactly when BMR is 0; otherwise it is the nearest integer (halves up) to BMR times the chosen level's multiplier, and for a positive BMR it is >= BMR |
| Metabolism.ScaledKeepsSign | src/App.jsx:63-64 | rounding BMR times a multiplier from the table keeps its sign and never lowers a positive BMR |
| Metabolism.TdeeBounds | src/App.jsx:61-65 | for BMR > 0, Round(1.2·BMR) <= TDEE <= Round(1.9·BMR); BMR <= TDEE, with strict inequality once BMR >= 3 |
| Metabolism.TinyBmrNotRaised | src/App.jsx:61-65 | at BMR 1 and 2 the sedentary TDEE equals BMR, and so does the light TDEE at BMR 1 |
| Metabolism.TdeeMonotoneInLevel | src/App.jsx:61-65 | for a fixed BMR >= 0, TDEE does not decrease as the activity level rises |
| Metabolism.TdeeMonotoneInBmr | src/App.jsx:61-65 | for a fixed level, a larger non-negative BMR never gives a smaller TDEE |
| Calculator.Calculate | src/App.jsx:43-67 | 0 <= BMR <= TDEE; maintenance equals TDEE; TDEE is 0 exactly when BMR is 0; a non-positive mass, height, weight entry or age makes every figure 0; a complete form shows a BMR exactly when the formula reaches 1/2, and then BMR is the nearest integer to the formula and TDEE the nearest integer to BMR times the multiplier |
| Calculator.IgnoredFieldsIrrelevant | src/App.jsx:43-53 | the feet/inch fields have no effect in metric mode, and the centimetre field none in imperial mode |
| Calculator.ImperialFormAgreesWithMetric | src/App.jsx:43-59 | an imperial form gives the same results as the metric form holding the converted values |
| Calculator.EmptyFormUnavailable | src/App.jsx:34-65 | the form as first opened, with every field empty, shows BMR, TDEE and maintenance as 0, whatever the sex, level or unit system |
| Calculator.MoreActiveNeverLower | src/App.jsx:55-67 | choosing a higher activity level leaves BMR unchanged and never lowers TDEE |
| Calculator.WorkedExampleMale | src/App.jsx:28-67 | male, 28 years, 70 kg, 175 cm, sedentary gives BMR 1659 and TDEE/maintenance 1991 |
| Calculator.WorkedExampleFemale | src/App.jsx:28-67 | female, 30 years, 60 kg, 165 cm, moderate gives BMR 1320 and TDEE/maintenance 2046 |
| Calculator.WorkedExampleImperial | src/App.jsx:11-67 | the same man entered as 154 lb at 5 ft 9 in also gets BMR 1659 and TDEE 1991 |

## Left out

- React plumbing (`useState`, `useMemo` dependency tracking, the JSX, `ResultTile`, the `styles` object): these are presentation. The model recomputes every figure from the whole form.
- The "—" placeholder for an unavailable figure: display only. The model keeps the source's 0.
- `src/main.jsx` (theme bootstrap from `localStorage`/`matchMedia`, lazy loading, the error boundary, mounting into the DOM): browser I/O and framework wiring with no computation to model.
- Full `Number(string)` parsing (whitespace, hexadecimal, `"Infinity"`, NaN): a field is abstracted as `Option<real>`, where `None` reads as 0. An infinite entry is therefore not modelled.
- IEEE-754 doubles: the model uses exact real arithmetic, and JavaScript's doubles can give different results. The known ways are these:
  - A binary representation error can move a value across a `.5` rounding boundary.
  - A representation error or underflow can move a converted imperial height or weight across the `<= 0` guard. In doubles, 0.1 ft and −1.2 in give a tiny positive height and a BMR is shown, where the model's height is exactly 0. A weight of `5e-324` lb underflows to 0 kg, so no BMR is shown, where the model's mass is positive.
  - Values above 2^53 lose integer precision.
  - Finite entries can overflow. A weight of `1e308` makes `10 * kg` Infinity, so the page shows an infinite BMR and TDEE.
  - Weight and age both near `1e308` give `Infinity − Infinity`, which is NaN, and then both figures show as unavailable.

  In these underflow and overflow cases the model's figures differ from the page's.
- An activity value that is not one of the five options: the select box cannot produce one.
- The activity options' label texts: display only. The model keeps each option's value, read as a multiplier.
- BMI, goal bands (cut/gain), conversions back from metric to imperial, and BMI classification: the source shown does not compute them.
