/**
 The fixed table of activity levels offered by the form's select box. Each
 option carries the multiplier that scales BMR into TDEE.
 */
module Activity {

  /** The five options, in the order the select box lists them. */
  datatype Level = Sedentary | Light | Moderate | VeryActive | ExtraActive

  /** `ACTIVITY_LEVELS`: the option values "1.2" … "1.9" read as decimals,
      in the order the select box lists them. */
  const Multipliers: seq<real> := [1.2, 1.375, 1.55, 1.725, 1.9]

  const MinMultiplier: real := 1.2
  const MaxMultiplier: real := 1.9

  /** Position of a level in the table. */
  function Index(l: Level): (i: nat)
    ensures i < |Multipliers|
  {
    match l
    case Sedentary => 0
    case Light => 1
    case Moderate => 2
    case VeryActive => 3
    case ExtraActive => 4
  }

  /** `Number(activity)` for the option the user picked; always within the
      table's range. */
  function Multiplier(l: Level): (m: real)
    ensures MinMultiplier <= m <= MaxMultiplier
  {
    Multipliers[Index(l)]
  }

  /** The table has five entries whose multipliers rise strictly from 1.2 to 1.9. */
  lemma TableShape()
    ensures |Multipliers| == 5
    ensures Multipliers[0] == MinMultiplier
    ensures Multipliers[|Multipliers| - 1] == MaxMultiplier
    ensures forall i, j :: 0 <= i < j < |Multipliers| ==> Multipliers[i] < Multipliers[j]
  {
  }

  /** Every multiplier lies in [1.2, 1.9], and a higher level never has a smaller one. */
  lemma MultiplierBounds(l: Level, m: Level)
    ensures MinMultiplier <= Multiplier(l) <= MaxMultiplier
    ensures Index(l) < Index(m) ==> Multiplier(l) < Multiplier(m)
  {
    TableShape();
  }
}
