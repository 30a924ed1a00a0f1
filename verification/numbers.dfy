/**
 Numeric conventions of the calculator: how a raw form field is read as a
 number (`Number(x) || 0`) and how `Math.round` rounds. All arithmetic is on
 exact reals; IEEE-754 doubles are not modelled.
 */
module Numbers {

  /** A form field as the browser hands it over. `None` is an empty entry or
      one that does not parse as a number; `Some(v)` is a field that parses to `v`. */
  datatype Option<T> = None | Some(value: T)

  type Field = Option<real>

  /** `Number(x) || 0`: a field reads as zero exactly when it is empty,
      unparseable or an entered zero; any other reading is the entered number. */
  function Parse(f: Field): (r: real)
    ensures r == 0.0 <==> f == None || f == Some(0.0)
    ensures r != 0.0 ==> f == Some(r)
  {
    match f
    case None => 0.0
    case Some(v) => v
  }

  /** `Math.round`: the nearest integer, with halves rounded towards +infinity. */
  function Round(x: real): (n: int)
    ensures n as real - 0.5 <= x < n as real + 0.5
  {
    (x + 0.5).Floor
  }

  /** The nearest-integer characterisation determines `Round` completely. */
  lemma RoundUnique(x: real, n: int)
    requires n as real - 0.5 <= x < n as real + 0.5
    ensures Round(x) == n
  {
  }

  lemma RoundMonotone(x: real, y: real)
    requires x <= y
    ensures Round(x) <= Round(y)
  {
  }

  /** Shifting by a whole number shifts the rounded value by the same amount. */
  lemma RoundShift(x: real, k: int)
    ensures Round(x + k as real) == Round(x) + k
  {
    RoundUnique(x + k as real, Round(x) + k);
  }

  lemma RoundOfInteger(k: int)
    ensures Round(k as real) == k
  {
    RoundUnique(k as real, k);
  }
}
