/** `Math.sin`, `Math.cos` and `Math.PI` are foreign to the model: they are
    passed in as a value, and every property that depends on them assumes only
    the facts stated by `Trig.Valid`. */
module Trig {

  datatype Trig = Trig(sine: real -> real, cosine: real -> real, pi: real) {

    function Sin(x: real): real {
      sine(x)
    }

    function Cos(x: real): real {
      cosine(x)
    }

    /** The facts about sine and cosine that the model relies on. */
    ghost predicate Valid() {
      && (forall x :: -1.0 <= Sin(x) <= 1.0)
      && (forall x :: -1.0 <= Cos(x) <= 1.0)
      && (forall x :: Sin(x) * Sin(x) + Cos(x) * Cos(x) == 1.0)
      && Sin(0.0) == 0.0
    }
  }

}
