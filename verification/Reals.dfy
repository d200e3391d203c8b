/** Multiples of a real number, kept apart from the lemmas that add them up. */
module Reals {

  function Times(x: real, n: nat): real {
    x * n as real
  }

  lemma NoTimes(x: real)
    ensures Times(x, 0) == 0.0
  {
  }

  lemma OneMoreTime(x: real, n: nat)
    ensures Times(x, n + 1) == Times(x, n) + x
  {
  }
}
