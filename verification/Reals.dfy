/** Repeated addition over the reals, kept apart from multiplication. */
module Reals {

  ghost function Times(k: nat, x: real): real { k as real * x }

  lemma TimesNext(k: nat, x: real)
    ensures Times(k + 1, x) == Times(k, x) + x
  {
  }

  lemma TimesNone(x: real)
    ensures Times(0, x) == 0.0
  {
  }

  lemma TimesCancel(k: nat, x: real, y: real)
    requires k > 0 && Times(k, x) == Times(k, y)
    ensures x == y
  {
    assert k as real * (x - y) == 0.0;
  }

  lemma TimesIs(k: nat, x: real)
    ensures k as real * x == Times(k, x)
  {
  }

  lemma TimesZero(k: nat)
    ensures Times(k, 0.0) == 0.0
  {
  }
}
