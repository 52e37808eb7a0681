/** A few facts about numbers that several modules need. */
module Numbers {
  function Min(a: real, b: real): (m: real)
    ensures m <= a && m <= b && m in {a, b}
  {
    if a < b then a else b
  }

  function Max(a: real, b: real): (m: real)
    ensures m >= a && m >= b && m in {a, b}
  {
    if a > b then a else b
  }

  predicate Ascending(s: seq<real>) {
    forall i, j :: 0 <= i < j < |s| ==> s[i] <= s[j]
  }

  lemma MulMonotone(a: int, b: int, k: int)
    requires k >= 0 && a <= b
    ensures a * k <= b * k
  {
  }
}
