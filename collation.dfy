/**
 * String comparison as used by the status sort. `String.prototype.localeCompare`
 * is modelled by plain code-point lexicographic order: the only strings ever
 * compared are the status labels, whose first letters already differ, and on
 * those the two orders agree.
 */
module Collation {

  /** The sign of an integer, as a comparator result is read by a sort. */
  function Sign(x: int): (r: int)
    ensures r == -1 || r == 0 || r == 1
    ensures r < 0 <==> x < 0
    ensures r == 0 <==> x == 0
  {
    if x < 0 then -1 else if x == 0 then 0 else 1
  }

  /** `a.localeCompare(b)`: negative, zero or positive as `a` sorts before, with or after `b`. */
  function LocaleCompare(a: string, b: string): (r: int)
    ensures r == -1 || r == 0 || r == 1
    ensures r == 0 <==> a == b
  {
    if a == [] && b == [] then 0
    else if a == [] then -1
    else if b == [] then 1
    else if a[0] < b[0] then -1
    else if a[0] > b[0] then 1
    else
      assert a != b ==> a[1..] != b[1..] by {
        if a[1..] == b[1..] { assert a == [a[0]] + a[1..] && b == [b[0]] + b[1..]; }
      }
      LocaleCompare(a[1..], b[1..])
  }

  /** Swapping the operands negates the result. */
  lemma {:induction false} LocaleCompareAntisymmetric(a: string, b: string)
    ensures LocaleCompare(b, a) == -LocaleCompare(a, b)
  {
    if a != [] && b != [] && a[0] == b[0] {
      LocaleCompareAntisymmetric(a[1..], b[1..]);
    }
  }

  /** The order is transitive. */
  lemma {:induction false} LocaleCompareTransitive(a: string, b: string, c: string)
    requires LocaleCompare(a, b) <= 0 && LocaleCompare(b, c) <= 0
    ensures LocaleCompare(a, c) <= 0
  {
    if a != [] && b != [] && c != [] && a[0] == b[0] && b[0] == c[0] {
      LocaleCompareTransitive(a[1..], b[1..], c[1..]);
    }
  }
}
