/** What several modules share. */
module Basics {

  datatype Option<T> = None | Some(value: T)

  function Max(x: int, y: int): int {
    if x < y then y else x
  }

  function Min(x: int, y: int): int {
    if x < y then x else y
  }

  // ----- division

  lemma MulBounds(k: int, p: int)
    requires p > 0
    ensures k >= 1 ==> k * p >= p
    ensures k <= -1 ==> k * p <= -p
    ensures k >= 2 ==> k * p >= 2 * p
    ensures k <= -2 ==> k * p <= -2 * p
  {
  }

  lemma DivModUnique(a: int, n: nat, q: int, r: int)
    requires n > 0 && a == q * n + r && 0 <= r < n
    ensures a / n == q && a % n == r
  {
    var d := a / n - q;
    assert d * n == r - a % n by {
      assert a == n * (a / n) + a % n;
      assert (a / n - q) * n == (a / n) * n - q * n;
    }
    MulBounds(d, n);
  }
}
