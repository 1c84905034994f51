/**
  The order in which pf_ul serves UEs with new data: the proportional-fair coefficient with the
  policy's factors, and qsort's comparison. Coefficients are real numbers.
 */
module PfUlOrder {

  datatype Cand = Cand(ue: nat, coef: real, inactive: bool)

  /** comparator */
  function Compare(p: Cand, q: Cand): int {
    if p.inactive && q.inactive then 0
    else if p.inactive then -1
    else if q.inactive then 1
    else if p.coef < q.coef then 1
    else if p.coef > q.coef then -1
    else 0
  }

  /** What qsort needs: a total preorder. */
  lemma ComparePreorder(p: Cand, q: Cand, r: Cand)
    ensures Compare(p, p) == 0
    ensures Compare(p, q) == 0 - Compare(q, p)
    ensures Compare(p, q) <= 0 && Compare(q, r) <= 0 ==> Compare(p, r) <= 0
    ensures Compare(p, q) <= 0 && Compare(q, r) <= 0 && Compare(p, r) == 0 ==> Compare(p, q) == 0 && Compare(q, r) == 0
  {
  }

  ghost predicate Sorted(s: seq<Cand>) {
    forall i, j :: 0 <= i < j < |s| ==> Compare(s[i], s[j]) <= 0
  }

  ghost predicate Ordering(s: seq<Cand>, t: seq<Cand>) {
    Sorted(t) && multiset(t) == multiset(s)
  }

  lemma SortedCons(x: Cand, s: seq<Cand>)
    requires Sorted(s) && forall y <- s :: Compare(x, y) <= 0
    ensures Sorted([x] + s)
  {
  }

  /** What is inserted behind the head stays behind it. */
  lemma HeadFirst(x: Cand, s: seq<Cand>, rest: seq<Cand>)
    requires Sorted(s) && s != [] && Compare(s[0], x) <= 0 && multiset(rest) == multiset(s[1..]) + multiset{x}
    ensures forall y <- rest :: Compare(s[0], y) <= 0
    ensures multiset([s[0]] + rest) == multiset(s) + multiset{x}
  {
    assert s == [s[0]] + s[1..];
    hide Compare;
    forall y <- rest
      ensures Compare(s[0], y) <= 0
    {
      assert y in multiset(s[1..]) + multiset{x};
      assert y in s[1..] || y == x;
    }
  }

  lemma SmallestFirst(x: Cand, s: seq<Cand>)
    requires Sorted(s) && (s == [] || Compare(x, s[0]) <= 0)
    ensures Sorted([x] + s) && multiset([x] + s) == multiset(s) + multiset{x}
  {
    forall i | 0 <= i < |s|
      ensures Compare(x, s[i]) <= 0
    {
      ComparePreorder(x, s[0], s[i]);
    }
    SortedCons(x, s);
  }

  function Insert(x: Cand, s: seq<Cand>): (t: seq<Cand>)
    requires Sorted(s)
    ensures Sorted(t) && multiset(t) == multiset(s) + multiset{x}
  {
    hide Sorted, Compare;
    if s == [] || Compare(x, s[0]) <= 0 then
      SmallestFirst(x, s);
      [x] + s
    else
      SortedTail(x, s);
      var rest := Insert(x, s[1..]);
      HeadFirst(x, s, rest);
      SortedCons(s[0], rest);
      [s[0]] + rest
  }

  lemma SortedTail(x: Cand, s: seq<Cand>)
    requires Sorted(s) && s != [] && Compare(x, s[0]) > 0
    ensures Sorted(s[1..]) && Compare(s[0], x) <= 0
  {
    ComparePreorder(x, s[0], s[0]);
  }

  /** qsort; callers rely on its contract only. */
  function Qsort(s: seq<Cand>): (t: seq<Cand>)
    ensures Ordering(s, t)
  {
    if s == [] then []
    else
      assert s == [s[0]] + s[1..];
      Insert(s[0], Qsort(s[1..]))
  }

  /** The order in plain words: inactive UEs first, then by descending coefficient. */
  lemma SortedMeans(s: seq<Cand>)
    ensures Sorted(s) <==>
            forall i, j :: 0 <= i < j < |s| ==>
              (s[j].inactive ==> s[i].inactive) && (s[i].inactive || s[j].inactive || s[i].coef >= s[j].coef)
  {
    if Sorted(s) {
      forall i, j | 0 <= i < j < |s|
        ensures (s[j].inactive ==> s[i].inactive) && (s[i].inactive || s[j].inactive || s[i].coef >= s[j].coef)
      {
        assert Compare(s[i], s[j]) <= 0;
      }
    }
  }

  /** The factors of a coefficient; a throttled UE has coefficient 0. */
  datatype Factors = Factors(rate: real, weight: real, burst: real, mul: real, throttled: bool) {
    predicate Positive() {
      rate > 0.0 && weight > 0.0 && burst > 0.0 && mul > 0.0
    }
  }

  function Coefficient(f: Factors): real {
    if f.throttled then 0.0 else f.rate * f.weight * f.burst * f.mul
  }

  lemma ProductPositive(a: real, b: real)
    requires a > 0.0 && b > 0.0
    ensures a * b > 0.0
  {
  }

  lemma CoefficientPositive(f: Factors)
    requires f.Positive()
    ensures Coefficient(f) >= 0.0 && (Coefficient(f) == 0.0 <==> f.throttled)
  {
    ProductPositive(f.rate, f.weight);
    ProductPositive(f.rate * f.weight, f.burst);
    ProductPositive(f.rate * f.weight * f.burst, f.mul);
  }

  /** Each factor scales the coefficient, and alone it is the coefficient: it is their product. */
  lemma CoefficientScales(f: Factors, k: real)
    ensures !f.throttled ==>
              && Coefficient(Factors(k, 1.0, 1.0, 1.0, false)) == k
              && Coefficient(f.(rate := k * f.rate)) == k * Coefficient(f)
              && Coefficient(f.(weight := k * f.weight)) == k * Coefficient(f)
              && Coefficient(f.(burst := k * f.burst)) == k * Coefficient(f)
              && Coefficient(f.(mul := k * f.mul)) == k * Coefficient(f)
  {
    Reorder(k, f.rate, f.weight, f.burst, f.mul);
  }

  lemma Reorder(k: real, a: real, b: real, c: real, d: real)
    ensures (k * a) * b * c * d == k * (a * b * c * d)
    ensures a * (k * b) * c * d == k * (a * b * c * d)
    ensures a * b * (k * c) * d == k * (a * b * c * d)
    ensures a * b * c * (k * d) == k * (a * b * c * d)
  {
  }

  /** With positive factors, throttled active UEs come after all unthrottled ones. */
  lemma ThrottledLast(s: seq<Cand>, f: seq<Factors>, i: nat, j: nat)
    requires Sorted(s) && |f| == |s| && i < j < |s|
    requires f[i].Positive() && f[j].Positive() && s[i].coef == Coefficient(f[i]) && s[j].coef == Coefficient(f[j])
    requires !s[i].inactive && f[i].throttled
    ensures !s[j].inactive && f[j].throttled
  {
    SortedMeans(s);
    CoefficientPositive(f[i]);
    CoefficientPositive(f[j]);
  }
}
