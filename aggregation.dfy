/** The layer aggregators of neural governance: Python's `sum` and a
    `reduce` of multiplication without an initial value, plus any other
    reduction a configuration plugs in. */
module Aggregation {

  /** `sum(xs)`: a left fold of `+` starting from 0. */
  function Sum(xs: seq<real>): real
  {
    if xs == [] then 0.0 else Sum(xs[..|xs| - 1]) + xs[|xs| - 1]
  }

  /** `reduce(lambda x, y: x * y, xs)`: a left fold of `*` seeded with the first
      element, so it is undefined on an empty list. */
  function Product(xs: seq<real>): (r: real)
    requires |xs| > 0
  {
    if |xs| == 1 then xs[0] else Product(xs[..|xs| - 1]) * xs[|xs| - 1]
  }

  datatype Aggregator =
    | SumAggregator
    | ProductAggregator
    | CustomAggregator(reduce: seq<real> -> real)

  /** An aggregator is defined on the list: only the product refuses an empty one. */
  predicate Accepts(agg: Aggregator, xs: seq<real>)
  {
    agg.ProductAggregator? ==> |xs| > 0
  }

  function Aggregate(agg: Aggregator, xs: seq<real>): real
    requires Accepts(agg, xs)
  {
    match agg
    case SumAggregator => Sum(xs)
    case ProductAggregator => Product(xs)
    case CustomAggregator(f) => f(xs)
  }

  /** The closed forms the default layer configurations reduce to. */
  lemma SmallSums(a: real, b: real, c: real)
    ensures Sum([a]) == a
    ensures Sum([a, b]) == a + b
    ensures Sum([a, b, c]) == a + b + c
  {
    assert [a, b, c][..2] == [a, b];
    assert [a, b][..1] == [a];
    assert [a][..0] == [];
  }

  lemma SmallProducts(a: real, b: real)
    ensures Product([a]) == a
    ensures Product([a, b]) == a * b
  {
    assert [a, b][..1] == [a];
  }

  /** Summing a concatenation sums the two parts. */
  lemma {:induction false} SumConcat(a: seq<real>, b: seq<real>)
    ensures Sum(a + b) == Sum(a) + Sum(b)
    decreases |b|
  {
    if b == [] {
      assert a + b == a;
    } else {
      assert (a + b)[..|a + b| - 1] == a + b[..|b| - 1];
      SumConcat(a, b[..|b| - 1]);
    }
  }

  /** Non-negative terms give a non-negative sum. */
  lemma {:induction false} SumNonNegative(xs: seq<real>)
    requires forall i :: 0 <= i < |xs| ==> 0.0 <= xs[i]
    ensures 0.0 <= Sum(xs)
    decreases |xs|
  {
    if xs != [] {
      SumNonNegative(xs[..|xs| - 1]);
    }
  }

  /** Non-negative factors give a non-negative product. */
  lemma {:induction false} ProductNonNegative(xs: seq<real>)
    requires |xs| > 0
    requires forall i :: 0 <= i < |xs| ==> 0.0 <= xs[i]
    ensures 0.0 <= Product(xs)
    decreases |xs|
  {
    if |xs| > 1 {
      ProductNonNegative(xs[..|xs| - 1]);
      var p := Product(xs[..|xs| - 1]);
      var x := xs[|xs| - 1];
      assert 0.0 <= p && 0.0 <= x;
      assert 0.0 <= p * x;
    }
  }

  /** A zero factor anywhere makes the product zero. */
  lemma {:induction false} ProductWithZero(xs: seq<real>, k: nat)
    requires k < |xs| && xs[k] == 0.0
    ensures Product(xs) == 0.0
    decreases |xs|
  {
    if |xs| > 1 && k < |xs| - 1 {
      ProductWithZero(xs[..|xs| - 1], k);
    }
  }
}
