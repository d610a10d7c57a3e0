/** Generic facts about sequences used by the trade analytics: duplicate-free
    sequences, first-appearance order, sums and means of reals. */
module Sequences {

  function Min(a: int, b: int): int
  {
    if a <= b then a else b
  }

  /** No element occurs twice. */
  predicate Distinct<T(==)>(xs: seq<T>)
  {
    forall i, j :: 0 <= i < j < |xs| ==> xs[i] != xs[j]
  }

  /** The set of the elements of `xs`. */
  function Elements<T>(xs: seq<T>): set<T>
  {
    set x | x in xs
  }

  /** A duplicate-free sequence has as many elements as its set. */
  lemma {:induction false} DistinctCardinality<T>(xs: seq<T>)
    requires Distinct(xs)
    ensures |Elements(xs)| == |xs|
  {
    if xs != [] {
      var p := xs[..|xs| - 1];
      var y := xs[|xs| - 1];
      assert Distinct(p);
      DistinctCardinality(p);
      assert y !in Elements(p);
      assert Elements(xs) == Elements(p) + {y} by {
        assert xs == p + [y];
      }
    }
  }

  /** Distinctness is "every multiplicity is at most one". */
  lemma {:induction false} DistinctMultiplicity<T>(xs: seq<T>)
    ensures Distinct(xs) <==> forall x :: multiset(xs)[x] <= 1
  {
    if xs != [] {
      var p := xs[..|xs| - 1];
      var y := xs[|xs| - 1];
      assert xs == p + [y];
      DistinctMultiplicity(p);
      forall x ensures multiset(xs)[x] == multiset(p)[x] + (if x == y then 1 else 0) { }
      if Distinct(xs) {
        assert Distinct(p);
        assert y !in p;
      }
      if forall x :: multiset(xs)[x] <= 1 {
        assert multiset(p)[y] == 0;
        assert Distinct(xs);
      }
    }
  }

  /** A permutation of a duplicate-free sequence is duplicate-free. */
  lemma DistinctPermutation<T>(xs: seq<T>, ys: seq<T>)
    requires Distinct(xs) && multiset(xs) == multiset(ys)
    ensures Distinct(ys)
  {
    DistinctMultiplicity(xs);
    DistinctMultiplicity(ys);
  }

  /** The elements of `xs` in order of their first appearance, each once:
      what the keys of an insertion-ordered dictionary are after inserting
      `xs` one by one. */
  function FirstSeen<T(==)>(xs: seq<T>): seq<T>
  {
    if xs == [] then []
    else
      var seen := FirstSeen(xs[..|xs| - 1]);
      if xs[|xs| - 1] in seen then seen else seen + [xs[|xs| - 1]]
  }

  /** The position of the first occurrence of `x` in `xs`. */
  function FirstIndex<T(==)>(xs: seq<T>, x: T): (i: nat)
    requires x in xs
    ensures i < |xs| && xs[i] == x && x !in xs[..i]
  {
    var p := xs[..|xs| - 1];
    if x in p then FirstIndex(p, x) else |xs| - 1
  }

  /** `FirstSeen(xs)` lists every element of `xs` exactly once, ordered by
      the position of its first occurrence in `xs`. */
  lemma {:induction false} FirstSeenSpec<T>(xs: seq<T>)
    ensures Distinct(FirstSeen(xs))
    ensures forall x :: x in FirstSeen(xs) <==> x in xs
    ensures forall i, j :: 0 <= i < j < |FirstSeen(xs)| ==>
              FirstIndex(xs, FirstSeen(xs)[i]) < FirstIndex(xs, FirstSeen(xs)[j])
  {
    if xs != [] {
      var p := xs[..|xs| - 1];
      var y := xs[|xs| - 1];
      assert xs == p + [y];
      FirstSeenSpec(p);
      var seen := FirstSeen(p);
      forall x | x in p ensures FirstIndex(xs, x) == FirstIndex(p, x) { }
      if y !in seen {
        var k := FirstSeen(xs);
        assert k == seen + [y];
        assert FirstIndex(xs, y) == |xs| - 1;
        forall i | 0 <= i < |seen| ensures FirstIndex(xs, k[i]) < |xs| - 1 {
          assert k[i] == seen[i] && seen[i] in seen;
        }
      }
    }
  }

  function Sum(xs: seq<real>): real
  {
    if xs == [] then 0.0 else Sum(xs[..|xs| - 1]) + xs[|xs| - 1]
  }

  lemma SumSnoc(xs: seq<real>, x: real)
    ensures Sum(xs + [x]) == Sum(xs) + x
  {
    assert (xs + [x])[..|xs|] == xs;
  }

  /** Every boolean is either true or false. */
  lemma {:induction false} BoolCounts(bs: seq<bool>)
    ensures multiset(bs)[true] + multiset(bs)[false] == |bs|
  {
    if bs != [] {
      var p := bs[..|bs| - 1];
      var b := bs[|bs| - 1];
      BoolCounts(p);
      assert bs == p + [b];
      assert multiset(bs) == multiset(p) + multiset{b};
      if b {
        assert multiset(bs)[true] == multiset(p)[true] + 1;
        assert multiset(bs)[false] == multiset(p)[false];
      } else {
        assert multiset(bs)[false] == multiset(p)[false] + 1;
        assert multiset(bs)[true] == multiset(p)[true];
      }
    }
  }

  /** A sum of values between `lo` and `hi` lies between n*lo and n*hi. */
  lemma {:induction false} SumBounds(xs: seq<real>, lo: real, hi: real)
    requires forall i :: 0 <= i < |xs| ==> lo <= xs[i] <= hi
    ensures (|xs| as real) * lo <= Sum(xs) <= (|xs| as real) * hi
  {
    if xs != [] {
      SumBounds(xs[..|xs| - 1], lo, hi);
    }
  }

  /** A sum of non-negative values is non-negative, and a non-empty sum of
      positive values is positive. */
  lemma {:induction false} SumSign(xs: seq<real>)
    ensures (forall i :: 0 <= i < |xs| ==> xs[i] >= 0.0) ==> Sum(xs) >= 0.0
    ensures xs != [] && (forall i :: 0 <= i < |xs| ==> xs[i] > 0.0) ==> Sum(xs) > 0.0
  {
    if xs != [] {
      SumSign(xs[..|xs| - 1]);
    }
  }

  /** The arithmetic mean, 0 for the empty list. */
  function Mean(xs: seq<real>): (m: real)
    ensures xs == [] ==> m == 0.0
    ensures (forall i :: 0 <= i < |xs| ==> xs[i] >= 0.0) ==> m >= 0.0
    ensures xs != [] && (forall i :: 0 <= i < |xs| ==> xs[i] > 0.0) ==> m > 0.0
  {
    if xs == [] then 0.0
    else
      SumSign(xs);
      Sum(xs) / (|xs| as real)
  }

  /** The mean of a non-empty list lies between its lower and upper bounds. */
  lemma MeanBounds(xs: seq<real>, lo: real, hi: real)
    requires xs != []
    requires forall i :: 0 <= i < |xs| ==> lo <= xs[i] <= hi
    ensures lo <= Mean(xs) <= hi
  {
    SumBounds(xs, lo, hi);
    DivisionBounds(Sum(xs), |xs| as real, lo, hi);
  }

  /** Facts about a fraction `a / n` of whole numbers with `a <= n`. */
  lemma Fraction(a: nat, n: nat)
    requires 0 < n && a <= n
    ensures 0.0 <= (a as real) / (n as real) <= 1.0
    ensures ((a as real) / (n as real)) * (n as real) == a as real
    ensures (a as real) / (n as real) == 0.0 <==> a == 0
    ensures (a as real) / (n as real) == 1.0 <==> a == n
  {
    DivisionBounds(a as real, n as real, 0.0, 1.0);
  }

  lemma DivisionBounds(s: real, n: real, lo: real, hi: real)
    requires n > 0.0 && n * lo <= s <= n * hi
    ensures lo <= s / n <= hi
  {
  }

  function Repeat<T>(x: T, n: nat): (r: seq<T>)
    ensures |r| == n
  {
    seq(n, _ => x)
  }

  lemma {:induction false} RepeatMultiset<T>(x: T, n: nat)
    ensures multiset(Repeat(x, n)) == multiset{}[x := n]
  {
    if n > 0 {
      RepeatMultiset(x, n - 1);
      assert Repeat(x, n) == Repeat(x, n - 1) + [x];
    }
  }
}
