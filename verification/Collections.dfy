/** Counting in sets and sequences. */
module Collections {

  ghost predicate Distinct<T>(xs: seq<T>) {
    forall i, j :: 0 <= i < j < |xs| ==> xs[i] != xs[j]
  }

  ghost function Elements<T(!new)>(xs: seq<T>): (r: set<T>)
    ensures forall x :: x in r <==> x in xs
    ensures Distinct(xs) ==> |r| == |xs|
  {
    if xs == [] then {} else
      assert xs == xs[..|xs| - 1] + [xs[|xs| - 1]];
      Elements(xs[..|xs| - 1]) + {xs[|xs| - 1]}
  }

  lemma SubsetCount<T>(a: set<T>, b: set<T>)
    requires a <= b
    ensures |a| <= |b| && (|a| == |b| ==> a == b)
  {
    assert b == a + (b - a) && a !! b - a;
    assert |b| == |a| + |b - a|;
  }

  lemma LastMissing<T>(a: set<T>, x: T, b: set<T>)
    requires a <= b && x in b && x !in a && |a| + 1 == |b|
    ensures a + {x} == b
  {
    SubsetCount(a + {x}, b);
  }

  ghost function Positions<T>(xs: seq<T>, chosen: set<T>): set<int> {
    set i | 0 <= i < |xs| && xs[i] in chosen
  }

  lemma PositionsStep<T>(xs: seq<T>, x: T, chosen: set<T>)
    requires x !in xs
    ensures |Positions(xs + [x], chosen)| == |Positions(xs, chosen - {x})| + if x in chosen then 1 else 0
  {
    forall i | 0 <= i < |xs| ensures xs[i] in chosen <==> xs[i] in chosen - {x} {
      assert xs[i] in xs;
    }
    assert Positions(xs + [x], chosen) == Positions(xs, chosen - {x}) + if x in chosen then {|xs|} else {};
  }

  /** Of distinct elements, as many positions hold a chosen one as there are chosen ones. */
  lemma {:induction false} PositionsCount<T>(xs: seq<T>, chosen: set<T>)
    requires Distinct(xs) && forall x :: x in chosen ==> x in xs
    ensures |Positions(xs, chosen)| == |chosen|
  {
    if xs == [] {
      assert chosen == {} && Positions(xs, chosen) == {};
    } else {
      var shorter, x := xs[..|xs| - 1], xs[|xs| - 1];
      assert xs == shorter + [x];
      PositionsCount(shorter, chosen - {x});
      PositionsStep(shorter, x, chosen);
      assert x in chosen ==> |chosen - {x}| == |chosen| - 1;
      assert x !in chosen ==> chosen - {x} == chosen;
    }
  }

  lemma DistinctConcat<T>(a: seq<T>, b: seq<T>)
    requires Distinct(a) && Distinct(b) && forall x :: x in a ==> x !in b
    ensures Distinct(a + b)
  {
    forall i, j | 0 <= i < j < |a + b| ensures (a + b)[i] != (a + b)[j] {
      if i < |a| <= j { assert a[i] in a && b[j - |a|] in b; }
    }
  }

  /** What is drawn from distinct elements is distinct. */
  lemma MultisetDistinct<T>(xs: seq<T>, ys: seq<T>)
    requires multiset(xs) <= multiset(ys) && Distinct(ys)
    ensures Distinct(xs)
  {
    forall i, j | 0 <= i < j < |xs| ensures xs[i] != xs[j] {
      if xs[i] == xs[j] {
        CountTwice(xs, i, j);
        CountOnce(ys, xs[i]);
      }
    }
  }

  lemma CountTwice<T>(xs: seq<T>, i: nat, j: nat)
    requires i < j < |xs| && xs[i] == xs[j]
    ensures multiset(xs)[xs[i]] >= 2
  {
    assert xs == xs[..j] + [xs[j]] + xs[j + 1..];
    assert xs[..j][i] in multiset(xs[..j]);
  }

  lemma {:induction false} CountOnce<T>(ys: seq<T>, y: T)
    requires Distinct(ys)
    ensures multiset(ys)[y] <= 1
  {
    if ys != [] {
      var last := |ys| - 1;
      assert ys == ys[..last] + [ys[last]];
      CountOnce(ys[..last], y);
      if ys[last] == y { assert y !in ys[..last]; }
    }
  }
}
