/** The stable sort that the other modules use for Python's sorted, and the order of strings. */
module Sorting {

  ghost predicate TotalPreorder<T(!new)>(le: (T, T) -> bool) {
    && (forall a, b :: le(a, b) || le(b, a))
    && (forall a, b, c :: le(a, b) && le(b, c) ==> le(a, c))
  }

  ghost predicate SortedBy<T>(le: (T, T) -> bool, xs: seq<T>) {
    forall i, j :: 0 <= i < j < |xs| ==> le(xs[i], xs[j])
  }

  function Insert<T>(x: T, xs: seq<T>, le: (T, T) -> bool): seq<T> {
    if xs == [] then [x]
    else if le(x, xs[0]) then [x] + xs
    else [xs[0]] + Insert(x, xs[1..], le)
  }

  function Sort<T>(xs: seq<T>, le: (T, T) -> bool): seq<T> {
    if xs == [] then [] else Insert(xs[0], Sort(xs[1..], le), le)
  }

  function Filter<T>(xs: seq<T>, p: T -> bool): seq<T> {
    if xs == [] then [] else (if p(xs[0]) then [xs[0]] else []) + Filter(xs[1..], p)
  }

  lemma {:induction false} FilterAppend<T>(xs: seq<T>, x: T, p: T -> bool)
    ensures Filter(xs + [x], p) == Filter(xs, p) + (if p(x) then [x] else [])
  {
    if xs == [] {
      assert xs + [x] == [x] && [x][1..] == [];
    } else {
      assert (xs + [x])[1..] == xs[1..] + [x] && (xs + [x])[0] == xs[0];
      FilterAppend(xs[1..], x, p);
      var head, tail := if p(xs[0]) then [xs[0]] else [], if p(x) then [x] else [];
      assert head + (Filter(xs[1..], p) + tail) == head + Filter(xs[1..], p) + tail;
    }
  }

  lemma {:induction false} FilterConcat<T>(xs: seq<T>, ys: seq<T>, p: T -> bool)
    ensures Filter(xs + ys, p) == Filter(xs, p) + Filter(ys, p)
  {
    if xs == [] {
      assert xs + ys == ys;
    } else {
      assert (xs + ys)[1..] == xs[1..] + ys && (xs + ys)[0] == xs[0];
      FilterConcat(xs[1..], ys, p);
      var head := if p(xs[0]) then [xs[0]] else [];
      assert head + (Filter(xs[1..], p) + Filter(ys, p)) == head + Filter(xs[1..], p) + Filter(ys, p);
    }
  }

  lemma {:induction false} FilterNone<T>(xs: seq<T>, p: T -> bool)
    requires forall x :: x in xs ==> !p(x)
    ensures Filter(xs, p) == []
  {
    if xs != [] { FilterNone(xs[1..], p); }
  }

  lemma {:induction false} FilterAll<T>(xs: seq<T>, p: T -> bool)
    requires forall x :: x in xs ==> p(x)
    ensures Filter(xs, p) == xs
  {
    if xs != [] {
      FilterAll(xs[1..], p);
      assert xs == [xs[0]] + xs[1..];
    }
  }

  lemma FilterMiddle<T>(xs: seq<T>, ys: seq<T>, zs: seq<T>, p: T -> bool)
    requires forall x :: x in xs || x in zs ==> !p(x)
    requires forall y :: y in ys ==> p(y)
    ensures Filter(xs + ys + zs, p) == ys
  {
    FilterConcat(xs + ys, zs, p);
    FilterConcat(xs, ys, p);
    FilterNone(xs, p);
    FilterAll(ys, p);
    FilterNone(zs, p);
  }

  lemma {:induction false} FilterContents<T>(xs: seq<T>, p: T -> bool)
    ensures multiset(Filter(xs, p)) <= multiset(xs)
    ensures forall x :: x in Filter(xs, p) <==> x in xs && p(x)
  {
    if xs != [] {
      assert xs == [xs[0]] + xs[1..];
      FilterContents(xs[1..], p);
    }
  }

  lemma {:induction false} InsertContents<T>(x: T, xs: seq<T>, le: (T, T) -> bool)
    ensures multiset(Insert(x, xs, le)) == multiset{x} + multiset(xs)
  {
    if xs != [] {
      assert xs == [xs[0]] + xs[1..];
      if !le(x, xs[0]) { InsertContents(x, xs[1..], le); }
    }
  }

  lemma {:induction false} SortContents<T>(xs: seq<T>, le: (T, T) -> bool)
    ensures multiset(Sort(xs, le)) == multiset(xs) && |Sort(xs, le)| == |xs|
    ensures forall x :: x in Sort(xs, le) <==> x in xs
  {
    if xs != [] {
      assert xs == [xs[0]] + xs[1..];
      SortContents(xs[1..], le);
      InsertContents(xs[0], Sort(xs[1..], le), le);
    }
    assert |Sort(xs, le)| == |multiset(Sort(xs, le))| == |multiset(xs)|;
    assert forall x :: x in Sort(xs, le) <==> x in multiset(Sort(xs, le));
  }

  lemma {:induction false} InsertSorted<T(!new)>(x: T, xs: seq<T>, le: (T, T) -> bool)
    requires TotalPreorder(le) && SortedBy(le, xs)
    ensures SortedBy(le, Insert(x, xs, le))
  {
    if xs != [] && !le(x, xs[0]) {
      InsertSorted(x, xs[1..], le);
      InsertContents(x, xs[1..], le);
      var rest := Insert(x, xs[1..], le);
      forall j | 0 <= j < |rest| ensures le(xs[0], rest[j]) {
        assert rest[j] in multiset(rest);
        if rest[j] != x { assert rest[j] in xs[1..]; }
      }
    }
  }

  lemma {:induction false} SortSorted<T(!new)>(xs: seq<T>, le: (T, T) -> bool)
    requires TotalPreorder(le)
    ensures SortedBy(le, Sort(xs, le))
  {
    if xs != [] {
      SortSorted(xs[1..], le);
      InsertSorted(xs[0], Sort(xs[1..], le), le);
    }
  }

  /** Elements of which p holds only together keep their order. */
  lemma {:induction false} InsertStable<T(!new)>(x: T, xs: seq<T>, le: (T, T) -> bool, p: T -> bool)
    requires forall a, b :: p(a) && p(b) ==> le(a, b)
    ensures Filter(Insert(x, xs, le), p) == Filter([x] + xs, p)
  {
    assert ([x] + xs)[1..] == xs;
    if xs != [] && !le(x, xs[0]) {
      InsertStable(x, xs[1..], le, p);
      assert ([x] + xs[1..])[1..] == xs[1..];
      assert ([xs[0]] + Insert(x, xs[1..], le))[1..] == Insert(x, xs[1..], le);
    }
  }

  lemma {:induction false} SortStable<T(!new)>(xs: seq<T>, le: (T, T) -> bool, p: T -> bool)
    requires forall a, b :: p(a) && p(b) ==> le(a, b)
    ensures Filter(Sort(xs, le), p) == Filter(xs, p)
  {
    if xs != [] {
      SortStable(xs[1..], le, p);
      var rest := Sort(xs[1..], le);
      InsertStable(xs[0], rest, le, p);
      assert ([xs[0]] + rest)[1..] == rest;
    }
  }

  /** Python's order of strings. */
  predicate StringLe(a: string, b: string) {
    a == "" || (b != "" && (a[0] < b[0] || (a[0] == b[0] && StringLe(a[1..], b[1..]))))
  }

  /** At the first difference the smaller character decides, and a string comes before its extensions. */
  lemma {:induction false} StringLeIff(a: string, b: string)
    ensures StringLe(a, b) <==> a <= b || exists n: nat :: DiffersAt(a, b, n) && a[n] < b[n]
  {
    if a != "" && b != "" {
      var c, d := a[1..], b[1..];
      StringLeIff(c, d);
      assert a[0] == b[0] ==> (a <= b <==> c <= d) by {
        assert a == [a[0]] + c && b == [b[0]] + d;
      }
      if a[0] < b[0] { assert DiffersAt(a, b, 0); }
      if a[0] == b[0] {
        if n: nat :| DiffersAt(c, d, n) && c[n] < d[n] {
          assert a[..n + 1] == [a[0]] + c[..n] && b[..n + 1] == [b[0]] + d[..n];
          assert DiffersAt(a, b, n + 1);
        }
        if n: nat :| DiffersAt(a, b, n) && a[n] < b[n] {
          assert n > 0 && c[..n - 1] == a[..n][1..] && d[..n - 1] == b[..n][1..];
          assert DiffersAt(c, d, n - 1);
        }
      } else {
        forall n: nat | DiffersAt(a, b, n) ensures n == 0 {
          DiffersAtFirst(a, b, n);
        }
      }
    }
  }

  lemma DiffersAtFirst(a: string, b: string, n: nat)
    requires DiffersAt(a, b, n)
    ensures n > 0 ==> a[0] == b[0]
  {
    if n > 0 { assert a[..n][0] == a[0] && b[..n][0] == b[0]; }
  }

  /** The strings agree up to n, and both go on. */
  predicate DiffersAt(a: string, b: string, n: nat) {
    n < |a| && n < |b| && a[..n] == b[..n]
  }

  lemma {:induction false} StringLeTotal(a: string, b: string)
    ensures StringLe(a, b) || StringLe(b, a)
    ensures StringLe(a, b) && StringLe(b, a) ==> a == b
  {
    if a != "" && b != "" {
      StringLeTotal(a[1..], b[1..]);
      assert a == [a[0]] + a[1..] && b == [b[0]] + b[1..];
    }
  }

  lemma {:induction false} StringLeTransitive(a: string, b: string, c: string)
    requires StringLe(a, b) && StringLe(b, c)
    ensures StringLe(a, c)
  {
    if a != "" && a[0] == b[0] == c[0] { StringLeTransitive(a[1..], b[1..], c[1..]); }
  }
}
