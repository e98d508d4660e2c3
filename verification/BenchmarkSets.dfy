/** The expansion of requested names into benchmarks: sets name benchmarks and other sets, cycles included. */
module BenchmarkSets {
  import opened Collections

  /** The members of each set; a name without an entry is a benchmark. */
  type SetTable = map<string, seq<string>>

  function Reverse(xs: seq<string>): (r: seq<string>)
    ensures forall x :: x in r <==> x in xs
  {
    if xs == [] then [] else Reverse(xs[1..]) + [xs[0]]
  }

  /** What a traversal has found, and every name it has seen. */
  datatype Traversal = Traversal(found: seq<string>, seen: set<string>)

  /** Depth-first traversal: a name that was seen before is skipped, a set is replaced by its members,
      last-listed first, and a benchmark is found. */
  function DepthFirst(table: SetTable, names: seq<string>, seen: set<string>): (r: Traversal)
    ensures seen <= r.seen
    decreases table.Keys - seen, |names|
  {
    if names == [] then Traversal([], seen)
    else
      var name, rest := names[0], names[1..];
      if name in seen then DepthFirst(table, rest, seen)
      else
        assert table.Keys - (seen + {name}) <= table.Keys - seen;
        var first :=
          if name in table then
            assert name in table.Keys - seen;
            DepthFirst(table, Reverse(table[name]), seen + {name})
          else Traversal([name], seen + {name});
        assert table.Keys - first.seen <= table.Keys - seen;
        var second := DepthFirst(table, rest, first.seen);
        Traversal(first.found + second.found, second.seen)
  }

  /** extendleft: the elements are pushed one by one onto the left end. */
  function ExtendLeft(queue: seq<string>, xs: seq<string>): seq<string>
    decreases |xs|
  {
    if xs == [] then queue else ExtendLeft([xs[0]] + queue, xs[1..])
  }

  lemma {:induction false} ExtendLeftReverses(queue: seq<string>, xs: seq<string>)
    ensures ExtendLeft(queue, xs) == Reverse(xs) + queue
    decreases |xs|
  {
    if xs == [] {
      assert Reverse(xs) + queue == queue;
    } else {
      ExtendLeftReverses([xs[0]] + queue, xs[1..]);
      assert Reverse(xs[1..]) + ([xs[0]] + queue) == Reverse(xs[1..]) + [xs[0]] + queue;
    }
  }

  lemma {:induction false} DepthFirstAppend(table: SetTable, a: seq<string>, b: seq<string>, seen: set<string>)
    ensures var first := DepthFirst(table, a, seen);
      var second := DepthFirst(table, b, first.seen);
      DepthFirst(table, a + b, seen) == Traversal(first.found + second.found, second.seen)
    decreases table.Keys - seen, |a|
  {
    if a == [] {
      assert a + b == b;
      var second := DepthFirst(table, b, seen);
      assert [] + second.found == second.found;
    } else {
      var name := a[0];
      assert (a + b)[1..] == a[1..] + b;
      if name in seen {
        DepthFirstAppend(table, a[1..], b, seen);
      } else {
        var head := if name in table then DepthFirst(table, Reverse(table[name]), seen + {name})
                    else Traversal([name], seen + {name});
        assert table.Keys - head.seen <= table.Keys - seen;
        DepthFirstAppend(table, a[1..], b, head.seen);
        var rest := DepthFirst(table, a[1..], head.seen);
        var second := DepthFirst(table, b, rest.seen);
        assert head.found + (rest.found + second.found) == head.found + rest.found + second.found;
      }
    }
  }

  /** The worklist loop finds what the depth-first traversal finds, in the same order, for every table. */
  method ExpandBenchmarks(table: SetTable, requested: seq<string>) returns (benchmarkNames: seq<string>)
    ensures benchmarkNames == DepthFirst(table, requested, {}).found
  {
    var benchmarkQueue := requested;
    benchmarkNames := [];
    var benchmarkSet: set<string> := {};
    while benchmarkQueue != []
      invariant var rest := DepthFirst(table, benchmarkQueue, benchmarkSet);
        DepthFirst(table, requested, {}).found == benchmarkNames + rest.found
      decreases table.Keys - benchmarkSet, |benchmarkQueue|
    {
      var benchmark := benchmarkQueue[0];
      ghost var queue, seen := benchmarkQueue, benchmarkSet;
      benchmarkQueue := benchmarkQueue[1..];
      if benchmark in benchmarkSet {
        continue;
      }
      benchmarkSet := benchmarkSet + {benchmark};
      assert table.Keys - benchmarkSet <= table.Keys - seen;
      if benchmark in table {
        assert benchmark in table.Keys - seen;
        ExtendLeftReverses(benchmarkQueue, table[benchmark]);
        DepthFirstAppend(table, Reverse(table[benchmark]), benchmarkQueue, benchmarkSet);
        benchmarkQueue := ExtendLeft(benchmarkQueue, table[benchmark]);
      } else {
        var rest := DepthFirst(table, benchmarkQueue, benchmarkSet);
        assert benchmarkNames + ([benchmark] + rest.found) == benchmarkNames + [benchmark] + rest.found;
        benchmarkNames := benchmarkNames + [benchmark];
      }
    }
    assert benchmarkNames + [] == benchmarkNames;
  }

  // ---------------------------------------------------------------------------------------------
  // The order

  /** The last-listed member comes first. */
  lemma {:induction false} ReverseAt(xs: seq<string>, i: nat)
    requires i < |xs|
    ensures |Reverse(xs)| == |xs| && Reverse(xs)[i] == xs[|xs| - 1 - i]
  {
    if |xs| > 1 {
      ReverseAt(xs[1..], if i < |xs| - 1 then i else 0);
    }
  }

  lemma ReverseConcat(a: seq<string>, b: seq<string>)
    ensures |Reverse(a)| == |a| && Reverse(a + b) == Reverse(b) + Reverse(a)
  {
    if a != [] { ReverseAt(a, 0); }
    if b != [] { ReverseAt(b, 0); }
    if a + b != [] { ReverseAt(a + b, 0); }
    forall i | 0 <= i < |a + b| ensures Reverse(a + b)[i] == (Reverse(b) + Reverse(a))[i] {
      ReverseAt(a + b, i);
      if i < |b| { ReverseAt(b, i); } else { ReverseAt(a, i - |b|); }
    }
  }

  /** What is found under a set's members from number k on, in the order in which it is found.  seen is what was seen
      before the set. */
  ghost predicate FoundUnder(table: SetTable, s: string, seen: set<string>, k: nat, t: Traversal)
    requires s in table && k <= |table[s]|
    decreases |table[s]| - k
  {
    if k == |table[s]| then t == Traversal([], seen + {s})
    else exists later: Traversal ::
      && FoundUnder(table, s, seen, k + 1, later)
      && var own := DepthFirst(table, [table[s][k]], later.seen);
      t == Traversal(later.found + own.found, own.seen)
  }

  lemma {:induction false} MembersFound(table: SetTable, s: string, seen: set<string>, k: nat)
    requires s in table && k <= |table[s]|
    ensures FoundUnder(table, s, seen, k, DepthFirst(table, Reverse(table[s][k..]), seen + {s}))
    decreases |table[s]| - k
  {
    var m := table[s];
    if k < |m| {
      MembersFound(table, s, seen, k + 1);
      assert m[k..] == [m[k]] + m[k + 1..];
      ReverseConcat([m[k]], m[k + 1..]);
      assert Reverse([m[k]]) == [m[k]] by { ReverseAt([m[k]], 0); }
      DepthFirstAppend(table, Reverse(m[k + 1..]), [m[k]], seen + {s});
    }
  }

  /** A set that was not seen stands for its members, the last-listed first: what is found under a member comes after
      all that is found under the members listed after it, and whatever those have seen is not found again. */
  lemma LaterMembersFirst(table: SetTable, s: string, seen: set<string>)
    requires s in table && s !in seen
    ensures FoundUnder(table, s, seen, 0, DepthFirst(table, [s], seen))
  {
    MembersFound(table, s, seen, 0);
    assert table[s][0..] == table[s] && [s][1..] == [];
    var first := DepthFirst(table, Reverse(table[s]), seen + {s});
    assert first.found + [] == first.found;
    assert DepthFirst(table, [], first.seen) == Traversal([], first.seen);
    assert DepthFirst(table, [s], seen) == first;
  }

  lemma NewBenchmark(table: SetTable, names: seq<string>, seen: set<string>)
    requires names != [] && names[0] !in table && names[0] !in seen
    ensures DepthFirst(table, names, seen).found
         == [names[0]] + DepthFirst(table, names[1..], seen + {names[0]}).found
  {
  }

  lemma {:induction false} NewBenchmarks(table: SetTable, names: seq<string>, seen: set<string>)
    requires Distinct(names) && forall x :: x in names ==> x !in table && x !in seen
    ensures DepthFirst(table, names, seen).found == names
    decreases |names|
  {
    if names != [] {
      var rest := names[1..];
      forall x | x in rest ensures x in names && x != names[0] {
        var i :| 0 <= i < |rest| && rest[i] == x;
        assert names[i + 1] == x;
      }
      NewBenchmark(table, names, seen);
      NewBenchmarks(table, rest, seen + {names[0]});
      assert names == [names[0]] + rest;
    }
  }

  /** Of a set of new benchmarks the last-listed one is found first, and so on. */
  lemma BenchmarksOfSet(table: SetTable, s: string, seen: set<string>, i: nat)
    requires s in table && s !in seen && Distinct(table[s]) && i < |table[s]|
    requires forall x :: x in table[s] ==> x !in table && x !in seen + {s}
    ensures var found := DepthFirst(table, [s], seen).found;
      |found| == |table[s]| && found[i] == table[s][|table[s]| - 1 - i]
  {
    var m := table[s];
    ReverseAt(m, i);
    forall j, k | 0 <= j < k < |m| ensures Reverse(m)[j] != Reverse(m)[k] {
      ReverseAt(m, j);
      ReverseAt(m, k);
    }
    NewBenchmarks(table, Reverse(m), seen + {s});
    assert [s][1..] == [];
  }

  // ---------------------------------------------------------------------------------------------
  // What is found

  ghost predicate IsMember(table: SetTable, s: string, name: string) {
    s in table && name in table[s]
  }

  /** A chain of names from a requested one, each a member of the set before it. */
  ghost predicate IsChain(table: SetTable, requested: seq<string>, chain: seq<string>) {
    && chain != [] && chain[0] in requested
    && forall i :: 0 <= i < |chain| - 1 ==> IsMember(table, chain[i], chain[i + 1])
  }

  ghost predicate Reachable(table: SetTable, requested: seq<string>, name: string) {
    exists chain :: IsChain(table, requested, chain) && chain[|chain| - 1] == name
  }

  lemma MembersReachable(table: SetTable, requested: seq<string>, s: string, name: string)
    requires Reachable(table, requested, s) && IsMember(table, s, name)
    ensures Reachable(table, requested, name)
  {
    var chain :| IsChain(table, requested, chain) && chain[|chain| - 1] == s;
    var longer := chain + [name];
    assert forall i :: 0 <= i < |chain| ==> longer[i] == chain[i];
    assert IsChain(table, requested, longer) && longer[|longer| - 1] == name;
  }

  /** A traversal finds each newly seen benchmark once, sees all the names it was given, and sees the members
      of every newly seen set. */
  lemma {:induction false} DepthFirstFindsNew(table: SetTable, names: seq<string>, seen: set<string>)
    ensures var r := DepthFirst(table, names, seen);
      && Distinct(r.found)
      && (forall x :: x in r.found <==> x in r.seen && x !in seen && x !in table)
      && (forall x :: x in names ==> x in r.seen)
      && (forall x, y :: x in r.seen && x !in seen && IsMember(table, x, y) ==> y in r.seen)
    decreases table.Keys - seen, |names|
  {
    if names != [] {
      var name, rest := names[0], names[1..];
      assert forall x :: x in names <==> x == name || x in rest;
      if name in seen {
        DepthFirstFindsNew(table, rest, seen);
      } else {
        var first := if name in table then DepthFirst(table, Reverse(table[name]), seen + {name})
                     else Traversal([name], seen + {name});
        if name in table {
          assert name in table.Keys - seen;
          DepthFirstFindsNew(table, Reverse(table[name]), seen + {name});
        }
        assert table.Keys - first.seen <= table.Keys - seen;
        DepthFirstFindsNew(table, rest, first.seen);
        var second := DepthFirst(table, rest, first.seen);
        DistinctConcat(first.found, second.found);
      }
    }
  }

  /** Nothing is seen that cannot be reached. */
  lemma {:induction false} SeenIsReachable(
      table: SetTable, requested: seq<string>, names: seq<string>, seen: set<string>)
    requires forall x :: x in names || x in seen ==> Reachable(table, requested, x)
    ensures forall x :: x in DepthFirst(table, names, seen).seen ==> Reachable(table, requested, x)
    decreases table.Keys - seen, |names|
  {
    if names != [] {
      var name, rest := names[0], names[1..];
      assert forall x :: x in rest ==> x in names;
      if name in seen {
        SeenIsReachable(table, requested, rest, seen);
      } else {
        var first := if name in table then DepthFirst(table, Reverse(table[name]), seen + {name})
                     else Traversal([name], seen + {name});
        if name in table {
          assert name in table.Keys - seen;
          forall x | x in Reverse(table[name]) ensures Reachable(table, requested, x) {
            MembersReachable(table, requested, name, x);
          }
          SeenIsReachable(table, requested, Reverse(table[name]), seen + {name});
        }
        assert table.Keys - first.seen <= table.Keys - seen;
        SeenIsReachable(table, requested, rest, first.seen);
      }
    }
  }

  lemma {:induction false} ChainIsSeen(table: SetTable, requested: seq<string>, chain: seq<string>, seen: set<string>)
    requires IsChain(table, requested, chain)
    requires forall x :: x in requested ==> x in seen
    requires forall x, y :: x in seen && IsMember(table, x, y) ==> y in seen
    ensures chain[|chain| - 1] in seen
  {
    if |chain| > 1 {
      ChainIsSeen(table, requested, chain[..|chain| - 1], seen);
      assert IsMember(table, chain[|chain| - 2], chain[|chain| - 2 + 1]);
    }
  }

  /** The benchmarks found are exactly the reachable names that are not sets, each once. */
  lemma FoundExactlyReachable(table: SetTable, requested: seq<string>)
    ensures var found := DepthFirst(table, requested, {}).found;
      Distinct(found) && forall x :: x in found <==> x !in table && Reachable(table, requested, x)
  {
    var r := DepthFirst(table, requested, {});
    DepthFirstFindsNew(table, requested, {});
    forall x | x in requested ensures Reachable(table, requested, x) {
      assert IsChain(table, requested, [x]);
    }
    SeenIsReachable(table, requested, requested, {});
    forall x | Reachable(table, requested, x) ensures x in r.seen {
      var chain :| IsChain(table, requested, chain) && chain[|chain| - 1] == x;
      ChainIsSeen(table, requested, chain, r.seen);
    }
  }
}
