/**
 Lists of integers that are stored as single integers and ranges.  Positions are looked up without
 expanding the ranges; the expansion is the reference.
 */
module IntegerLists {
  import opened Arithmetic
  import opened Wrappers

  /** A group of the list: an integer, a (low, high) pair or a (low, high, step) triple. */
  datatype Group = Single(value: int) | Range(low: int, high: int) | SteppedRange(low: int, high: int, step: int)
  {
    function Step(): int {
      if SteppedRange? then step else 1
    }

    predicate Valid() {
      Step() != 0
    }

    /** The first integer that the group names, whether or not the group has elements. */
    function First(): int {
      if Single? then value else low
    }

    function Last(): int {
      if Single? then value else high
    }

    /** The exclusive end of the range object that the group stands for. */
    function Stop(): int
      requires !Single?
    {
      high + if Step() > 0 then 1 else -1
    }

    function Length(): nat
      requires Valid()
    {
      if Single? then 1 else RangeLength(low, Stop(), Step())
    }

    function Elements(): seq<int>
      requires Valid()
    {
      if Single? then [value] else RangeElements(low, Stop(), Step())
    }

    predicate IsEmpty()
      requires Valid()
    {
      Length() == 0
    }
  }

  predicate AllValid(groups: seq<Group>) {
    forall g :: g in groups ==> g.Valid()
  }

  /** The length of a Python range, by arithmetic. */
  function RangeLength(start: int, stop: int, step: int): nat
    requires step != 0
  {
    if step > 0 && start < stop then (stop - start - 1) / step + 1
    else if step < 0 && stop < start then (start - stop - 1) / -step + 1
    else 0
  }

  /** The elements of a Python range, by stepping through it. */
  function RangeElements(start: int, stop: int, step: int): seq<int>
    requires step != 0
    decreases if step > 0 then stop - start else start - stop
  {
    if More(start, stop, step) then [start] + RangeElements(start + step, stop, step)
    else []
  }

  function Expand(groups: seq<Group>): seq<int>
    requires AllValid(groups)
  {
    if groups == [] then [] else groups[0].Elements() + Expand(groups[1..])
  }

  predicate More(start: int, stop: int, step: int) {
    (step > 0 && start < stop) || (step < 0 && stop < start)
  }

  lemma LengthStep(start: int, stop: int, step: int)
    requires More(start, stop, step)
    ensures RangeLength(start, stop, step) == 1 + RangeLength(start + step, stop, step)
  {
    var a, b := if step > 0 then stop - start - 1 else start - stop - 1, if step > 0 then step else -step;
    DivStep(a, b);
    if a < b { DivUnique(a, b, 0, a); }
  }

  lemma {:induction false} RangeAgrees(start: int, stop: int, step: int)
    requires step != 0
    ensures |RangeElements(start, stop, step)| == RangeLength(start, stop, step)
    ensures forall i :: 0 <= i < |RangeElements(start, stop, step)| ==>
      RangeElements(start, stop, step)[i] == start + i * step
    decreases if step > 0 then stop - start else start - stop
  {
    if More(start, stop, step) {
      RangeAgrees(start + step, stop, step);
      LengthStep(start, stop, step);
      forall i | 0 <= i < |RangeElements(start, stop, step)|
        ensures RangeElements(start, stop, step)[i] == start + i * step
      {
        if i > 0 { ElementStep(start, stop, step, i); }
      }
    }
  }

  lemma ElementStep(start: int, stop: int, step: int, i: nat)
    requires More(start, stop, step) && 0 < i < |RangeElements(start, stop, step)|
    requires RangeElements(start + step, stop, step)[i - 1] == start + step + (i - 1) * step
    ensures RangeElements(start, stop, step)[i] == start + i * step
  {
    assert step + (i - 1) * step == i * step;
  }

  lemma GroupAgrees(g: Group)
    requires g.Valid()
    ensures |g.Elements()| == g.Length()
    ensures forall i :: 0 <= i < g.Length() ==> g.Elements()[i] == g.First() + i * g.Step()
  {
    if !g.Single? { RangeAgrees(g.low, g.Stop(), g.Step()); }
  }

  lemma {:induction false} InRangeIff(start: int, stop: int, step: int, x: int)
    requires step != 0
    ensures x in RangeElements(start, stop, step) <==>
      if step > 0 then start <= x < stop && (x - start) % step == 0
      else stop < x <= start && (start - x) % -step == 0
    decreases if step > 0 then stop - start else start - stop
  {
    if More(start, stop, step) {
      InRangeIff(start + step, stop, step, x);
      var a, b := if step > 0 then x - start else start - x, if step > 0 then step else -step;
      RemainderStep(a, b);
      if 0 < a < b { SmallRemainder(a, b); }
    }
  }

  /** A range holds exactly the integers from its lower to its upper bound, both included, that are a multiple of the
      step away from the first; a descending one those from its upper bound up. */
  lemma ElementsIff(g: Group, x: int)
    requires g.Valid()
    ensures x in g.Elements() <==>
      if g.Single? then x == g.value
      else if g.Step() > 0 then g.low <= x <= g.high && (x - g.low) % g.Step() == 0
      else g.high <= x <= g.low && (g.low - x) % -g.Step() == 0
  {
    if !g.Single? { InRangeIff(g.low, g.Stop(), g.Step(), x); }
  }

  /** They come from the low bound on, step by step. */
  lemma ElementAt(g: Group, i: nat)
    requires g.Valid() && i < |g.Elements()|
    ensures g.Elements()[i] == match g
      case Single(value) => value
      case Range(low, _) => low + i
      case SteppedRange(low, _, step) => low + i * step
  {
    GroupAgrees(g);
  }

  datatype IntegerList = IntegerList(groups: seq<Group>, length: nat)
  {
    ghost predicate Valid() {
      AllValid(groups) && length == |Expand(groups)|
    }
  }

  lemma ExpandAppend(a: seq<Group>, b: seq<Group>)
    requires AllValid(a) && AllValid(b)
    ensures AllValid(a + b) && Expand(a + b) == Expand(a) + Expand(b)
  {
    if a != [] {
      assert (a + b)[1..] == a[1..] + b;
      ExpandAppend(a[1..], b);
    } else {
      assert a + b == b;
    }
  }

  /** The constructor.  A range with step 0 is an error. */
  method Make(groups: seq<Group>) returns (r: Option<IntegerList>)
    ensures r.Some? <==> AllValid(groups)
    ensures r.Some? ==> r.value.groups == groups && r.value.length == |Expand(groups)|
  {
    var length := 0;
    for i := 0 to |groups|
      invariant AllValid(groups[..i]) && length == |Expand(groups[..i])|
    {
      if groups[i].Step() == 0 {
        assert groups[i] in groups && !groups[i].Valid();
        return None;
      }
      assert groups[..i + 1] == groups[..i] + [groups[i]];
      assert [groups[i]][1..] == [];
      ExpandAppend(groups[..i], [groups[i]]);
      GroupAgrees(groups[i]);
      length := length + groups[i].Length();
    }
    assert groups[..|groups|] == groups;
    return Some(IntegerList(groups, length));
  }

  /** What the index loop answers: it stops as soon as the index has come down to 0. */
  function ItemAt(groups: seq<Group>, idx: nat): int
    requires AllValid(groups) && idx < |Expand(groups)|
  {
    if idx == 0 then groups[0].First()
    else
      GroupAgrees(groups[0]);
      if groups[0].Length() <= idx then ItemAt(groups[1..], idx - groups[0].Length())
      else groups[0].First() + idx * groups[0].Step()
  }

  lemma LookupStep(groups: seq<Group>, idx: nat)
    requires AllValid(groups) && 0 < idx < |Expand(groups)|
    ensures var n := groups[0].Length();
      if n <= idx then idx - n < |Expand(groups[1..])| && ItemAt(groups, idx) == ItemAt(groups[1..], idx - n)
      else ItemAt(groups, idx) == groups[0].First() + idx * groups[0].Step()
  {
    GroupAgrees(groups[0]);
  }

  /** The answer is the item at idx of the groups from groupIdx on. */
  ghost predicate Looking(groups: seq<Group>, index: nat, groupIdx: nat, idx: nat) {
    && AllValid(groups) && index < |Expand(groups)|
    && groupIdx <= |groups| && idx < |Expand(groups[groupIdx..])|
    && ItemAt(groups, index) == ItemAt(groups[groupIdx..], idx)
  }

  lemma LookingStep(groups: seq<Group>, index: nat, groupIdx: nat, idx: nat)
    requires Looking(groups, index, groupIdx, idx)
    ensures groupIdx < |groups| && groups[groupIdx].Valid()
    ensures var group := groups[groupIdx];
      if idx == 0 then ItemAt(groups, index) == group.First()
      else if group.Length() <= idx then Looking(groups, index, groupIdx + 1, idx - group.Length())
      else ItemAt(groups, index) == group.First() + idx * group.Step()
  {
    assert groups[groupIdx] in groups;
    if idx > 0 {
      LookupStep(groups[groupIdx..], idx);
      assert groups[groupIdx..][1..] == groups[groupIdx + 1..];
    }
  }

  /** None is an IndexError. */
  method GetItem(il: IntegerList, index: int) returns (r: Option<int>)
    requires il.Valid()
    ensures r.None? <==> index < 0 || il.length <= index
    ensures r.Some? ==> r.value == ItemAt(il.groups, index)
  {
    if index < 0 || il.length <= index {
      return None;
    }
    var idx := index;
    var groupIdx := 0;
    assert il.groups[0..] == il.groups;
    while idx > 0
      invariant 0 <= groupIdx <= |il.groups| && 0 <= idx
      invariant Looking(il.groups, index, groupIdx, idx)
      decreases |il.groups| - groupIdx
    {
      LookingStep(il.groups, index, groupIdx, idx);
      var group := il.groups[groupIdx];
      if group.Single? {
        groupIdx := groupIdx + 1;
        idx := idx - 1;
      } else {
        var groupLen := group.Length();
        if groupLen <= idx {
          groupIdx := groupIdx + 1;
          idx := idx - groupLen;
        } else {
          return Some(group.low + idx * group.Step());
        }
      }
    }
    LookingStep(il.groups, index, groupIdx, 0);
    return Some(il.groups[groupIdx].First());
  }

  /** The first bound of the next group that has elements, if there is one. */
  function NextFirst(groups: seq<Group>): Option<int>
    requires AllValid(groups)
  {
    if groups == [] then None
    else if groups[0].IsEmpty() then NextFirst(groups[1..])
    else Some(groups[0].First())
  }

  lemma {:induction false} NextFirstIsFirst(groups: seq<Group>)
    requires AllValid(groups)
    ensures NextFirst(groups) == if Expand(groups) == [] then None else Some(Expand(groups)[0])
  {
    if groups != [] {
      GroupAgrees(groups[0]);
      NextFirstIsFirst(groups[1..]);
    }
  }

  /** The list does not begin with an empty range, unless its first bound is that of the next group with elements. */
  predicate HeadOk(groups: seq<Group>)
    requires AllValid(groups)
  {
    groups != [] && groups[0].IsEmpty() && NextFirst(groups).Some? ==> groups[0].First() == NextFirst(groups).value
  }

  /** The same for what follows any non-empty group. */
  predicate TailOk(groups: seq<Group>)
    requires AllValid(groups)
  {
    groups == [] || ((!groups[0].IsEmpty() ==> HeadOk(groups[1..])) && TailOk(groups[1..]))
  }

  lemma {:induction false} LaterItemsAgree(groups: seq<Group>)
    requires AllValid(groups)
    ensures TailOk(groups) <==> forall i :: 0 < i < |Expand(groups)| ==> ItemAt(groups, i) == Expand(groups)[i]
  {
    if groups != [] {
      var rest := groups[1..];
      var n := groups[0].Length();
      GroupAgrees(groups[0]);
      LaterItemsAgree(rest);
      assert |Expand(groups)| == n + |Expand(rest)|;
      forall i | 0 <= i < |Expand(rest)| && 0 < n + i
        ensures ItemAt(groups, n + i) == ItemAt(rest, i) && Expand(groups)[n + i] == Expand(rest)[i]
      {
      }
      if i :| 0 < i < |Expand(rest)| && ItemAt(rest, i) != Expand(rest)[i] {
        assert ItemAt(groups, n + i) != Expand(groups)[n + i];
      } else if n > 0 && !HeadOk(rest) {
        NextFirstIsFirst(rest);
        HeadAgrees(rest);
        assert ItemAt(groups, n + 0) != Expand(groups)[n + 0];
      } else {
        forall i | 0 < i < |Expand(groups)| ensures ItemAt(groups, i) == Expand(groups)[i] {
          if n <= i {
            assert i == n + (i - n);
            if i == n { HeadAgrees(rest); }
          }
        }
      }
    }
  }

  lemma HeadAgrees(groups: seq<Group>)
    requires AllValid(groups) && Expand(groups) != []
    ensures ItemAt(groups, 0) == Expand(groups)[0] <==> HeadOk(groups)
  {
    GroupAgrees(groups[0]);
    NextFirstIsFirst(groups);
  }

  /** Indexing agrees with iteration at every position exactly when no empty range stands where an index can
      land on it, first in the list or directly after a non-empty group, unless its first bound happens to be the
      integer that comes next. */
  lemma IndexingAgreesIff(groups: seq<Group>)
    requires AllValid(groups)
    ensures (forall i :: 0 <= i < |Expand(groups)| ==> ItemAt(groups, i) == Expand(groups)[i])
       <==> HeadOk(groups) && TailOk(groups)
  {
    LaterItemsAgree(groups);
    NextFirstIsFirst(groups);
    if Expand(groups) != [] { HeadAgrees(groups); }
  }

  lemma {:induction false} IndexingAgreesWithoutEmptyRanges(groups: seq<Group>, i: nat)
    requires AllValid(groups) && (forall g :: g in groups ==> !g.IsEmpty()) && i < |Expand(groups)|
    ensures ItemAt(groups, i) == Expand(groups)[i]
  {
    GroupAgrees(groups[0]);
    if groups[0].Length() <= i {
      IndexingAgreesWithoutEmptyRanges(groups[1..], i - groups[0].Length());
    }
  }

  /** Indexing can be wrong: the list 3:5:-1,7 has the single element 7 but 3 at position 0. */
  lemma IndexingWrongAfterEmptyRange()
    ensures var groups := [SteppedRange(3, 5, -1), Single(7)];
      AllValid(groups) && Expand(groups) == [7] && ItemAt(groups, 0) == 3
  {
    var groups := [SteppedRange(3, 5, -1), Single(7)];
    assert groups[1..] == [Single(7)] && [Single(7)][1..] == [];
    assert Expand(groups) == groups[0].Elements() + Expand([Single(7)]);
    assert groups[0].Elements() == [];
  }
}
