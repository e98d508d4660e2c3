/** The choice of the CPUs to disable: round robin over the NUMA nodes, from the end of each. */
module CpuDisabling {
  import opened Arithmetic
  import opened Collections
  import opened Sorting
  import opened Wrappers

  /** A line of /proc/cpuinfo: the CPU number with its physical id and core id. */
  datatype Cpu = Cpu(id: int, node: int, core: int)

  datatype Error = ValueError | PopFromEmptyList

  function ByCoreAndId(): (Cpu, Cpu) -> bool {
    (a: Cpu, b: Cpu) => a.core < b.core || (a.core == b.core && a.id <= b.id)
  }

  function NodeOf(n: int): Cpu -> bool {
    (c: Cpu) => c.node == n
  }

  /** The CPUs of a node, by core id and then by number. */
  function CpusOfNode(cpus: seq<Cpu>, node: int): seq<Cpu> {
    Sort(Filter(cpus, NodeOf(node)), ByCoreAndId())
  }

  /** The nodes in the order in which they first appear, each once. */
  function Nodes(cpus: seq<Cpu>): seq<int> {
    if cpus == [] then []
    else
      var rest := Nodes(cpus[..|cpus| - 1]);
      var node := cpus[|cpus| - 1].node;
      if node in rest then rest else rest + [node]
  }

  function Descending(): (int, int) -> bool {
    (a: int, b: int) => a >= b
  }

  /** The nodes from the highest number down. */
  function Order(cpus: seq<Cpu>): seq<int> {
    Sort(Nodes(cpus), Descending())
  }

  function NodeCpus(cpus: seq<Cpu>, j: nat): seq<Cpu>
    requires j < |Order(cpus)|
  {
    CpusOfNode(cpus, Order(cpus)[j])
  }

  /** How many of the first n CPUs come from the node in place j of m. */
  function Share(m: nat, j: nat, n: nat): nat
    requires 0 < m
  {
    n / m + if j < n % m then 1 else 0
  }

  /** The k-th CPU to disable comes from the nodes in turn, and from each from the end. */
  function CpuAt(cpus: seq<Cpu>, k: nat): Option<Cpu>
    requires Order(cpus) != []
  {
    var m := |Order(cpus)|;
    var list := NodeCpus(cpus, k % m);
    if k / m < |list| then Some(list[|list| - 1 - k / m]) else None
  }

  lemma {:induction false} NodesContents(cpus: seq<Cpu>)
    ensures Distinct(Nodes(cpus))
    ensures forall c :: c in cpus ==> c.node in Nodes(cpus)
    ensures forall n :: n in Nodes(cpus) ==> exists c :: c in cpus && c.node == n
  {
    if cpus != [] {
      var last := cpus[|cpus| - 1];
      NodesContents(cpus[..|cpus| - 1]);
      assert cpus == cpus[..|cpus| - 1] + [last];
      assert forall n :: n in Nodes(cpus) <==> n == last.node || n in Nodes(cpus[..|cpus| - 1]);
    }
  }

  /** The nodes are taken from the highest number down, each once. */
  lemma OrderDescends(cpus: seq<Cpu>)
    ensures forall i, j :: 0 <= i < j < |Order(cpus)| ==> Order(cpus)[i] > Order(cpus)[j]
    ensures forall c :: c in cpus ==> c.node in Order(cpus)
    ensures forall n :: n in Order(cpus) <==> n in Nodes(cpus)
    ensures |Order(cpus)| == |Nodes(cpus)| && (cpus != [] ==> Order(cpus) != [])
  {
    NodesContents(cpus);
    SortContents(Nodes(cpus), Descending());
    SortSorted(Nodes(cpus), Descending());
    MultisetDistinct(Order(cpus), Nodes(cpus));
    if cpus != [] { assert cpus[0].node in Order(cpus); }
  }

  /** A node's list holds exactly its CPUs, each once, in order of core id and number. */
  lemma NodeListContents(cpus: seq<Cpu>, node: int)
    requires Distinct(cpus)
    ensures var list := CpusOfNode(cpus, node);
      && (forall c :: c in list <==> c in cpus && c.node == node)
      && Distinct(list)
      && forall i, j :: 0 <= i < j < |list| ==>
           list[i].core < list[j].core || (list[i].core == list[j].core && list[i].id < list[j].id)
  {
    FilterContents(cpus, NodeOf(node));
    SortContents(Filter(cpus, NodeOf(node)), ByCoreAndId());
    SortSorted(Filter(cpus, NodeOf(node)), ByCoreAndId());
    MultisetDistinct(CpusOfNode(cpus, node), cpus);
    var list := CpusOfNode(cpus, node);
    forall i, j | 0 <= i < j < |list|
      ensures list[i].core < list[j].core || (list[i].core == list[j].core && list[i].id < list[j].id)
    {
      assert ByCoreAndId()(list[i], list[j]) && list[i] in list && list[j] in list;
    }
  }

  lemma ShareStep(m: nat, j: nat, k: nat)
    requires j < m
    ensures Share(m, j, k + 1) == Share(m, j, k) + if k % m == j then 1 else 0
    ensures k % m == j ==> Share(m, j, k) == k / m
  {
    NextRemainder(k, m);
  }

  /** After any number of CPUs the nodes differ by at most one, and the higher-numbered ones are ahead. */
  lemma SharesAreBalanced(m: nat, i: nat, j: nat, n: nat)
    requires i < j < m
    ensures Share(m, j, n) <= Share(m, i, n) <= Share(m, j, n) + 1
  {
  }

  /** No node has run out within the first n. */
  ghost predicate AllAvailable(cpus: seq<Cpu>, n: nat)
    requires Order(cpus) != []
  {
    forall k: nat :: k < n ==> CpuAt(cpus, k).Some?
  }

  /** The first n CPUs can all be taken exactly when no node has fewer than its share. */
  lemma {:induction false} AvailableIff(cpus: seq<Cpu>, n: nat)
    requires Order(cpus) != []
    ensures AllAvailable(cpus, n) <==> SharesFit(cpus, n)
  {
    if n == 0 {
      SharesOfNothing(cpus);
    } else {
      AvailableIff(cpus, n - 1);
      SharesOneMore(cpus, n - 1);
      AvailableOneMore(cpus, n - 1);
    }
  }

  lemma SharesOfNothing(cpus: seq<Cpu>)
    requires Order(cpus) != []
    ensures SharesFit(cpus, 0)
  {
    forall j | 0 <= j < |Order(cpus)| ensures Share(|Order(cpus)|, j, 0) == 0 {
      DivUnique(0, |Order(cpus)|, 0, 0);
    }
  }

  lemma AvailableOneMore(cpus: seq<Cpu>, k: nat)
    requires Order(cpus) != []
    ensures AllAvailable(cpus, k + 1) <==> AllAvailable(cpus, k) && CpuAt(cpus, k).Some?
  {
  }

  /** No node has fewer than its share of the first n. */
  ghost predicate SharesFit(cpus: seq<Cpu>, n: nat) {
    forall j :: 0 <= j < |Order(cpus)| ==> Share(|Order(cpus)|, j, n) <= |NodeCpus(cpus, j)|
  }

  lemma SharesOneMore(cpus: seq<Cpu>, k: nat)
    requires Order(cpus) != []
    ensures SharesFit(cpus, k + 1) <==> SharesFit(cpus, k) && CpuAt(cpus, k).Some?
  {
    var m := |Order(cpus)|;
    var pos := k % m;
    forall j | 0 <= j < m
      ensures Share(m, j, k + 1) == Share(m, j, k) + (if pos == j then 1 else 0)
      ensures pos == j ==> Share(m, j, k) == k / m
    {
      ShareStep(m, j, k);
    }
  }

  const UNEVEN := [Cpu(0, 0, 0), Cpu(1, 0, 1), Cpu(2, 0, 2), Cpu(3, 1, 0)]

  /** Two nodes of three CPUs and one: the third CPU to disable is missing, though three are fewer than all four. */
  lemma UnevenNodesRunOut()
    ensures Order(UNEVEN) != [] && 3 < |UNEVEN| && !AllAvailable(UNEVEN, 3)
    ensures CpuAt(UNEVEN, 0).Some? && CpuAt(UNEVEN, 1).Some? && CpuAt(UNEVEN, 2).None?
  {
    UnevenOrder();
    UnevenSizes();
    SecondTurnMissing(UNEVEN);
  }

  lemma SecondTurnMissing(cpus: seq<Cpu>)
    requires Order(cpus) == [1, 0] && |CpusOfNode(cpus, 1)| == 1 && |CpusOfNode(cpus, 0)| == 3
    ensures CpuAt(cpus, 0).Some? && CpuAt(cpus, 1).Some? && CpuAt(cpus, 2).None? && !AllAvailable(cpus, 3)
  {
    assert 2 / |Order(cpus)| == 1 && 2 % |Order(cpus)| == 0;
    assert CpuAt(cpus, 2).None?;
  }

  lemma UnevenOrder()
    ensures Order(UNEVEN) == [1, 0]
  {
    var a, b, c := UNEVEN[0], UNEVEN[1], UNEVEN[2];
    assert UNEVEN[..3] == [a, b, c] && [a, b, c][..2] == [a, b] && [a, b][..1] == [a] && [a][..0] == [];
    assert Nodes([a]) == [0];
    assert Nodes([a, b]) == [0];
    assert Nodes([a, b, c]) == [0];
    TwoSorted(0, 1);
  }

  lemma UnevenSizes()
    ensures |CpusOfNode(UNEVEN, 1)| == 1 && |CpusOfNode(UNEVEN, 0)| == 3
  {
    var others, last := UNEVEN[..3], UNEVEN[3];
    assert UNEVEN == others + [last];
    FilterOne(others, last);
    SizeOfNode(UNEVEN, 1);
    FilterAppend(others, last, NodeOf(0));
    FilterAll(others, NodeOf(0));
    SizeOfNode(UNEVEN, 0);
  }

  lemma TwoSorted(a: int, b: int)
    requires a < b
    ensures Sort([a, b], Descending()) == [b, a]
  {
    assert [a, b][1..] == [b] && [b][1..] == [];
    assert Sort([b], Descending()) == Insert(b, [], Descending()) == [b];
    assert Insert(a, [b], Descending()) == [b] + Insert(a, [], Descending());
  }

  lemma FilterOne(others: seq<Cpu>, c: Cpu)
    requires forall o :: o in others ==> o.node != c.node
    ensures Filter(others + [c], NodeOf(c.node)) == [c]
  {
    FilterNone(others, NodeOf(c.node));
    FilterAppend(others, c, NodeOf(c.node));
  }

  /** No CPU is taken twice, and each comes from the node whose turn it is. */
  lemma NoCpuTwice(cpus: seq<Cpu>, k: nat, l: nat)
    requires forall i, j :: 0 <= i < j < |cpus| ==> cpus[i].id != cpus[j].id
    requires Order(cpus) != [] && k < l && CpuAt(cpus, k).Some? && CpuAt(cpus, l).Some?
    ensures CpuAt(cpus, k).value.id != CpuAt(cpus, l).value.id
    ensures CpuAt(cpus, k).value in cpus && CpuAt(cpus, k).value.node == Order(cpus)[k % |Order(cpus)|]
  {
    var m := |Order(cpus)|;
    DivMod(k, m);
    DivMod(l, m);
    OrderDescends(cpus);
    NodeListContents(cpus, Order(cpus)[k % m]);
    NodeListContents(cpus, Order(cpus)[l % m]);
    if k % m == l % m {
      assert k / m != l / m;
    }
    assert CpuAt(cpus, k).value != CpuAt(cpus, l).value;
  }

  lemma ShareMonotone(m: nat, j: nat, k: nat, n: nat)
    requires j < m && k <= n
    ensures Share(m, j, k) <= Share(m, j, n)
    decreases n - k
  {
    if k < n {
      ShareStep(m, j, k);
      ShareMonotone(m, j, k + 1, n);
    }
  }

  lemma TurnComes(m: nat, j: nat, q: nat, n: nat)
    requires j < m && q < Share(m, j, n)
    ensures q * m + j < n && (q * m + j) / m == q && (q * m + j) % m == j
  {
    DivUnique(q * m + j, m, q, j);
    DivMod(n, m);
    if q < n / m { Gap(q, n / m, m); }
  }

  /** Of a node exactly the last CPUs of its list are among the first n, as many as its share. */
  lemma DisabledAreLast(cpus: seq<Cpu>, n: nat, j: nat, i: nat)
    requires Distinct(cpus) && Order(cpus) != [] && AllAvailable(cpus, n)
    requires j < |Order(cpus)| && i < |NodeCpus(cpus, j)|
    ensures (exists k: nat :: k < n && CpuAt(cpus, k) == Some(NodeCpus(cpus, j)[i]))
      <==> |NodeCpus(cpus, j)| - Share(|Order(cpus)|, j, n) <= i
  {
    var m, list := |Order(cpus)|, NodeCpus(cpus, j);
    if k: nat :| k < n && CpuAt(cpus, k) == Some(list[i]) {
      TakenInTurn(cpus, k, j, i);
      ShareStep(m, j, k);
      ShareMonotone(m, j, k + 1, n);
    }
    var q := |list| - 1 - i;
    if q < Share(m, j, n) {
      TurnComes(m, j, q, n);
      assert CpuAt(cpus, q * m + j) == Some(list[i]);
    }
  }

  lemma TakenInTurn(cpus: seq<Cpu>, k: nat, j: nat, i: nat)
    requires Distinct(cpus) && j < |Order(cpus)| && i < |NodeCpus(cpus, j)|
    requires CpuAt(cpus, k) == Some(NodeCpus(cpus, j)[i])
    ensures k % |Order(cpus)| == j && |NodeCpus(cpus, j)| - 1 - k / |Order(cpus)| == i
  {
    var m := |Order(cpus)|;
    DivMod(k, m);
    OrderDescends(cpus);
    NodeListContents(cpus, Order(cpus)[k % m]);
    NodeListContents(cpus, Order(cpus)[j]);
    var own, list := NodeCpus(cpus, k % m), NodeCpus(cpus, j);
    assert own[|own| - 1 - k / m] in own && list[i] in list;
    assert Order(cpus)[k % m] == Order(cpus)[j];
  }

  function TotalSize(cpus: seq<Cpu>, nodes: seq<int>): nat {
    if nodes == [] then 0 else |Filter(cpus, NodeOf(nodes[0]))| + TotalSize(cpus, nodes[1..])
  }

  lemma {:induction false} TotalSizeStep(cpus: seq<Cpu>, nodes: seq<int>)
    requires cpus != [] && Distinct(nodes)
    ensures TotalSize(cpus, nodes) == TotalSize(cpus[1..], nodes) + if cpus[0].node in nodes then 1 else 0
  {
    if nodes != [] {
      TotalSizeStep(cpus, nodes[1..]);
      assert nodes == [nodes[0]] + nodes[1..];
      assert nodes[0] !in nodes[1..];
    }
  }

  /** Every CPU belongs to exactly one node. */
  lemma {:induction false} TotalSizeIsAll(cpus: seq<Cpu>, nodes: seq<int>)
    requires Distinct(nodes)
    requires forall c :: c in cpus ==> c.node in nodes
    ensures TotalSize(cpus, nodes) == |cpus|
  {
    if cpus != [] {
      TotalSizeStep(cpus, nodes);
      TotalSizeIsAll(cpus[1..], nodes);
    } else if nodes != [] {
      TotalSizeIsAll(cpus, nodes[1..]);
    }
  }

  lemma SizeOfNode(cpus: seq<Cpu>, node: int)
    ensures |Filter(cpus, NodeOf(node))| == |CpusOfNode(cpus, node)|
  {
    SortContents(Filter(cpus, NodeOf(node)), ByCoreAndId());
  }

  ghost predicate AllOfSize(cpus: seq<Cpu>, nodes: seq<int>, size: nat) {
    forall i :: 0 <= i < |nodes| ==> |CpusOfNode(cpus, nodes[i])| == size
  }

  lemma {:induction false} EqualSizes(cpus: seq<Cpu>, nodes: seq<int>, size: nat)
    requires AllOfSize(cpus, nodes, size)
    ensures TotalSize(cpus, nodes) == |nodes| * size
  {
    if nodes != [] {
      SizeOfNode(cpus, nodes[0]);
      assert AllOfSize(cpus, nodes[1..], size);
      EqualSizes(cpus, nodes[1..], size);
      OneMore(|nodes[1..]|, size);
    }
  }

  lemma OneMore(k: nat, size: nat)
    ensures (k + 1) * size == k * size + size
  {
  }

  /** With nodes of equal size and fewer CPUs to disable than there are, no node runs out, and the lowest node
      keeps its first CPU. */
  lemma EqualNodesSuffice(cpus: seq<Cpu>, size: nat, n: nat)
    requires forall j :: 0 <= j < |Order(cpus)| ==> |NodeCpus(cpus, j)| == size
    requires n < |cpus|
    ensures Order(cpus) != [] && AllAvailable(cpus, n)
    ensures Share(|Order(cpus)|, |Order(cpus)| - 1, n) < size
  {
    OrderDescends(cpus);
    var m := |Order(cpus)|;
    forall j | 0 <= j < m ensures |CpusOfNode(cpus, Order(cpus)[j])| == size {
      assert |NodeCpus(cpus, j)| == size;
    }
    EqualSizes(cpus, Order(cpus), size);
    TotalSizeIsAll(cpus, Order(cpus));
    EqualSharesFit(m, size, n);
    AvailableIff(cpus, n);
  }

  lemma EqualSharesFit(m: nat, size: nat, n: nat)
    requires 0 < m && n < m * size
    ensures forall j :: 0 <= j < m ==> Share(m, j, n) <= size
    ensures Share(m, m - 1, n) < size
  {
    DivMod(n, m);
    if size <= n / m {
      MulMonotonic(size, n / m, m);
    }
  }

  /** The node in place j of the order has lost exactly its share of the first n CPUs, from its end. */
  ghost predicate Left(cpus: seq<Cpu>, j: nat, n: nat, remaining: map<int, seq<Cpu>>)
    requires j < |Order(cpus)|
  {
    var list, share := NodeCpus(cpus, j), Share(|Order(cpus)|, j, n);
    share <= |list| && Order(cpus)[j] in remaining && remaining[Order(cpus)[j]] == list[..|list| - share]
  }

  /** The CPUs disabled so far, and what is left of every node. */
  ghost predicate Progress(cpus: seq<Cpu>, disabled: seq<int>, remaining: map<int, seq<Cpu>>) {
    && Order(cpus) != []
    && Taken(cpus, disabled)
    && forall j :: 0 <= j < |Order(cpus)| ==> Left(cpus, j, |disabled|, remaining)
  }

  ghost predicate Taken(cpus: seq<Cpu>, disabled: seq<int>)
    requires Order(cpus) != []
  {
    forall k: nat :: k < |disabled| ==> CpuAt(cpus, k).Some? && disabled[k] == CpuAt(cpus, k).value.id
  }

  lemma TakenExtends(cpus: seq<Cpu>, disabled: seq<int>, cpu: Cpu)
    requires Order(cpus) != [] && Taken(cpus, disabled) && CpuAt(cpus, |disabled|) == Some(cpu)
    ensures Taken(cpus, disabled + [cpu.id])
  {
  }

  lemma LeftAfterPop(cpus: seq<Cpu>, n: nat, remaining: map<int, seq<Cpu>>)
    requires Order(cpus) != [] && Left(cpus, n % |Order(cpus)|, n, remaining)
    ensures var list := remaining[Order(cpus)[n % |Order(cpus)|]];
      if list == [] then CpuAt(cpus, n).None?
      else
        && CpuAt(cpus, n) == Some(list[|list| - 1])
        && Left(cpus, n % |Order(cpus)|, n + 1, remaining[Order(cpus)[n % |Order(cpus)|] := list[..|list| - 1]])
  {
    ShareStep(|Order(cpus)|, n % |Order(cpus)|, n);
  }

  lemma LeftAfterStep(cpus: seq<Cpu>, j: nat, n: nat, remaining: map<int, seq<Cpu>>,
                      list: seq<Cpu>, remaining': map<int, seq<Cpu>>)
    requires j < |Order(cpus)| && Left(cpus, j, n, remaining)
    requires Left(cpus, n % |Order(cpus)|, n + 1, remaining')
    requires remaining' == remaining[Order(cpus)[n % |Order(cpus)|] := list]
    ensures Left(cpus, j, n + 1, remaining')
  {
    var pos := n % |Order(cpus)|;
    if j != pos {
      ShareStep(|Order(cpus)|, j, n);
      OrderDescends(cpus);
      if j < pos { assert Order(cpus)[j] > Order(cpus)[pos]; } else { assert Order(cpus)[j] < Order(cpus)[pos]; }
    }
  }

  lemma ProgressExtends(cpus: seq<Cpu>, disabled: seq<int>, remaining: map<int, seq<Cpu>>,
                        cpu: Cpu, list: seq<Cpu>, remaining': map<int, seq<Cpu>>)
    requires Progress(cpus, disabled, remaining) && CpuAt(cpus, |disabled|) == Some(cpu)
    requires Left(cpus, |disabled| % |Order(cpus)|, |disabled| + 1, remaining')
    requires remaining' == remaining[Order(cpus)[|disabled| % |Order(cpus)|] := list]
    ensures Progress(cpus, disabled + [cpu.id], remaining')
  {
    TakenExtends(cpus, disabled, cpu);
    var n := |disabled| + 1;
    forall j | 0 <= j < |Order(cpus)| ensures Left(cpus, j, n, remaining') {
      LeftAfterStep(cpus, j, |disabled|, remaining, list, remaining');
    }
  }

  lemma ProgressStep(cpus: seq<Cpu>, disabled: seq<int>, remaining: map<int, seq<Cpu>>, numa: int)
    requires Progress(cpus, disabled, remaining)
    requires numa == Order(cpus)[|disabled| % |Order(cpus)|]
    ensures numa in remaining
    ensures remaining[numa] == [] ==> CpuAt(cpus, |disabled|).None?
    ensures remaining[numa] != [] ==>
      var cpu := remaining[numa][|remaining[numa]| - 1];
      Progress(cpus, disabled + [cpu.id], remaining[numa := remaining[numa][..|remaining[numa]| - 1]])
  {
    LeftAfterPop(cpus, |disabled|, remaining);
    var list := remaining[numa];
    if list != [] {
      var cpu, rest := list[|list| - 1], list[..|list| - 1];
      ProgressExtends(cpus, disabled, remaining, cpu, rest, remaining[numa := rest]);
    }
  }

  lemma NothingTaken(cpus: seq<Cpu>, lists: map<int, seq<Cpu>>)
    requires Order(cpus) != []
    requires forall n :: n in Nodes(cpus) ==> n in lists && lists[n] == CpusOfNode(cpus, n)
    ensures Progress(cpus, [], lists)
  {
    OrderDescends(cpus);
    forall j | 0 <= j < |Order(cpus)| ensures Left(cpus, j, 0, lists) {
      assert Order(cpus)[j] in Nodes(cpus);
      DivUnique(0, |Order(cpus)|, 0, 0);
    }
  }

  /** The loop over the nodes: stops after num CPUs or where a node has none left. */
  method TakeInTurn(cpus: seq<Cpu>, order: seq<int>, lists: map<int, seq<Cpu>>, num: nat)
    returns (disabled: seq<int>, error: Option<Error>, remaining: map<int, seq<Cpu>>)
    requires order == Order(cpus) != [] && Progress(cpus, [], lists)
    ensures Progress(cpus, disabled, remaining)
    ensures error == None ==> |disabled| == num
    ensures error != None ==> error == Some(PopFromEmptyList) && |disabled| < num && CpuAt(cpus, |disabled|).None?
  {
    disabled, error, remaining := [], None, lists;
    var left := num;
    while left > 0
      invariant left == num - |disabled|
      invariant left > 0 ==> |disabled| % |order| == 0
      invariant Progress(cpus, disabled, remaining)
    {
      ghost var start := left;
      for pos := 0 to |order|
        invariant left == start - pos
        invariant 0 < left == num - |disabled|
        invariant |disabled| % |order| == if pos == |order| then 0 else pos
        invariant Progress(cpus, disabled, remaining)
      {
        var numa := order[pos];
        ProgressStep(cpus, disabled, remaining, numa);
        NextRemainder(|disabled|, |order|);
        if remaining[numa] == [] {
          error := Some(PopFromEmptyList);
          return;
        }
        var cpu := remaining[numa][|remaining[numa]| - 1];
        remaining := remaining[numa := remaining[numa][..|remaining[numa]| - 1]];
        left := left - 1;
        disabled := disabled + [cpu.id];
        if left == 0 {
          return;
        }
      }
    }
  }

  /** Returns the CPU numbers in the order of disabling, how it ended, and what is left of every node's list.
      Without any CPU the loop over the nodes would never end. */
  method DisableCpus(cpus: seq<Cpu>, numDisableCpus: int, numCpus: int)
    returns (disabled: seq<int>, error: Option<Error>, remaining: map<int, seq<Cpu>>)
    requires cpus != []
    ensures numDisableCpus == 0 ==> disabled == [] && error == None
    ensures numDisableCpus != 0 && (numDisableCpus < 0 || numCpus <= numDisableCpus) ==> (
      disabled == [] && error == Some(ValueError))
    ensures 0 < numDisableCpus < numCpus ==> (
      && Progress(cpus, disabled, remaining)
      && if AllAvailable(cpus, numDisableCpus) then error == None && |disabled| == numDisableCpus
         else
           error == Some(PopFromEmptyList) && |disabled| < numDisableCpus && CpuAt(cpus, |disabled|).None?)
  {
    disabled, error, remaining := [], None, map[];
    if numDisableCpus == 0 {
      return;
    }
    if numDisableCpus <= 0 || numCpus <= numDisableCpus {
      error := Some(ValueError);
      return;
    }
    var lists, nodes := NodeLists(cpus);
    OrderDescends(cpus);
    NothingTaken(cpus, lists);
    disabled, error, remaining := TakeInTurn(cpus, Sort(nodes, Descending()), lists, numDisableCpus);
  }

  /** The lists by node, unsorted, and the nodes in the order of their first appearance. */
  ghost predicate Grouped(cpus: seq<Cpu>, lists: map<int, seq<Cpu>>, nodes: seq<int>) {
    && nodes == Nodes(cpus)
    && (forall n :: n in lists <==> n in nodes)
    && (forall n :: IsGroup(cpus, n, lists))
  }

  ghost predicate IsGroup(cpus: seq<Cpu>, n: int, lists: map<int, seq<Cpu>>) {
    Filter(cpus, NodeOf(n)) == if n in lists then lists[n] else []
  }

  lemma GroupedStep(cpus: seq<Cpu>, cpu: Cpu, lists: map<int, seq<Cpu>>, nodes: seq<int>, list: seq<Cpu>)
    requires Grouped(cpus, lists, nodes)
    requires list == if cpu.node in lists then lists[cpu.node] else []
    ensures Grouped(cpus + [cpu],
                    lists[cpu.node := list + [cpu]],
                    if cpu.node in lists then nodes else nodes + [cpu.node])
  {
    var cpus' := cpus + [cpu];
    assert cpus'[..|cpus'| - 1] == cpus;
    var lists' := lists[cpu.node := list + [cpu]];
    forall n ensures IsGroup(cpus', n, lists') {
      assert IsGroup(cpus, n, lists);
      FilterAppend(cpus, cpu, NodeOf(n));
      assert NodeOf(n)(cpu) <==> n == cpu.node;
    }
  }

  method GroupByNode(cpus: seq<Cpu>) returns (lists: map<int, seq<Cpu>>, nodes: seq<int>)
    ensures Grouped(cpus, lists, nodes)
  {
    lists, nodes := map[], [];
    for i := 0 to |cpus|
      invariant Grouped(cpus[..i], lists, nodes)
    {
      var cpu := cpus[i];
      assert cpus[..i + 1] == cpus[..i] + [cpu];
      var list := if cpu.node in lists then lists[cpu.node] else [];
      GroupedStep(cpus[..i], cpu, lists, nodes, list);
      if cpu.node !in lists {
        nodes := nodes + [cpu.node];
      }
      lists := lists[cpu.node := list + [cpu]];
    }
    assert cpus[..|cpus|] == cpus;
  }

  /** The list of every node, sorted, and the nodes in the order of their first appearance. */
  method NodeLists(cpus: seq<Cpu>) returns (lists: map<int, seq<Cpu>>, nodes: seq<int>)
    ensures nodes == Nodes(cpus)
    ensures forall n :: n in nodes ==> n in lists && lists[n] == CpusOfNode(cpus, n)
  {
    lists, nodes := GroupByNode(cpus);
    NodesContents(cpus);
    NothingSorted(cpus, nodes, lists);
    for i := 0 to |nodes|
      invariant SortedUpTo(cpus, nodes, i, lists)
    {
      SortedOneMore(cpus, nodes, i, lists);
      lists := lists[nodes[i] := Sort(lists[nodes[i]], ByCoreAndId())];
    }
    AllSorted(cpus, nodes, lists);
  }

  ghost predicate IsSortedGroup(cpus: seq<Cpu>, n: int, lists: map<int, seq<Cpu>>) {
    n in lists && lists[n] == CpusOfNode(cpus, n)
  }

  ghost predicate SortedUpTo(cpus: seq<Cpu>, nodes: seq<int>, i: nat, lists: map<int, seq<Cpu>>) {
    forall k :: 0 <= k < |nodes| ==> (
      nodes[k] in lists && if k < i then IsSortedGroup(cpus, nodes[k], lists) else IsGroup(cpus, nodes[k], lists))
  }

  lemma NothingSorted(cpus: seq<Cpu>, nodes: seq<int>, lists: map<int, seq<Cpu>>)
    requires Grouped(cpus, lists, nodes)
    ensures SortedUpTo(cpus, nodes, 0, lists)
  {
    forall k | 0 <= k < |nodes| ensures nodes[k] in lists && IsGroup(cpus, nodes[k], lists) {
      var n := nodes[k];
      assert n in nodes && IsGroup(cpus, n, lists);
    }
  }

  lemma SortedOneMore(cpus: seq<Cpu>, nodes: seq<int>, i: nat, lists: map<int, seq<Cpu>>)
    requires i < |nodes| && forall j, k :: 0 <= j < k < |nodes| ==> nodes[j] != nodes[k]
    requires SortedUpTo(cpus, nodes, i, lists)
    ensures nodes[i] in lists
    ensures SortedUpTo(cpus, nodes, i + 1, lists[nodes[i] := Sort(lists[nodes[i]], ByCoreAndId())])
  {
    var lists' := lists[nodes[i] := Sort(lists[nodes[i]], ByCoreAndId())];
    assert IsGroup(cpus, nodes[i], lists);
    assert IsSortedGroup(cpus, nodes[i], lists');
    forall k | 0 <= k < |nodes| && k != i ensures nodes[k] != nodes[i] && lists'[nodes[k]] == lists[nodes[k]] {
      if k < i { assert nodes[k] != nodes[i]; } else { assert nodes[i] != nodes[k]; }
    }
  }

  lemma AllSorted(cpus: seq<Cpu>, nodes: seq<int>, lists: map<int, seq<Cpu>>)
    requires SortedUpTo(cpus, nodes, |nodes|, lists)
    ensures forall n :: n in nodes ==> n in lists && lists[n] == CpusOfNode(cpus, n)
  {
    forall n | n in nodes ensures IsSortedGroup(cpus, n, lists) {
      var k :| 0 <= k < |nodes| && nodes[k] == n;
    }
  }
}
