/** The printed summary of the results: metadata shared by samples is printed once and left out of their lines. */
module ResultSummary {
  import opened Collections
  import opened Sorting
  import opened Wrappers

  /** A hashable value other than None. */
  type Atom(==, !new)

  datatype Value = Nothing | Plain(atom: Atom) | Unhashable(atom: Atom)

  type Metadata = map<string, Value>

  datatype Sample = Sample(test: string, metric: string, value: real, unit: string, metadata: Metadata)

  datatype Line = Line(metric: string, value: real, unit: string, meta: Metadata)

  datatype Section = Section(test: string, benchmarkMeta: Metadata, lines: seq<Line>)

  datatype Report = Report(sections: seq<Section>, globalMeta: Option<Metadata>)

  // ----- Keys with one value -----

  /** The hashable values of a key, without any cap. */
  ghost function Seen(samples: seq<Sample>, k: string): set<Value> {
    set s | s in samples && k in s.metadata && !s.metadata[k].Unhashable? :: s.metadata[k]
  }

  ghost predicate Everywhere(samples: seq<Sample>, k: string) {
    forall s :: s in samples ==> k in s.metadata
  }

  ghost predicate IsConstant(samples: seq<Sample>, k: string) {
    Everywhere(samples, k) && exists a :: Seen(samples, k) == {Plain(a)}
  }

  ghost function ConstantKeys(samples: seq<Sample>): set<string> {
    if samples == [] then {} else set k | k in samples[0].metadata && IsConstant(samples, k)
  }

  lemma InConstantKeys(samples: seq<Sample>, k: string)
    ensures k in ConstantKeys(samples) <==> IsConstant(samples, k)
  {
    if IsConstant(samples, k) {
      var a :| Seen(samples, k) == {Plain(a)};
      assert Plain(a) in Seen(samples, k);
    }
  }

  ghost predicate AllHashable(samples: seq<Sample>) {
    forall s, k :: s in samples && k in s.metadata ==> !s.metadata[k].Unhashable?
  }

  /** Of hashable metadata: the constant keys are those that every sample has with the same value, not None. */
  lemma ConstantIff(samples: seq<Sample>, k: string)
    requires samples != [] && AllHashable(samples)
    ensures IsConstant(samples, k)
      <==> (Everywhere(samples, k) && samples[0].metadata[k] != Nothing
            && forall s :: s in samples ==> s.metadata[k] == samples[0].metadata[k])
  {
    var first := samples[0];
    assert first in samples;
    if Everywhere(samples, k) {
      assert first.metadata[k] in Seen(samples, k);
      if IsConstant(samples, k) {
        forall s | s in samples ensures s.metadata[k] == first.metadata[k] {
          assert s.metadata[k] in Seen(samples, k);
        }
      }
      if first.metadata[k].Plain? && forall s :: s in samples ==> s.metadata[k] == first.metadata[k] {
        assert Seen(samples, k) == {Plain(first.metadata[k].atom)};
      }
    }
  }

  /** A set that stops growing at two elements. */
  ghost predicate Capped(full: set<Value>, kept: set<Value>) {
    kept <= full && |kept| <= 2 && (|kept| < 2 ==> kept == full)
  }

  /** The set kept for key k after these samples. */
  ghost predicate Collected(samples: seq<Sample>, k: string, kept: map<string, set<Value>>) {
    if k in kept then Capped(Seen(samples, k), kept[k])
    else forall s :: s in samples ==> k !in s.metadata
  }

  /** One metadata item of the next sample. */
  function Collect(kept: map<string, set<Value>>, k: string, v: Value): map<string, set<Value>> {
    var values := if k in kept then kept[k] else {};
    kept[k := if |values| < 2 && !v.Unhashable? then values + {v} else values]
  }

  lemma CollectOwn(samples: seq<Sample>, s: Sample, k: string, kept: map<string, set<Value>>)
    requires Collected(samples, k, kept) && k in s.metadata
    ensures Collected(samples + [s], k, Collect(kept, k, s.metadata[k]))
  {
    var before := if k in kept then kept[k] else {};
    assert Capped(Seen(samples, k), before) by {
      if k !in kept { assert Seen(samples, k) == {}; }
    }
    SeenOneMore(samples, s, k);
    SmallUnion(before, s.metadata[k]);
  }

  lemma SmallUnion(a: set<Value>, v: Value)
    ensures |a + {v}| <= |a| + 1
  {
    if v in a { assert a + {v} == a; }
  }

  lemma SeenOneMore(samples: seq<Sample>, s: Sample, k: string)
    ensures Seen(samples + [s], k)
         == Seen(samples, k) + if k in s.metadata && !s.metadata[k].Unhashable? then {s.metadata[k]} else {}
  {
  }

  lemma CollectOther(samples: seq<Sample>, s: Sample, k: string, kept: map<string, set<Value>>)
    requires Collected(samples, k, kept) && k !in s.metadata
    ensures Collected(samples + [s], k, kept)
  {
    SeenOneMore(samples, s, k);
  }

  /** What the second pass leaves: None is added for a key that some sample lacks. */
  ghost predicate Marked(
    samples: seq<Sample>, k: string, kept: map<string, set<Value>>, marked: map<string, set<Value>>)
  {
    && (k in kept <==> k in marked)
    && (k in kept ==> marked[k] == if Everywhere(samples, k) then kept[k] else kept[k] + {Nothing})
  }

  lemma ConstantWhenMarked(
      samples: seq<Sample>, k: string, kept: map<string, set<Value>>, marked: map<string, set<Value>>)
    requires Collected(samples, k, kept) && Marked(samples, k, kept, marked)
    ensures k in marked && |marked[k]| == 1 && Nothing !in marked[k] <==> samples != [] && IsConstant(samples, k)
  {
    if k in marked && |marked[k]| == 1 && Nothing !in marked[k] {
      var v :| v in marked[k];
      Singleton(marked[k], v);
      assert v in Seen(samples, k) && v.Plain?;
      assert Seen(samples, k) == {Plain(v.atom)};
    }
    if samples != [] && IsConstant(samples, k) {
      assert samples[0] in samples;
      var a :| Seen(samples, k) == {Plain(a)};
      assert |kept[k]| < 2 by {
        if |kept[k]| >= 2 {
          SubsetCount(kept[k], {Plain(a)});
        }
      }
    }
  }

  lemma Singleton<T>(s: set<T>, v: T)
    requires |s| == 1 && v in s
    ensures s == {v}
  {
    assert |s - {v}| == 0;
  }

  /** Some items of sample s are still to come. */
  ghost predicate Collecting(samples: seq<Sample>, s: Sample, keys: set<string>, kept: map<string, set<Value>>) {
    && (forall k :: k in keys ==> Collected(samples, k, kept))
    && (forall k :: k !in keys ==> Collected(samples + [s], k, kept))
  }

  lemma CollectingStarts(samples: seq<Sample>, s: Sample, kept: map<string, set<Value>>)
    requires forall k :: Collected(samples, k, kept)
    ensures Collecting(samples, s, s.metadata.Keys, kept)
  {
    forall k | k !in s.metadata.Keys ensures Collected(samples + [s], k, kept) {
      CollectOther(samples, s, k, kept);
    }
  }

  lemma CollectingStep(samples: seq<Sample>, s: Sample, keys: set<string>, k: string, kept: map<string, set<Value>>)
    requires Collecting(samples, s, keys, kept) && k in keys && k in s.metadata
    ensures Collecting(samples, s, keys - {k}, Collect(kept, k, s.metadata[k]))
  {
    var kept' := Collect(kept, k, s.metadata[k]);
    CollectOwn(samples, s, k, kept);
    forall l | l != k
      ensures Collected(samples, l, kept) ==> Collected(samples, l, kept')
      ensures Collected(samples + [s], l, kept) ==> Collected(samples + [s], l, kept')
    {
      assert (l in kept' <==> l in kept) && (l in kept ==> kept'[l] == kept[l]);
    }
  }

  method CollectValues(samples: seq<Sample>) returns (kept: map<string, set<Value>>)
    ensures forall k :: Collected(samples, k, kept)
  {
    kept := map[];
    for i := 0 to |samples|
      invariant forall k :: Collected(samples[..i], k, kept)
    {
      var s := samples[i];
      var keys := s.metadata.Keys;
      CollectingStarts(samples[..i], s, kept);
      while keys != {}
        invariant keys <= s.metadata.Keys && Collecting(samples[..i], s, keys, kept)
      {
        var k :| k in keys;
        CollectingStep(samples[..i], s, keys, k, kept);
        kept := Collect(kept, k, s.metadata[k]);
        keys := keys - {k};
      }
      assert samples[..i + 1] == samples[..i] + [s];
    }
    assert samples[..|samples|] == samples;
  }

  method MarkMissing(samples: seq<Sample>, kept: map<string, set<Value>>) returns (marked: map<string, set<Value>>)
    ensures forall k :: Marked(samples, k, kept, marked)
  {
    marked := kept;
    for i := 0 to |samples|
      invariant forall k :: Marked(samples[..i], k, kept, marked)
    {
      var s := samples[i];
      assert samples[..i + 1] == samples[..i] + [s];
      ghost var before := marked;
      marked := map k | k in marked :: if k in s.metadata then marked[k] else marked[k] + {Nothing};
      ghost var upTo := samples[..i + 1];
      forall k ensures Marked(upTo, k, kept, marked) {
        assert Marked(samples[..i], k, kept, before);
        assert Everywhere(upTo, k) <==> Everywhere(samples[..i], k) && k in s.metadata;
      }
    }
    assert samples[..|samples|] == samples;
  }

  method FindConstantMetadataKeys(samples: seq<Sample>) returns (keys: set<string>)
    ensures keys == ConstantKeys(samples)
  {
    var kept := CollectValues(samples);
    var marked := MarkMissing(samples, kept);
    keys := set k | k in marked && |marked[k]| == 1 && Nothing !in marked[k];
    forall k ensures k in keys <==> k in ConstantKeys(samples) {
      assert Collected(samples, k, kept) && Marked(samples, k, kept, marked);
      ConstantWhenMarked(samples, k, kept, marked);
      InConstantKeys(samples, k);
    }
  }

  // ----- The summary -----

  function Restrict(meta: Metadata, keys: set<string>): Metadata {
    map k | k in meta && k in keys :: meta[k]
  }

  function Without(meta: Metadata, keys: set<string>): Metadata {
    map k | k in meta && k !in keys :: meta[k]
  }

  function ByTest(): (Sample, Sample) -> bool {
    (a: Sample, b: Sample) => StringLe(a.test, b.test)
  }

  function HasTest(test: string): Sample -> bool {
    (s: Sample) => s.test == test
  }

  function NotEndToEnd(): Sample -> bool {
    (s: Sample) => s.metric != "End to End Runtime"
  }

  /** The samples of one test, in the order in which they were published. */
  function Group(samples: seq<Sample>, test: string): seq<Sample> {
    Filter(samples, HasTest(test))
  }

  /** Constant among the samples of the test other than the end-to-end one, and not everywhere. */
  ghost function LocalKeys(samples: seq<Sample>, test: string): set<string> {
    ConstantKeys(Filter(Group(samples, test), NotEndToEnd())) - ConstantKeys(samples)
  }

  function LineOf(s: Sample, keys: set<string>): Line {
    Line(s.metric, s.value, s.unit, Without(s.metadata, keys))
  }

  ghost predicate IsSection(samples: seq<Sample>, section: Section) {
    var group, keys := Group(samples, section.test), LocalKeys(samples, section.test);
    && group != []
    && section.benchmarkMeta == Restrict(group[0].metadata, keys)
    && |section.lines| == |group|
    && forall j :: 0 <= j < |group| ==> section.lines[j] == LineOf(group[j], ConstantKeys(samples) + keys)
  }

  /** One section a test, in the order of the tests. */
  ghost predicate IsSummary(samples: seq<Sample>, sections: seq<Section>) {
    InOrder(sections) && AllListed(samples, sections) && AllSections(samples, sections)
  }

  ghost predicate InOrder(sections: seq<Section>) {
    forall i, j :: 0 <= i < j < |sections| ==> Before(sections[i].test, sections[j].test)
  }

  ghost predicate Lists(sections: seq<Section>, test: string) {
    exists i :: 0 <= i < |sections| && sections[i].test == test
  }

  ghost predicate AllListed(passed: seq<Sample>, sections: seq<Section>) {
    forall s :: s in passed ==> Lists(sections, s.test)
  }

  /** The summary of at least one sample. */
  ghost predicate IsReport(samples: seq<Sample>, report: Report) {
    && IsSummary(samples, report.sections)
    && Sort(samples, ByTest()) != []
    && report.globalMeta == Some(Restrict(Sort(samples, ByTest())[0].metadata, ConstantKeys(samples)))
  }

  predicate Before(a: string, b: string) {
    a != b && StringLe(a, b)
  }

  lemma ByTestIsTotal()
    ensures TotalPreorder(ByTest())
  {
    forall a: Sample, b: Sample ensures ByTest()(a, b) || ByTest()(b, a) {
      StringLeTotal(a.test, b.test);
    }
    forall a: Sample, b: Sample, c: Sample | ByTest()(a, b) && ByTest()(b, c) ensures ByTest()(a, c) {
      StringLeTransitive(a.test, b.test, c.test);
    }
  }

  /** The order of the samples does not matter to the constant keys. */
  lemma ConstantOfSorted(samples: seq<Sample>, sorted: seq<Sample>)
    requires forall s :: s in samples <==> s in sorted
    ensures ConstantKeys(samples) == ConstantKeys(sorted)
  {
    forall k ensures k in ConstantKeys(samples) <==> k in ConstantKeys(sorted) {
      InConstantKeys(samples, k);
      InConstantKeys(sorted, k);
      assert Seen(samples, k) == Seen(sorted, k);
    }
  }

  lemma BeforeTheRun(sorted: seq<Sample>, i: nat, k: nat)
    requires SortedBy(ByTest(), sorted) && k < i < |sorted| && sorted[i - 1].test != sorted[i].test
    ensures Before(sorted[k].test, sorted[i].test)
  {
    assert ByTest()(sorted[i - 1], sorted[i]) && (k < i - 1 ==> ByTest()(sorted[k], sorted[i - 1]));
    assert ByTest()(sorted[k], sorted[i]);
    StringLeTotal(sorted[i].test, sorted[i - 1].test);
  }

  lemma AfterTheRun(sorted: seq<Sample>, i: nat, j: nat, k: nat)
    requires SortedBy(ByTest(), sorted) && i < j <= k < |sorted| && sorted[j].test != sorted[i].test
    ensures sorted[k].test != sorted[i].test
  {
    assert ByTest()(sorted[i], sorted[j]) && (j < k ==> ByTest()(sorted[j], sorted[k]));
    StringLeTotal(sorted[i].test, sorted[j].test);
  }

  /** A maximal run of one test in the sorted samples is the whole group. */
  lemma RunIsGroup(sorted: seq<Sample>, i: nat, j: nat, test: string)
    requires SortedBy(ByTest(), sorted) && IsRun(sorted, i, j, test)
    ensures Group(sorted, test) == sorted[i..j]
    ensures forall k :: 0 <= k < i ==> Before(sorted[k].test, test)
  {
    forall k | 0 <= k < i ensures Before(sorted[k].test, test) {
      BeforeTheRun(sorted, i, k);
    }
    forall k | j <= k < |sorted| ensures sorted[k].test != test {
      AfterTheRun(sorted, i, j, k);
    }
    assert sorted == sorted[..i] + sorted[i..j] + sorted[j..];
    FilterMiddle(sorted[..i], sorted[i..j], sorted[j..], HasTest(test));
  }

  lemma GroupOfSorted(samples: seq<Sample>, test: string)
    ensures Group(Sort(samples, ByTest()), test) == Group(samples, test)
  {
    forall a: Sample, b: Sample | HasTest(test)(a) && HasTest(test)(b) ensures ByTest()(a, b) {
      StringLeTotal(test, test);
    }
    SortStable(samples, ByTest(), HasTest(test));
  }

  /** The section of one group, given all its samples and the keys that are constant everywhere. */
  method PrintGroup(test: string, group: seq<Sample>, globallyConstant: set<string>, ghost samples: seq<Sample>)
    returns (section: Section)
    requires group == Group(samples, test) != [] && globallyConstant == ConstantKeys(samples)
    ensures section.test == test && IsSection(samples, section)
  {
    var constant := FindConstantMetadataKeys(Filter(group, NotEndToEnd()));
    var locallyConstant := constant - globallyConstant;
    var allConstant := globallyConstant + locallyConstant;
    var lines := [];
    for j := 0 to |group|
      invariant |lines| == j
      invariant forall k :: 0 <= k < j ==> lines[k] == LineOf(group[k], allConstant)
    {
      lines := lines + [LineOf(group[j], allConstant)];
    }
    section := Section(test, Restrict(group[0].metadata, locallyConstant), lines);
  }

  method PublishSamples(samples: seq<Sample>) returns (report: Report)
    ensures samples == [] ==> report == Report([], None)
    ensures samples != [] ==> IsReport(samples, report)
  {
    if samples == [] {
      return Report([], None);
    }
    var sorted := Sort(samples, ByTest());
    SortContents(samples, ByTest());
    ConstantOfSorted(samples, sorted);
    var globallyConstant := FindConstantMetadataKeys(sorted);
    var sections := PrintGroups(samples, sorted, globallyConstant);
    report := Report(sections, Some(Restrict(sorted[0].metadata, globallyConstant)));
  }

  /** The loop over the runs of equal tests. */
  method PrintGroups(ghost samples: seq<Sample>, sorted: seq<Sample>, globallyConstant: set<string>)
    returns (sections: seq<Section>)
    requires sorted == Sort(samples, ByTest()) && globallyConstant == ConstantKeys(samples)
    ensures IsSummary(samples, sections)
  {
    sections := [];
    var i := 0;
    while i < |sorted|
      invariant Printing(samples, sorted, i, sections)
    {
      var test, group, j := NextRun(sorted, i);
      RunIsGroupOf(samples, sorted, i, j, test);
      var section := PrintGroup(test, group, globallyConstant, samples);
      PrintingStep(samples, sorted, i, j, sections, section);
      sections := sections + [section];
      i := j;
    }
    PrintingEnds(samples, sorted, sections);
  }

  /** The sections of the tests of the first i samples are there. */
  ghost predicate Printing(samples: seq<Sample>, sorted: seq<Sample>, i: nat, sections: seq<Section>) {
    && i <= |sorted|
    && (0 < i < |sorted| ==> sorted[i - 1].test != sorted[i].test)
    && Listed(sorted[..i], sections)
    && AllSections(samples, sections)
  }

  ghost predicate IsRun(sorted: seq<Sample>, i: nat, j: nat, test: string) {
    && i < j <= |sorted|
    && (forall k :: i <= k < j ==> sorted[k].test == test)
    && (i > 0 ==> sorted[i - 1].test != test)
    && (j < |sorted| ==> sorted[j].test != test)
  }

  lemma RunIsGroupOf(samples: seq<Sample>, sorted: seq<Sample>, i: nat, j: nat, test: string)
    requires sorted == Sort(samples, ByTest()) && IsRun(sorted, i, j, test)
    ensures sorted[i..j] == Group(samples, test)
    ensures forall k :: 0 <= k < i ==> Before(sorted[k].test, test)
  {
    ByTestIsTotal();
    SortSorted(samples, ByTest());
    RunIsGroup(sorted, i, j, test);
    GroupOfSorted(samples, test);
  }

  lemma PrintingStep(
      samples: seq<Sample>, sorted: seq<Sample>, i: nat, j: nat, sections: seq<Section>, section: Section)
    requires Printing(samples, sorted, i, sections) && IsRun(sorted, i, j, section.test)
    requires IsSection(samples, section)
    requires forall k :: 0 <= k < i ==> Before(sorted[k].test, section.test)
    ensures Printing(samples, sorted, j, sections + [section])
  {
    RunMembers(sorted, i, j, section.test);
    ListedOneMore(sorted[..i], sorted[i..j], sections, section);
    SectionsOneMore(samples, sections, section);
  }

  lemma RunMembers(sorted: seq<Sample>, i: nat, j: nat, test: string)
    requires IsRun(sorted, i, j, test) && forall k :: 0 <= k < i ==> Before(sorted[k].test, test)
    ensures sorted[..j] == sorted[..i] + sorted[i..j] && sorted[i..j] != []
    ensures forall s :: s in sorted[i..j] ==> s.test == test
    ensures forall s :: s in sorted[..i] ==> Before(s.test, test)
    ensures 0 < j < |sorted| ==> sorted[j - 1].test != sorted[j].test
  {
  }

  lemma PrintingEnds(samples: seq<Sample>, sorted: seq<Sample>, sections: seq<Section>)
    requires sorted == Sort(samples, ByTest()) && Printing(samples, sorted, |sorted|, sections)
    ensures IsSummary(samples, sections)
  {
    SortContents(samples, ByTest());
    assert sorted[..|sorted|] == sorted;
  }

  /** The run of equal tests that begins at i, and where it ends. */
  method NextRun(sorted: seq<Sample>, i: nat) returns (test: string, group: seq<Sample>, j: nat)
    requires i < |sorted| && (i > 0 ==> sorted[i - 1].test != sorted[i].test)
    ensures IsRun(sorted, i, j, test) && group == sorted[i..j]
  {
    test, group, j := sorted[i].test, [sorted[i]], i + 1;
    while j < |sorted| && sorted[j].test == test
      invariant i < j <= |sorted| && group == sorted[i..j]
      invariant forall k :: i <= k < j ==> sorted[k].test == test
    {
      group := group + [sorted[j]];
      j := j + 1;
    }
  }

  /** The sections list exactly the tests of these samples, in order and once. */
  ghost predicate Listed(passed: seq<Sample>, sections: seq<Section>) {
    && InOrder(sections) && AllListed(passed, sections)
    && forall i :: 0 <= i < |sections| ==> IsTestOf(passed, sections[i].test)
  }

  ghost predicate IsTestOf(passed: seq<Sample>, test: string) {
    exists s :: s in passed && s.test == test
  }

  ghost predicate AllSections(samples: seq<Sample>, sections: seq<Section>) {
    forall i :: 0 <= i < |sections| ==> IsSection(samples, sections[i])
  }

  lemma SectionsOneMore(samples: seq<Sample>, sections: seq<Section>, section: Section)
    requires AllSections(samples, sections) && IsSection(samples, section)
    ensures AllSections(samples, sections + [section])
  {
  }

  lemma InOrderOneMore(passed: seq<Sample>, sections: seq<Section>, section: Section)
    requires Listed(passed, sections) && forall s :: s in passed ==> Before(s.test, section.test)
    ensures InOrder(sections + [section])
  {
    forall a | 0 <= a < |sections| ensures Before(sections[a].test, section.test) {
      assert IsTestOf(passed, sections[a].test);
    }
  }

  lemma ListsOneMore(passed: seq<Sample>, sections: seq<Section>, section: Section, s: Sample)
    requires AllListed(passed, sections) && (s in passed || s.test == section.test)
    ensures Lists(sections + [section], s.test)
  {
    var sections' := sections + [section];
    if s in passed {
      assert Lists(sections, s.test);
      var a :| 0 <= a < |sections| && sections[a].test == s.test;
      assert sections'[a].test == s.test;
    } else {
      assert sections'[|sections|].test == s.test;
    }
  }

  lemma ListedOneMore(passed: seq<Sample>, run: seq<Sample>, sections: seq<Section>, section: Section)
    requires Listed(passed, sections) && run != []
    requires forall s :: s in run ==> s.test == section.test
    requires forall s :: s in passed ==> Before(s.test, section.test)
    ensures Listed(passed + run, sections + [section])
  {
    InOrderOneMore(passed, sections, section);
    forall s | s in passed + run ensures Lists(sections + [section], s.test) {
      ListsOneMore(passed, sections, section, s);
    }
    forall a | 0 <= a < |sections| + 1 ensures IsTestOf(passed + run, (sections + [section])[a].test) {
      if a < |sections| {
        assert IsTestOf(passed, sections[a].test);
      } else {
        assert run[0] in passed + run;
      }
    }
  }

  // ----- Nothing is lost -----

  /** A sample put together again from the three places. */
  function Rebuilt(test: string, line: Line, benchmarkMeta: Metadata, globalMeta: Metadata): Sample {
    Sample(test, line.metric, line.value, line.unit, globalMeta + benchmarkMeta + line.meta)
  }

  /** Of any metadata: the three parts give the sample back exactly when the sample agrees with the first one of
      all on the global keys and with the first of its group on the local ones. */
  lemma RebuiltIff(s: Sample, globalKeys: set<string>, localKeys: set<string>, first: Metadata, firstOfGroup: Metadata)
    requires globalKeys !! localKeys
    ensures Rebuilt(s.test, LineOf(s, globalKeys + localKeys),
                    Restrict(firstOfGroup, localKeys), Restrict(first, globalKeys)) == s
      <==> Restrict(first, globalKeys) == Restrict(s.metadata, globalKeys)
           && Restrict(firstOfGroup, localKeys) == Restrict(s.metadata, localKeys)
  {
    var rest := Without(s.metadata, globalKeys + localKeys);
    var merged := Restrict(first, globalKeys) + Restrict(firstOfGroup, localKeys) + rest;
    assert Restrict(merged, globalKeys) == Restrict(first, globalKeys);
    assert Restrict(merged, localKeys) == Restrict(firstOfGroup, localKeys);
    assert s.metadata == Restrict(s.metadata, globalKeys) + Restrict(s.metadata, localKeys) + rest;
  }

  lemma ConstantAgrees(samples: seq<Sample>, a: Sample, b: Sample)
    requires AllHashable(samples) && a in samples && b in samples
    ensures Restrict(a.metadata, ConstantKeys(samples)) == Restrict(b.metadata, ConstantKeys(samples))
  {
    forall k | k in ConstantKeys(samples) ensures k in a.metadata && k in b.metadata && a.metadata[k] == b.metadata[k] {
      InConstantKeys(samples, k);
      ConstantIff(samples, k);
    }
  }

  lemma LocalAgrees(samples: seq<Sample>, test: string, a: Sample, b: Sample)
    requires AllHashable(samples) && a in Group(samples, test) && b in Group(samples, test)
    requires NotEndToEnd()(a) && NotEndToEnd()(b)
    ensures Restrict(a.metadata, LocalKeys(samples, test)) == Restrict(b.metadata, LocalKeys(samples, test))
  {
    var group := Group(samples, test);
    FilterContents(samples, HasTest(test));
    FilterContents(group, NotEndToEnd());
    var others := Filter(group, NotEndToEnd());
    ConstantAgrees(others, a, b);
    forall k | k in LocalKeys(samples, test)
      ensures (k in a.metadata <==> k in b.metadata) && (k in a.metadata ==> a.metadata[k] == b.metadata[k])
    {
      var keys := ConstantKeys(others);
      assert k in a.metadata <==> k in Restrict(a.metadata, keys);
      assert k in b.metadata <==> k in Restrict(b.metadata, keys);
    }
  }

  /** The sample that line j of a section gives back. */
  ghost function FromSummary(report: Report, section: Section, j: nat): Sample
    requires report.globalMeta.Some? && j < |section.lines|
  {
    Rebuilt(section.test, section.lines[j], section.benchmarkMeta, report.globalMeta.value)
  }

  /** Whatever the metadata: when line j of a section gives back the j-th sample of its test. */
  lemma GivenBackIff(samples: seq<Sample>, report: Report, i: nat, j: nat)
    requires IsReport(samples, report) && i < |report.sections| && j < |report.sections[i].lines|
    ensures var section := report.sections[i];
      var group, first := Group(samples, section.test), Sort(samples, ByTest())[0];
      && |group| == |section.lines|
      && (FromSummary(report, section, j) == group[j]
          <==> Restrict(first.metadata, ConstantKeys(samples)) == Restrict(group[j].metadata, ConstantKeys(samples))
               && Restrict(group[0].metadata, LocalKeys(samples, section.test))
                  == Restrict(group[j].metadata, LocalKeys(samples, section.test)))
  {
    var section := report.sections[i];
    assert IsSection(samples, section);
    var group, first := Group(samples, section.test), Sort(samples, ByTest())[0];
    FilterContents(samples, HasTest(section.test));
    assert group[j] in group;
    RebuiltIff(group[j], ConstantKeys(samples), LocalKeys(samples, section.test), first.metadata, group[0].metadata);
  }

  /** Of hashable metadata: only the first sample of the test matters, and nothing is lost from the other samples
      unless that one is the end-to-end one. */
  lemma NothingIsLost(samples: seq<Sample>, report: Report, i: nat, j: nat)
    requires IsReport(samples, report) && i < |report.sections| && j < |report.sections[i].lines|
    requires AllHashable(samples)
    ensures var section := report.sections[i];
      var group, keys := Group(samples, section.test), LocalKeys(samples, section.test);
      && |group| == |section.lines|
      && (FromSummary(report, section, j) == group[j]
          <==> Restrict(group[0].metadata, keys) == Restrict(group[j].metadata, keys))
      && (NotEndToEnd()(group[0]) && NotEndToEnd()(group[j]) ==> FromSummary(report, section, j) == group[j])
  {
    var section := report.sections[i];
    assert IsSection(samples, section);
    GivenBackIff(samples, report, i, j);
    var group, first := Group(samples, section.test), Sort(samples, ByTest())[0];
    SortContents(samples, ByTest());
    FilterContents(samples, HasTest(section.test));
    assert group[j] in group && group[0] in group && first in Sort(samples, ByTest());
    ConstantAgrees(samples, first, group[j]);
    if NotEndToEnd()(group[0]) && NotEndToEnd()(group[j]) {
      LocalAgrees(samples, section.test, group[0], group[j]);
    }
  }

  /** Where the test begins with an end-to-end sample without metadata, the other samples are given back exactly when
      they have nothing to share but what all samples share. */
  lemma EndToEndFirst(samples: seq<Sample>, report: Report, i: nat, j: nat)
    requires IsReport(samples, report) && i < |report.sections| && j < |report.sections[i].lines|
    requires AllHashable(samples)
    requires Group(samples, report.sections[i].test) != []
    requires Group(samples, report.sections[i].test)[0].metadata == map[]
    ensures var section := report.sections[i];
      && |Group(samples, section.test)| == |section.lines|
      && var s := Group(samples, section.test)[j];
      NotEndToEnd()(s) ==> (FromSummary(report, section, j) == s <==> LocalKeys(samples, section.test) == {})
  {
    NothingIsLost(samples, report, i, j);
    var section := report.sections[i];
    var group, keys := Group(samples, section.test), LocalKeys(samples, section.test);
    var s := group[j];
    if NotEndToEnd()(s) {
      FilterContents(group, NotEndToEnd());
      var others := Filter(group, NotEndToEnd());
      assert s in others;
      forall k | k in keys ensures k in Restrict(s.metadata, keys) {
        InConstantKeys(others, k);
      }
    }
  }

  /** Some of the samples are chosen, and all of these have the key with the same value, not None. */
  ghost predicate IsShared(samples: seq<Sample>, chosen: Sample -> bool, k: string) {
    exists s :: s in samples && chosen(s) && IsSharedAs(samples, chosen, k, s)
  }

  ghost predicate IsSharedAs(samples: seq<Sample>, chosen: Sample -> bool, k: string, s: Sample) {
    && k in s.metadata && s.metadata[k] != Nothing
    && forall t :: t in samples && chosen(t) ==> k in t.metadata && t.metadata[k] == s.metadata[k]
  }

  lemma ConstantIsShared(samples: seq<Sample>, chosen: Sample -> bool, k: string)
    requires AllHashable(samples)
    ensures k in ConstantKeys(Filter(samples, chosen)) <==> IsShared(samples, chosen, k)
  {
    var those := Filter(samples, chosen);
    FilterContents(samples, chosen);
    InConstantKeys(those, k);
    if those != [] {
      assert those[0] in those;
      ConstantIff(those, k);
      if IsConstant(those, k) {
        assert IsSharedAs(samples, chosen, k, those[0]);
      }
    }
    if s :| s in samples && chosen(s) && IsSharedAs(samples, chosen, k, s) {
      assert s in those;
    }
  }

  /** Of hashable metadata: what is printed for all tests are the keys that all samples share, and what is printed for
      a test are the other keys that its samples share, the end-to-end one aside. */
  lemma KeysPrintedOnce(samples: seq<Sample>, test: string, k: string)
    requires AllHashable(samples)
    ensures k in ConstantKeys(samples) <==> IsShared(samples, (s: Sample) => true, k)
    ensures k in LocalKeys(samples, test)
      <==> && IsShared(samples, (s: Sample) => s.test == test && s.metric != "End to End Runtime", k)
           && !IsShared(samples, (s: Sample) => true, k)
  {
    FilterAll(samples, (s: Sample) => true);
    ConstantIsShared(samples, (s: Sample) => true, k);
    FilterContents(samples, HasTest(test));
    ConstantIsShared(Group(samples, test), NotEndToEnd(), k);
    SharedInGroup(samples, test, (s: Sample) => s.test == test && s.metric != "End to End Runtime", k);
  }

  lemma SharedInGroup(samples: seq<Sample>, test: string, chosen: Sample -> bool, k: string)
    requires forall s :: chosen(s) <==> s.test == test && s.metric != "End to End Runtime"
    ensures IsShared(Group(samples, test), NotEndToEnd(), k) <==> IsShared(samples, chosen, k)
  {
    var group := Group(samples, test);
    FilterContents(samples, HasTest(test));
    if s :| s in group && NotEndToEnd()(s) && IsSharedAs(group, NotEndToEnd(), k, s) {
      assert s in samples && chosen(s) && IsSharedAs(samples, chosen, k, s);
    }
    if s :| s in samples && chosen(s) && IsSharedAs(samples, chosen, k, s) {
      assert s in group && NotEndToEnd()(s) && IsSharedAs(group, NotEndToEnd(), k, s);
    }
  }

  /** A key of a sample is in its line exactly when it is printed neither for its test nor for all. */
  lemma KeysOfLines(samples: seq<Sample>, report: Report, i: nat, j: nat, k: string)
    requires IsReport(samples, report) && i < |report.sections| && j < |report.sections[i].lines|
    ensures var section := report.sections[i];
      var group := Group(samples, section.test);
      && |group| == |section.lines|
      && (k in section.lines[j].meta
          <==> && k in group[j].metadata && k !in ConstantKeys(samples) && k !in LocalKeys(samples, section.test))
      && (k in section.benchmarkMeta <==> k in group[0].metadata && k in LocalKeys(samples, section.test))
      && (k in report.globalMeta.value <==>
            k in Sort(samples, ByTest())[0].metadata && k in ConstantKeys(samples))
  {
    assert IsSection(samples, report.sections[i]);
  }

  /** So it happens: the end-to-end sample comes first, and the other one's metadata is in no place. */
  lemma EndToEndFirstLoses(a: Atom, test: string, metric: string, unit: string, k: string, report: Report, i: nat)
    requires metric != "End to End Runtime"
    requires IsReport(EndToEndAndOther(a, test, metric, unit, k), report) && i < |report.sections|
    ensures |report.sections[i].lines| == 2
    ensures FromSummary(report, report.sections[i], 1) != EndToEndAndOther(a, test, metric, unit, k)[1]
  {
    var samples := EndToEndAndOther(a, test, metric, unit, k);
    var section := report.sections[i];
    assert IsSection(samples, section);
    FilterContents(samples, HasTest(section.test));
    assert Group(samples, section.test)[0] in samples;
    OneGroup(a, test, metric, unit, k);
    KeyIsLocal(a, test, metric, unit, k);
    EndToEndFirst(samples, report, i, 1);
  }

  lemma OneGroup(a: Atom, test: string, metric: string, unit: string, k: string)
    ensures var samples := EndToEndAndOther(a, test, metric, unit, k);
      Group(samples, test) == samples && AllHashable(samples)
  {
    FilterAll(EndToEndAndOther(a, test, metric, unit, k), HasTest(test));
  }

  lemma KeyIsLocal(a: Atom, test: string, metric: string, unit: string, k: string)
    requires metric != "End to End Runtime"
    ensures k in LocalKeys(EndToEndAndOther(a, test, metric, unit, k), test)
  {
    var samples := EndToEndAndOther(a, test, metric, unit, k);
    var endToEnd, others := [samples[0]], [samples[1]];
    OneGroup(a, test, metric, unit, k);
    assert samples == endToEnd + others;
    FilterConcat(endToEnd, others, NotEndToEnd());
    FilterNone(endToEnd, NotEndToEnd());
    FilterAll(others, NotEndToEnd());
    assert Seen(others, k) == {Plain(a)} by { assert samples[1] in others; }
    InConstantKeys(others, k);
    InConstantKeys(samples, k);
    assert samples[0] in samples && k !in samples[0].metadata;
  }

  function EndToEndAndOther(a: Atom, test: string, metric: string, unit: string, k: string): seq<Sample> {
    [Sample(test, "End to End Runtime", 0.0, "seconds", map[]), Sample(test, metric, 0.0, unit, map[k := Plain(a)])]
  }

  /** A constant key has one value in all samples exactly when none of its values is unhashable. */
  lemma ConstantAgreesIff(samples: seq<Sample>, k: string)
    requires k in ConstantKeys(samples)
    ensures forall s :: s in samples ==> k in s.metadata
    ensures (forall s, t :: s in samples && t in samples ==> s.metadata[k] == t.metadata[k])
      <==> forall s :: s in samples ==> !s.metadata[k].Unhashable?
  {
    InConstantKeys(samples, k);
    var a :| Seen(samples, k) == {Plain(a)};
    assert Plain(a) in Seen(samples, k);
    var plain :| plain in samples && plain.metadata[k] == Plain(a);
    forall s | s in samples && !s.metadata[k].Unhashable? ensures s.metadata[k] == plain.metadata[k] {
      assert s.metadata[k] in Seen(samples, k);
    }
  }

  /** An unhashable value does not keep a key from counting as constant. */
  lemma UnhashableHidesAnother(a: Atom, b: Atom, test: string, metric: string, unit: string, k: string)
    ensures k in ConstantKeys([Sample(test, metric, 0.0, unit, map[k := Unhashable(a)]),
                               Sample(test, metric, 0.0, unit, map[k := Plain(b)])])
  {
    var samples := [Sample(test, metric, 0.0, unit, map[k := Unhashable(a)]),
                    Sample(test, metric, 0.0, unit, map[k := Plain(b)])];
    assert samples[1] in samples;
    assert Seen(samples, k) == {Plain(b)};
    InConstantKeys(samples, k);
  }
}
