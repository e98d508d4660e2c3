/** The conditions on results under which the teardown of resources is skipped. */
module TeardownConditions {
  import opened Wrappers

  datatype Direction = Above | Below

  /** One entry of the flag, such as metric>threshold. */
  datatype Condition = Condition(metric: string, direction: Direction, threshold: real)

  datatype Bounds = Bounds(lower: Option<real>, upper: Option<real>)

  datatype Sample = Sample(metric: string, value: real)

  // ---------------------------------------------------------------------------------------------
  // Merging the conditions

  ghost predicate IsLeastAbove(conditions: set<Condition>, metric: string, bound: Option<real>) {
    if bound.None? then forall t :: Condition(metric, Above, t) !in conditions
    else
      && Condition(metric, Above, bound.value) in conditions
      && forall t :: Condition(metric, Above, t) in conditions ==> bound.value <= t
  }

  ghost predicate IsGreatestBelow(conditions: set<Condition>, metric: string, bound: Option<real>) {
    if bound.None? then forall t :: Condition(metric, Below, t) !in conditions
    else
      && Condition(metric, Below, bound.value) in conditions
      && forall t :: Condition(metric, Below, t) in conditions ==> t <= bound.value
  }

  ghost predicate Mentions(conditions: set<Condition>, metric: string) {
    exists c :: c in conditions && c.metric == metric
  }

  /** Every metric mentioned has the least of its > thresholds and the greatest of its < thresholds. */
  ghost predicate IsMerged(conditions: set<Condition>, merged: map<string, Bounds>) {
    && (forall metric :: metric in merged <==> Mentions(conditions, metric))
    && (forall metric :: metric in merged ==>
          && IsLeastAbove(conditions, metric, merged[metric].lower)
          && IsGreatestBelow(conditions, metric, merged[metric].upper))
  }

  function ConditionsOf(conditions: seq<Option<Condition>>): (r: set<Condition>)
    ensures forall c :: c in r <==> Some(c) in conditions
  {
    if conditions == [] then {}
    else
      assert conditions == conditions[..|conditions| - 1] + [conditions[|conditions| - 1]];
      var last := conditions[|conditions| - 1];
      ConditionsOf(conditions[..|conditions| - 1]) + if last.Some? then {last.value} else {}
  }

  lemma MergeOne(conditions: set<Condition>, merged: map<string, Bounds>, c: Condition, bounds: Bounds)
    requires IsMerged(conditions, merged)
    requires var prior := if c.metric in merged then merged[c.metric] else Bounds(None, None);
      && bounds.lower == (
           if c.direction == Above && (prior.lower.None? || c.threshold < prior.lower.value) then Some(c.threshold)
           else prior.lower)
      && bounds.upper == (
           if c.direction == Below && (prior.upper.None? || c.threshold > prior.upper.value) then Some(c.threshold)
           else prior.upper)
    ensures IsMerged(conditions + {c}, merged[c.metric := bounds])
  {
    var all, merged' := conditions + {c}, merged[c.metric := bounds];
    if c.metric !in merged {
      assert forall d, t :: Condition(c.metric, d, t) in conditions ==> Mentions(conditions, c.metric);
    }
    forall metric ensures metric in merged' <==> Mentions(all, metric) {
      if metric in merged {
        var d :| d in conditions && d.metric == metric;
        assert d in all;
      } else if metric == c.metric {
        assert c in all;
      }
    }
  }

  /** An entry that is not of the right form is None, and makes the parse fail. */
  method ParseSkipTeardownConditions(conditions: seq<Option<Condition>>) returns (r: Option<map<string, Bounds>>)
    ensures r.None? <==> None in conditions
    ensures r.Some? ==> IsMerged(ConditionsOf(conditions), r.value)
  {
    var parsed: map<string, Bounds> := map[];
    for i := 0 to |conditions|
      invariant None !in conditions[..i]
      invariant IsMerged(ConditionsOf(conditions[..i]), parsed)
    {
      assert conditions[..i + 1] == conditions[..i] + [conditions[i]];
      if conditions[i].None? {
        return None;
      }
      var c := conditions[i].value;
      var lowerBound := if c.direction == Above then Some(c.threshold) else None;
      var upperBound := if c.direction == Below then Some(c.threshold) else None;
      ghost var before := parsed;
      if c.metric !in parsed {
        parsed := parsed[c.metric := Bounds(lowerBound, upperBound)];
        MergeOne(ConditionsOf(conditions[..i]), before, c, parsed[c.metric]);
        continue;
      }
      var bounds := parsed[c.metric];
      if lowerBound.Some? && (bounds.lower.None? || lowerBound.value < bounds.lower.value) {
        parsed := parsed[c.metric := parsed[c.metric].(lower := lowerBound)];
      }
      if upperBound.Some? && (bounds.upper.None? || upperBound.value > bounds.upper.value) {
        parsed := parsed[c.metric := parsed[c.metric].(upper := upperBound)];
      }
      MergeOne(ConditionsOf(conditions[..i]), before, c, parsed[c.metric]);
      assert parsed == before[c.metric := parsed[c.metric]];
    }
    assert conditions[..|conditions|] == conditions;
    return Some(parsed);
  }

  /** The merged bounds depend only on the set of conditions, not on their order or number. */
  lemma MergedIsUnique(conditions: set<Condition>, m1: map<string, Bounds>, m2: map<string, Bounds>)
    requires IsMerged(conditions, m1) && IsMerged(conditions, m2)
    ensures m1 == m2
  {
    assert m1.Keys == m2.Keys;
    forall metric | metric in m1 ensures m1[metric] == m2[metric] {
      var a, b := m1[metric], m2[metric];
      assert a.lower.Some? ==> Condition(metric, Above, a.lower.value) in conditions;
      assert b.lower.Some? ==> Condition(metric, Above, b.lower.value) in conditions;
      assert a.upper.Some? ==> Condition(metric, Below, a.upper.value) in conditions;
      assert b.upper.Some? ==> Condition(metric, Below, b.upper.value) in conditions;
    }
  }

  // ---------------------------------------------------------------------------------------------
  // Matching a sample

  predicate MetricMeetsConditions(sample: Sample, conditions: map<string, Bounds>) {
    if sample.metric !in conditions then false
    else
      var lower, upper := conditions[sample.metric].lower, conditions[sample.metric].upper;
      var lowerSatisfied := lower.Some? && sample.value > lower.value;
      var upperSatisfied := upper.Some? && sample.value < upper.value;
      if lowerSatisfied && upperSatisfied then true
      else if lower.Some? && upper.Some? && lower.value < upper.value then false
      else lowerSatisfied || upperSatisfied
  }

  ghost predicate HoldsAbove(conditions: set<Condition>, sample: Sample) {
    exists t :: Condition(sample.metric, Above, t) in conditions && sample.value > t
  }

  ghost predicate HoldsBelow(conditions: set<Condition>, sample: Sample) {
    exists t :: Condition(sample.metric, Below, t) in conditions && sample.value < t
  }

  /** Some > threshold of the metric lies below some < threshold of it. */
  ghost predicate FormsInterval(conditions: set<Condition>, metric: string) {
    exists t, u :: Condition(metric, Above, t) in conditions && Condition(metric, Below, u) in conditions && t < u
  }

  /** A sample matches when one of its > conditions holds and one of its < conditions holds, if the thresholds
      form an interval, and when either holds, if they do not. */
  lemma MatchesIff(conditions: set<Condition>, merged: map<string, Bounds>, sample: Sample)
    requires IsMerged(conditions, merged)
    ensures MetricMeetsConditions(sample, merged) <==>
      if FormsInterval(conditions, sample.metric)
      then HoldsAbove(conditions, sample) && HoldsBelow(conditions, sample)
      else HoldsAbove(conditions, sample) || HoldsBelow(conditions, sample)
  {
    var metric := sample.metric;
    if metric !in merged {
      assert forall d, t :: Condition(metric, d, t) in conditions ==> Mentions(conditions, metric);
    } else {
      var bounds := merged[metric];
      assert bounds.lower.Some? ==> Condition(metric, Above, bounds.lower.value) in conditions;
      assert bounds.upper.Some? ==> Condition(metric, Below, bounds.upper.value) in conditions;
      assert HoldsAbove(conditions, sample) <==> bounds.lower.Some? && sample.value > bounds.lower.value;
      assert HoldsBelow(conditions, sample) <==> bounds.upper.Some? && sample.value < bounds.upper.value;
    }
  }

  // ---------------------------------------------------------------------------------------------
  // The decision

  /** lingering[i] is the number of machines left behind in the zone of the i-th machine, if known. */
  predicate OverLimit(lingering: seq<Option<int>>, limit: Option<int>) {
    && limit.Some? && limit.value != 0
    && exists i :: 0 <= i < |lingering| && lingering[i].Some? && lingering[i].value + |lingering| > limit.value
  }

  /** The answer of ShouldTeardown for merged conditions. */
  predicate TearsDown(
    merged: map<string, Bounds>, samples: seq<Sample>, lingering: seq<Option<int>>, limit: Option<int>)
  {
    || merged == map[] || OverLimit(lingering, limit)
    || forall s :: s in samples ==> !MetricMeetsConditions(s, merged)
  }

  /** The conditions under which a sample calls for keeping the resources. */
  ghost predicate Meets(conditions: set<Condition>, sample: Sample) {
    if FormsInterval(conditions, sample.metric) then HoldsAbove(conditions, sample) && HoldsBelow(conditions, sample)
    else HoldsAbove(conditions, sample) || HoldsBelow(conditions, sample)
  }

  /** Parsing, matching and deciding together: resources are torn down exactly when there are no conditions, the limit
      is exceeded, or no sample meets the conditions as they were given. */
  lemma DecisionIff(entries: seq<Option<Condition>>, merged: map<string, Bounds>, samples: seq<Sample>,
                    lingering: seq<Option<int>>, limit: Option<int>)
    requires IsMerged(ConditionsOf(entries), merged)
    ensures TearsDown(merged, samples, lingering, limit) <==>
      || ConditionsOf(entries) == {}
      || (limit.Some? && limit.value != 0
          && exists i :: 0 <= i < |lingering| && lingering[i].Some? && lingering[i].value + |lingering| > limit.value)
      || forall s :: s in samples ==> !Meets(ConditionsOf(entries), s)
  {
    var conditions := ConditionsOf(entries);
    forall s | s in samples ensures MetricMeetsConditions(s, merged) <==> Meets(conditions, s) {
      MatchesIff(conditions, merged, s);
    }
    if conditions != {} {
      var c :| c in conditions;
      assert Mentions(conditions, c.metric) && c.metric in merged;
    } else {
      assert forall metric :: !Mentions(conditions, metric);
      assert merged.Keys == {};
    }
  }

  /** So neither the order of the entries nor their repetition matters to the decision. */
  lemma DecisionIgnoresOrder(a: seq<Option<Condition>>, b: seq<Option<Condition>>, m: map<string, Bounds>,
                             n: map<string, Bounds>, samples: seq<Sample>, lingering: seq<Option<int>>,
                             limit: Option<int>)
    requires forall e :: e in a <==> e in b
    requires IsMerged(ConditionsOf(a), m) && IsMerged(ConditionsOf(b), n)
    ensures TearsDown(m, samples, lingering, limit) == TearsDown(n, samples, lingering, limit)
  {
    assert ConditionsOf(a) == ConditionsOf(b);
    MergedIsUnique(ConditionsOf(a), m, n);
  }

  method ShouldTeardown(
    conditions: map<string, Bounds>, samples: seq<Sample>, lingering: seq<Option<int>>, limit: Option<int>)
    returns (teardown: bool)
    ensures teardown <==> TearsDown(conditions, samples, lingering, limit)
    ensures teardown <==>
      || conditions == map[]
      || (limit.Some? && limit.value != 0
          && exists i :: 0 <= i < |lingering| && lingering[i].Some? && lingering[i].value + |lingering| > limit.value)
      || (forall s :: s in samples ==> !MetricMeetsConditions(s, conditions))
  {
    if conditions == map[] {
      return true;
    }
    if limit.Some? && limit.value != 0 {
      for i := 0 to |lingering|
        invariant forall k :: 0 <= k < i ==> lingering[k].None? || lingering[k].value + |lingering| <= limit.value
      {
        if lingering[i].Some? && lingering[i].value + |lingering| > limit.value {
          return true;
        }
      }
    }
    for i := 0 to |samples|
      invariant forall k :: 0 <= k < i ==> !MetricMeetsConditions(samples[k], conditions)
    {
      if MetricMeetsConditions(samples[i], conditions) {
        return false;
      }
    }
    return true;
  }
}
