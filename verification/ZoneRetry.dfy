/** Smart retries: after a failed run the benchmark moves to another zone. */
module ZoneRetry {
  import opened Arithmetic
  import opened Collections

  /** What the cloud says: the zones that support every machine type, and how zones and regions belong together. */
  datatype Cloud = Cloud(supported: set<string>, regionOf: string -> string, zonesIn: string -> set<string>)
  {
    ghost predicate Consistent() {
      forall r, z :: z in zonesIn(r) ==> regionOf(z) == r
    }

    function SupportedRegions(): set<string> {
      set z | z in supported :: regionOf(z)
    }
  }

  const ANY_ZONE := "any"

  /** The zone flag and the two memories of the manager. */
  datatype Memory = Memory(zone: string, zonesTried: set<string>, regionsTried: set<string>)

  datatype Substatus = Quota | Unsupported | InsufficientCapacity | Other

  // ---------------------------------------------------------------------------------------------
  // The steps, as relations: the random choice may fall on anything that is left

  /** A zone is chosen from the possible ones that have not been tried; when none is left the memory is
      cleared and the original zone chosen. */
  ghost predicate Chose(original: string, s: Memory, possible: set<string>, s': Memory) {
    var tried := s.zonesTried + {s.zone};
    && s'.regionsTried == s.regionsTried
    && if possible <= tried then s'.zonesTried == {} && s'.zone == original
       else s'.zonesTried == tried && s'.zone in possible - tried
  }

  /** The retry after a lack of capacity. */
  ghost predicate SameRegionRetry(c: Cloud, original: string, s: Memory, s': Memory) {
    Chose(original, s, c.zonesIn(c.regionOf(original)) * c.supported, s')
  }

  /** The retry after a quota failure, which picks this region. */
  ghost predicate NewRegionRetry(c: Cloud, original: string, s: Memory, region: string, s': Memory) {
    var tried := s.regionsTried + {c.regionOf(s.zone)};
    var left := c.SupportedRegions() - tried;
    if left == {} then
      region == c.regionOf(original) && Chose(original, s.(regionsTried := {}), c.zonesIn(region), s')
    else
      region in left && Chose(original, s.(regionsTried := tried), c.zonesIn(region), s')
  }

  ghost predicate QuotaRetry(c: Cloud, original: string, s: Memory, s': Memory) {
    exists region :: NewRegionRetry(c, original, s, region, s')
  }

  /** The manager. */
  class ZoneRetryManager {
    const cloud: Cloud
    const originalZone: string
    var zone: string
    var zonesTried: set<string>
    var regionsTried: set<string>

    ghost function View(): Memory
      reads this
    {
      Memory(zone, zonesTried, regionsTried)
    }

    /** With zone "any", firstZone is the random choice among the supported zones. */
    constructor (cloud: Cloud, zoneFlag: string, firstZone: string)
      requires zoneFlag == ANY_ZONE ==> firstZone in cloud.supported
      ensures this.cloud == cloud
      ensures originalZone == if zoneFlag == ANY_ZONE then firstZone else zoneFlag
      ensures View() == Memory(originalZone, {}, {})
    {
      this.cloud := cloud;
      this.originalZone := if zoneFlag == ANY_ZONE then firstZone else zoneFlag;
      zone := if zoneFlag == ANY_ZONE then firstZone else zoneFlag;
      zonesTried, regionsTried := {}, {};
    }

    method ChooseAndSetNewZone(possibleZones: set<string>)
      modifies this
      ensures Chose(originalZone, old(View()), possibleZones, View())
    {
      zonesTried := zonesTried + {zone};
      var zonesToTry := possibleZones - zonesTried;
      if zonesToTry == {} {
        assert possibleZones <= zonesTried;
        zonesTried := {};
        zone := originalZone;
      } else {
        var newZone :| newZone in zonesToTry;
        zone := newZone;
      }
    }

    method AssignZoneToSameRegion()
      modifies this
      ensures SameRegionRetry(cloud, originalZone, old(View()), View())
    {
      ChooseAndSetNewZone(cloud.zonesIn(cloud.regionOf(originalZone)) * cloud.supported);
    }

    method AssignZoneToNewRegion()
      modifies this
      ensures QuotaRetry(cloud, originalZone, old(View()), View())
    {
      ghost var before := View();
      regionsTried := regionsTried + {cloud.regionOf(zone)};
      var regionsToTry := cloud.SupportedRegions() - regionsTried;
      var newRegion := cloud.regionOf(originalZone);
      if regionsToTry == {} {
        regionsTried := {};
      } else {
        var untried :| untried in regionsToTry;
        newRegion := untried;
      }
      ChooseAndSetNewZone(cloud.zonesIn(newRegion));
      assert NewRegionRetry(cloud, originalZone, before, newRegion, View());
    }

    method HandleSmartRetries(substatus: Substatus, smartQuota: bool, smartCapacity: bool)
      modifies this
      ensures
        if smartQuota && substatus == Quota then QuotaRetry(cloud, originalZone, old(View()), View())
        else if smartCapacity && substatus in {Unsupported, InsufficientCapacity} then
          SameRegionRetry(cloud, originalZone, old(View()), View())
        else View() == old(View())
    {
      if smartQuota && substatus == Quota {
        AssignZoneToNewRegion();
      } else if smartCapacity && substatus in {Unsupported, InsufficientCapacity} {
        AssignZoneToSameRegion();
      }
    }
  }

  // ---------------------------------------------------------------------------------------------
  // Runs of capacity retries

  ghost predicate StartsFresh(original: string, run: seq<Memory>) {
    run != [] && run[0] == Memory(original, {}, {})
  }

  ghost predicate IsCapacityRun(c: Cloud, original: string, run: seq<Memory>) {
    StartsFresh(original, run)
    && forall i :: 0 <= i < |run| - 1 ==> SameRegionRetry(c, original, run[i], run[i + 1])
  }

  /** The zones that capacity retries can use, the original one included. */
  function Pool(c: Cloud, original: string): set<string> {
    c.zonesIn(c.regionOf(original)) * c.supported + {original}
  }

  /** The zones of the run from position lo up to but not including position hi. */
  function Visited(run: seq<Memory>, lo: nat, hi: nat): (r: set<string>)
    requires hi <= |run|
    ensures forall j :: lo <= j < hi ==> run[j].zone in r
  {
    if hi <= lo then {} else Visited(run, lo, hi - 1) + {run[hi - 1].zone}
  }

  /** In state i, the tried zones are those visited since the last multiple of the pool size. */
  ghost predicate BlockState(c: Cloud, original: string, run: seq<Memory>, i: nat)
    requires i < |run|
  {
    var r := Offset(|Pool(c, original)|, i);
    && run[i].zonesTried == Visited(run, i - r, i)
    && |run[i].zonesTried| == r
    && run[i].zonesTried <= Pool(c, original)
    && run[i].zone in Pool(c, original) - run[i].zonesTried
    && original in run[i].zonesTried + {run[i].zone}
  }

  /** i modulo n, counted up. */
  function Offset(n: nat, i: nat): (r: nat)
    ensures r <= i && (n > 0 ==> r < n)
  {
    if i == 0 then 0 else
      var p := Offset(n, i - 1);
      if n <= p + 1 then 0 else p + 1
  }

  lemma {:induction false} OffsetIsRemainder(n: nat, i: nat)
    requires n > 0
    ensures Offset(n, i) == i % n
  {
    if i > 0 {
      OffsetIsRemainder(n, i - 1);
      NextRemainder(i - 1, n);
    }
  }

  /** A retry either goes on with the block or, when the pool is exhausted, starts a new one. */
  lemma BlockStep(c: Cloud, original: string, s: Memory, s': Memory)
    requires SameRegionRetry(c, original, s, s')
    requires s.zonesTried <= Pool(c, original) && s.zone in Pool(c, original) - s.zonesTried
    requires original in s.zonesTried + {s.zone}
    ensures |s.zonesTried| + 1 <= |Pool(c, original)|
    ensures if |s.zonesTried| + 1 == |Pool(c, original)| then s' == Memory(original, {}, s.regionsTried)
      else s'.zonesTried == s.zonesTried + {s.zone} && s'.zone in Pool(c, original) - s'.zonesTried
  {
    var tried := s.zonesTried + {s.zone};
    SubsetCount(tried, Pool(c, original));
    assert |tried| == |s.zonesTried| + 1;
    assert c.zonesIn(c.regionOf(original)) * c.supported <= tried <==> tried == Pool(c, original);
  }

  lemma {:induction false} CapacityRunState(c: Cloud, original: string, run: seq<Memory>, i: nat)
    requires IsCapacityRun(c, original, run) && i < |run|
    ensures BlockState(c, original, run, i)
  {
    if i > 0 {
      CapacityRunState(c, original, run, i - 1);
      assert SameRegionRetry(c, original, run[i - 1], run[i - 1 + 1]);
      BlockStateStep(c, original, run, i);
    }
  }

  lemma VisitedOneMore(run: seq<Memory>, lo: nat, hi: nat)
    requires lo <= hi < |run|
    ensures Visited(run, lo, hi + 1) == Visited(run, lo, hi) + {run[hi].zone}
  {
  }

  lemma BlockStateStep(c: Cloud, original: string, run: seq<Memory>, i: nat)
    requires 0 < i < |run| && BlockState(c, original, run, i - 1) && SameRegionRetry(c, original, run[i - 1], run[i])
    ensures BlockState(c, original, run, i)
  {
    var n := |Pool(c, original)|;
    var r := Offset(n, i - 1);
    BlockStep(c, original, run[i - 1], run[i]);
    VisitedOneMore(run, i - 1 - r, i - 1);
    if r + 1 < n {
      assert Offset(n, i) == r + 1;
      BlockGoesOn(c, original, run[i - 1], run[i]);
    } else {
      assert Offset(n, i) == 0 && Visited(run, i, i) == {};
    }
  }

  lemma BlockGoesOn(c: Cloud, original: string, s: Memory, s': Memory)
    requires s.zonesTried <= Pool(c, original) && s.zone in Pool(c, original) - s.zonesTried
    requires original in s.zonesTried + {s.zone}
    requires s'.zonesTried == s.zonesTried + {s.zone}
    ensures |s'.zonesTried| == |s.zonesTried| + 1 && s'.zonesTried <= Pool(c, original) && original in s'.zonesTried
  {
  }

  /** Over capacity retries, whatever is chosen, no zone comes back before all have been tried: the zones come
      in blocks, and each block starts with the original zone and is a permutation of the pool. */
  lemma CapacityRetriesGoRoundThePool(c: Cloud, original: string, run: seq<Memory>, b: nat)
    requires IsCapacityRun(c, original, run) && b < |run| && b % |Pool(c, original)| == 0
    ensures var n := |Pool(c, original)|;
      && run[b].zone == original
      && (forall j, k :: b <= j < k < b + n && k < |run| ==> run[j].zone != run[k].zone)
      && (b + n <= |run| ==> Visited(run, b, b + n) == Pool(c, original))
  {
    var n := |Pool(c, original)|;
    OffsetIsRemainder(n, b);
    CapacityRunState(c, original, run, b);
    forall j, k | b <= j < k < b + n && k < |run| ensures run[j].zone != run[k].zone {
      CapacityRunState(c, original, run, k);
      OffsetInBlock(n, b, k);
    }
    if b + n <= |run| {
      CapacityRunState(c, original, run, b + n - 1);
      OffsetInBlock(n, b, b + n - 1);
      SubsetCount(Visited(run, b, b + n), Pool(c, original));
    }
  }

  ghost predicate IsVisited(run: seq<Memory>, lo: nat, hi: nat, zone: string)
    requires hi <= |run|
  {
    exists j :: lo <= j < hi && run[j].zone == zone
  }

  lemma {:induction false} VisitedIff(run: seq<Memory>, lo: nat, hi: nat, zone: string)
    requires hi <= |run|
    ensures zone in Visited(run, lo, hi) <==> IsVisited(run, lo, hi, zone)
    decreases hi
  {
    if lo < hi {
      VisitedIff(run, lo, hi - 1, zone);
      if IsVisited(run, lo, hi - 1, zone) {
        var j :| lo <= j < hi - 1 && run[j].zone == zone;
      }
    }
  }

  /** A whole block visits the original zone, and of all others just the supported ones of its region. */
  lemma BlockVisits(c: Cloud, original: string, run: seq<Memory>, b: nat, zone: string)
    requires IsCapacityRun(c, original, run) && b % |Pool(c, original)| == 0 && b + |Pool(c, original)| <= |run|
    ensures IsVisited(run, b, b + |Pool(c, original)|, zone)
      <==> zone == original || (zone in c.supported && zone in c.zonesIn(c.regionOf(original)))
  {
    assert original in Pool(c, original);
    CapacityRetriesGoRoundThePool(c, original, run, b);
    VisitedIff(run, b, b + |Pool(c, original)|, zone);
  }

  lemma {:induction false} OffsetInBlock(n: nat, b: nat, k: nat)
    requires Offset(n, b) == 0 && b <= k < b + n
    ensures Offset(n, k) == k - b
    decreases k
  {
    if b < k { OffsetInBlock(n, b, k - 1); }
  }

  // ---------------------------------------------------------------------------------------------
  // Runs of retries of any kind

  ghost predicate IsRetryRun(c: Cloud, original: string, run: seq<Memory>) {
    StartsFresh(original, run)
    && forall i :: 0 <= i < |run| - 1 ==>
         SameRegionRetry(c, original, run[i], run[i + 1]) || QuotaRetry(c, original, run[i], run[i + 1])
  }

  /** The current zone has never been tried since the memory was last cleared; so between two clears no zone
      is chosen twice. */
  lemma {:induction false} NoZoneTwiceBetweenClears(c: Cloud, original: string, run: seq<Memory>, i: nat, j: nat)
    requires IsRetryRun(c, original, run) && i <= j < |run|
    requires forall k :: i < k <= j ==> run[k].zonesTried != {}
    ensures run[j].zone !in run[j].zonesTried
    ensures i < j ==> run[i].zone in run[j].zonesTried && run[i].zone != run[j].zone
    decreases j
  {
    if j > 0 {
      var k := j - 1;
      NoZoneTwiceBetweenClears(c, original, run, if i < k then i else k, k);
      assert SameRegionRetry(c, original, run[k], run[k + 1]) || QuotaRetry(c, original, run[k], run[k + 1]);
    }
  }

  /** Something can always be chosen, and any untried possible zone can. */
  lemma SomeChoice(original: string, s: Memory, possible: set<string>) returns (s': Memory)
    ensures Chose(original, s, possible, s')
  {
    var tried := s.zonesTried + {s.zone};
    if possible <= tried {
      s' := Memory(original, {}, s.regionsTried);
    } else {
      var zone :| zone in possible && zone !in tried;
      s' := Memory(zone, tried, s.regionsTried);
    }
  }

  /** The regions among which a quota retry picks. */
  function RegionsLeft(c: Cloud, s: Memory): set<string> {
    c.SupportedRegions() - (s.regionsTried + {c.regionOf(s.zone)})
  }

  predicate HasUntriedZone(c: Cloud, s: Memory, region: string) {
    !(c.zonesIn(region) <= s.zonesTried + {s.zone})
  }

  /** Whatever is chosen, a quota retry changes the region: exactly when the run is away from the original region,
      or there are regions left to try and each of them has an untried zone. */
  lemma QuotaRetryChangesRegionIff(c: Cloud, original: string, s: Memory)
    requires c.Consistent()
    ensures (forall s': Memory :: QuotaRetry(c, original, s, s') ==> c.regionOf(s'.zone) != c.regionOf(s.zone))
      <==> c.regionOf(original) != c.regionOf(s.zone)
           || (RegionsLeft(c, s) != {} && forall r :: r in RegionsLeft(c, s) ==> HasUntriedZone(c, s, r))
  {
    var here, left := c.regionOf(s.zone), RegionsLeft(c, s);
    forall s': Memory | QuotaRetry(c, original, s, s')
      ensures c.regionOf(s'.zone) == c.regionOf(original) || c.regionOf(s'.zone) in left
    {
      var region :| NewRegionRetry(c, original, s, region, s');
    }
    if c.regionOf(original) == here {
      if left == {} {
        var s' := SomeChoice(original, s.(regionsTried := {}), c.zonesIn(here));
        assert NewRegionRetry(c, original, s, here, s') && c.regionOf(s'.zone) == here;
      } else if r :| r in left && !HasUntriedZone(c, s, r) {
        var s' := SomeChoice(original, s.(regionsTried := s.regionsTried + {here}), c.zonesIn(r));
        assert NewRegionRetry(c, original, s, r, s') && s'.zone == original;
      } else {
        forall s': Memory | QuotaRetry(c, original, s, s') ensures c.regionOf(s'.zone) != here {
          var region :| NewRegionRetry(c, original, s, region, s');
          assert HasUntriedZone(c, s, region);
        }
      }
    }
  }

  // ---------------------------------------------------------------------------------------------
  // Runs of quota retries

  ghost predicate IsQuotaRun(c: Cloud, original: string, run: seq<Memory>) {
    StartsFresh(original, run)
    && forall i :: 0 <= i < |run| - 1 ==> QuotaRetry(c, original, run[i], run[i + 1])
  }

  /** The original zone's region is supported, and every supported region has a zone. */
  ghost predicate RegionsUsable(c: Cloud, original: string) {
    && c.Consistent() && c.regionOf(original) in c.SupportedRegions()
    && forall r :: r in c.SupportedRegions() ==> c.zonesIn(r) != {}
  }

  function RegionsVisited(c: Cloud, run: seq<Memory>, hi: nat): (r: set<string>)
    requires hi <= |run|
    ensures forall j :: 0 <= j < hi ==> c.regionOf(run[j].zone) in r
  {
    if hi == 0 then {} else RegionsVisited(c, run, hi - 1) + {c.regionOf(run[hi - 1].zone)}
  }

  /** In the first sweep every retry enters a region that was not visited before. */
  lemma {:induction false} FirstSweepState(c: Cloud, original: string, run: seq<Memory>, i: nat)
    requires RegionsUsable(c, original) && IsQuotaRun(c, original, run)
    requires i < |run| && i < |c.SupportedRegions()|
    ensures var s := run[i];
      && s.regionsTried == RegionsVisited(c, run, i) && |s.regionsTried| == i
      && s.regionsTried <= c.SupportedRegions()
      && c.regionOf(s.zone) in c.SupportedRegions() - s.regionsTried
      && (forall z :: z in s.zonesTried ==> c.regionOf(z) in s.regionsTried)
  {
    if i > 0 {
      FirstSweepState(c, original, run, i - 1);
      var s, s' := run[i - 1], run[i - 1 + 1];
      assert QuotaRetry(c, original, s, s');
      var region :| NewRegionRetry(c, original, s, region, s');
      var tried := s.regionsTried + {c.regionOf(s.zone)};
      assert |tried| == i;
      SubsetCount(tried, c.SupportedRegions());
      FirstSweepStep(c, original, s, region, s');
    }
  }

  lemma FirstSweepStep(c: Cloud, original: string, s: Memory, region: string, s': Memory)
    requires RegionsUsable(c, original) && NewRegionRetry(c, original, s, region, s')
    requires forall z :: z in s.zonesTried ==> c.regionOf(z) in s.regionsTried
    requires c.SupportedRegions() - (s.regionsTried + {c.regionOf(s.zone)}) != {}
    ensures s'.regionsTried == s.regionsTried + {c.regionOf(s.zone)}
    ensures c.regionOf(s'.zone) == region && region in c.SupportedRegions() - s'.regionsTried
    ensures forall z :: z in s'.zonesTried ==> c.regionOf(z) in s'.regionsTried
  {
    var z :| z in c.zonesIn(region);
    assert z !in s.zonesTried + {s.zone};
  }

  /** With R supported regions, the first R - 1 quota retries visit every other region exactly once, and the
      R-th returns to the original region. */
  lemma FirstQuotaSweep(c: Cloud, original: string, run: seq<Memory>)
    requires RegionsUsable(c, original) && IsQuotaRun(c, original, run)
    ensures var R := |c.SupportedRegions()|;
      && (forall j, k :: 0 <= j < k < R && k < |run| ==> c.regionOf(run[j].zone) != c.regionOf(run[k].zone))
      && (R <= |run| ==> RegionsVisited(c, run, R) == c.SupportedRegions())
      && (R < |run| ==> c.regionOf(run[R].zone) == c.regionOf(original))
  {
    var R := |c.SupportedRegions()|;
    forall j, k | 0 <= j < k < R && k < |run| ensures c.regionOf(run[j].zone) != c.regionOf(run[k].zone) {
      FirstSweepState(c, original, run, k);
    }
    if R <= |run| {
      SweepVisitsAll(c, original, run);
    }
    if R < |run| {
      SweepReturns(c, original, run);
    }
  }

  ghost predicate IsVisitedRegion(c: Cloud, run: seq<Memory>, hi: nat, region: string)
    requires hi <= |run|
  {
    exists j :: 0 <= j < hi && c.regionOf(run[j].zone) == region
  }

  lemma {:induction false} RegionsVisitedIff(c: Cloud, run: seq<Memory>, hi: nat, region: string)
    requires hi <= |run|
    ensures region in RegionsVisited(c, run, hi) <==> IsVisitedRegion(c, run, hi, region)
    decreases hi
  {
    if 0 < hi {
      RegionsVisitedIff(c, run, hi - 1, region);
      if IsVisitedRegion(c, run, hi - 1, region) {
        var j :| 0 <= j < hi - 1 && c.regionOf(run[j].zone) == region;
      }
    }
  }

  /** A whole sweep visits just the regions of supported zones. */
  lemma SweepVisits(c: Cloud, original: string, run: seq<Memory>, region: string)
    requires RegionsUsable(c, original) && IsQuotaRun(c, original, run) && |c.SupportedRegions()| <= |run|
    ensures IsVisitedRegion(c, run, |c.SupportedRegions()|, region)
      <==> exists z :: z in c.supported && c.regionOf(z) == region
  {
    SweepVisitsAll(c, original, run);
    RegionsVisitedIff(c, run, |c.SupportedRegions()|, region);
  }

  lemma SweepVisitsAll(c: Cloud, original: string, run: seq<Memory>)
    requires RegionsUsable(c, original) && IsQuotaRun(c, original, run) && |c.SupportedRegions()| <= |run|
    ensures RegionsVisited(c, run, |c.SupportedRegions()|) == c.SupportedRegions()
  {
    var R := |c.SupportedRegions()|;
    FirstSweepState(c, original, run, R - 1);
    LastMissing(RegionsVisited(c, run, R - 1), c.regionOf(run[R - 1].zone), c.SupportedRegions());
  }

  lemma SweepReturns(c: Cloud, original: string, run: seq<Memory>)
    requires RegionsUsable(c, original) && IsQuotaRun(c, original, run) && |c.SupportedRegions()| < |run|
    ensures c.regionOf(run[|c.SupportedRegions()|].zone) == c.regionOf(original)
  {
    var R := |c.SupportedRegions()|;
    FirstSweepState(c, original, run, R - 1);
    var s, s' := run[R - 1], run[R - 1 + 1];
    assert QuotaRetry(c, original, s, s');
    SweepEnd(c, original, s, s');
  }

  lemma SweepEnd(c: Cloud, original: string, s: Memory, s': Memory)
    requires RegionsUsable(c, original) && QuotaRetry(c, original, s, s')
    requires |s.regionsTried| + 1 == |c.SupportedRegions()| && s.regionsTried <= c.SupportedRegions()
    requires c.regionOf(s.zone) in c.SupportedRegions() - s.regionsTried
    ensures s.regionsTried + {c.regionOf(s.zone)} == c.SupportedRegions()
    ensures c.regionOf(s'.zone) == c.regionOf(original)
  {
    LastMissing(s.regionsTried, c.regionOf(s.zone), c.SupportedRegions());
    var region :| NewRegionRetry(c, original, s, region, s');
  }

  /** Later sweeps can fail to change the region: with zones a1 and a2 in one region and b in another, the third
      quota retry finds b tried, and goes back to a1 from a2. */
  lemma LaterSweepCanStay(a1: string, a2: string, b: string, ra: string, rb: string)
    returns (c: Cloud, run: seq<Memory>)
    requires a1 != a2 && a1 != b && a2 != b && ra != rb
    ensures RegionsUsable(c, a1) && |c.SupportedRegions()| == 2
    ensures IsQuotaRun(c, a1, run) && |run| == 4
    ensures c.regionOf(run[2].zone) == c.regionOf(run[3].zone) == ra
  {
    c := Cloud({a1, a2, b}, z => if z == b then rb else ra,
               r => if r == ra then {a1, a2} else if r == rb then {b} else {});
    assert c.regionOf(a1) == ra && c.regionOf(b) == rb;
    assert c.SupportedRegions() == {ra, rb};
    var s0, s1, s2, s3 := Memory(a1, {}, {}), Memory(b, {a1}, {ra}), Memory(a2, {a1, b}, {}), Memory(a1, {}, {ra});
    assert rb in c.SupportedRegions() - ({} + {ra});
    assert NewRegionRetry(c, a1, s0, rb, s1);
    assert NewRegionRetry(c, a1, s1, ra, s2);
    assert NewRegionRetry(c, a1, s2, rb, s3);
    run := [s0, s1, s2, s3];
  }

  // ---------------------------------------------------------------------------------------------
  // Quota retries choose among all zones of a region, supported or not

  ghost predicate RegionsFullySupported(c: Cloud) {
    forall r :: r in c.SupportedRegions() ==> c.zonesIn(r) <= c.supported
  }

  ghost predicate StaysSupported(c: Cloud, run: seq<Memory>) {
    forall i :: 0 <= i < |run| ==> run[i].zone in c.supported
  }

  lemma {:induction false} QuotaRunStaysSupported(c: Cloud, original: string, run: seq<Memory>, i: nat)
    requires RegionsFullySupported(c) && original in c.supported && IsQuotaRun(c, original, run) && i < |run|
    ensures run[i].zone in c.supported
  {
    if i > 0 {
      var s, s' := run[i - 1], run[i - 1 + 1];
      assert QuotaRetry(c, original, s, s');
      var region :| NewRegionRetry(c, original, s, region, s');
      assert region in c.SupportedRegions();
    }
  }

  lemma RunGoesOn(c: Cloud, original: string, run: seq<Memory>, s': Memory)
    requires IsQuotaRun(c, original, run) && QuotaRetry(c, original, run[|run| - 1], s')
    ensures IsQuotaRun(c, original, run + [s'])
  {
    var longer := run + [s'];
    forall i | 0 <= i < |longer| - 1 ensures QuotaRetry(c, original, longer[i], longer[i + 1]) {
      if i < |run| - 1 { assert QuotaRetry(c, original, run[i], run[i + 1]); }
    }
  }

  lemma {:induction false} SomeQuotaRun(c: Cloud, original: string, n: nat) returns (run: seq<Memory>)
    requires n > 0
    ensures IsQuotaRun(c, original, run) && |run| == n
  {
    if n == 1 {
      run := [Memory(original, {}, {})];
    } else {
      run := SomeQuotaRun(c, original, n - 1);
      var s := run[|run| - 1];
      var tried := s.regionsTried + {c.regionOf(s.zone)};
      ghost var s';
      if RegionsLeft(c, s) == {} {
        s' := SomeChoice(original, s.(regionsTried := {}), c.zonesIn(c.regionOf(original)));
        assert NewRegionRetry(c, original, s, c.regionOf(original), s');
      } else {
        var region :| region in RegionsLeft(c, s);
        s' := SomeChoice(original, s.(regionsTried := tried), c.zonesIn(region));
        assert NewRegionRetry(c, original, s, region, s');
      }
      RunGoesOn(c, original, run, s');
      run := run + [s'];
    }
  }

  lemma OnlyZoneIsTried(c: Cloud, original: string, s: Memory, s': Memory)
    requires QuotaRetry(c, original, s, s')
    ensures s'.zonesTried <= s.zonesTried + {s.zone}
  {
    var region :| NewRegionRetry(c, original, s, region, s');
  }

  /** In the first sweep the original zone is the only one of its region that is visited. */
  lemma {:induction false} OriginalAloneOfItsRegion(c: Cloud, original: string, run: seq<Memory>, i: nat)
    requires RegionsUsable(c, original) && IsQuotaRun(c, original, run)
    requires i < |run| && i < |c.SupportedRegions()|
    ensures forall z :: z in run[i].zonesTried + {run[i].zone} && c.regionOf(z) == c.regionOf(original) ==>
      z == original
  {
    if i > 0 {
      OriginalAloneOfItsRegion(c, original, run, i - 1);
      FirstSweepState(c, original, run, i);
      assert c.regionOf(run[0].zone) in RegionsVisited(c, run, i);
      assert QuotaRetry(c, original, run[i - 1], run[i - 1 + 1]);
      OnlyZoneIsTried(c, original, run[i - 1], run[i]);
    }
  }

  /** A zone of another region than the original one can be reached at once. */
  lemma OtherRegionIsReached(c: Cloud, original: string, region: string, zone: string) returns (run: seq<Memory>)
    requires RegionsUsable(c, original) && region != c.regionOf(original)
    requires region in c.SupportedRegions() && zone in c.zonesIn(region)
    ensures IsQuotaRun(c, original, run) && run[|run| - 1].zone == zone
  {
    run := SomeQuotaRun(c, original, 1);
    var s' := Memory(zone, {original}, {c.regionOf(original)});
    assert region in RegionsLeft(c, run[0]);
    assert NewRegionRetry(c, original, run[0], region, s');
    RunGoesOn(c, original, run, s');
    run := run + [s'];
  }

  /** Any other zone of the original region can be reached by the retry that ends the first sweep. */
  lemma OriginalRegionIsReached(c: Cloud, original: string, zone: string) returns (run: seq<Memory>)
    requires RegionsUsable(c, original) && zone in c.zonesIn(c.regionOf(original)) && zone != original
    ensures IsQuotaRun(c, original, run) && run[|run| - 1].zone == zone
  {
    var R := |c.SupportedRegions()|;
    run := SomeQuotaRun(c, original, R);
    var s := run[R - 1];
    assert zone !in s.zonesTried + {s.zone} by { OriginalAloneOfItsRegion(c, original, run, R - 1); }
    SweepExhausts(c, original, run);
    var s' := Memory(zone, s.zonesTried + {s.zone}, {});
    ReturnsToAny(c, original, s, zone);
    RunGoesOn(c, original, run, s');
    run := run + [s'];
  }

  lemma SweepExhausts(c: Cloud, original: string, run: seq<Memory>)
    requires RegionsUsable(c, original) && IsQuotaRun(c, original, run) && |run| == |c.SupportedRegions()|
    ensures RegionsLeft(c, run[|run| - 1]) == {}
  {
    var s := run[|run| - 1];
    FirstSweepState(c, original, run, |run| - 1);
    LastMissing(s.regionsTried, c.regionOf(s.zone), c.SupportedRegions());
  }

  lemma ReturnsToAny(c: Cloud, original: string, s: Memory, zone: string)
    requires RegionsLeft(c, s) == {} && zone in c.zonesIn(c.regionOf(original)) && zone !in s.zonesTried + {s.zone}
    ensures QuotaRetry(c, original, s, Memory(zone, s.zonesTried + {s.zone}, {}))
  {
    assert NewRegionRetry(c, original, s, c.regionOf(original), Memory(zone, s.zonesTried + {s.zone}, {}));
  }

  /** All quota runs keep to supported zones exactly when every zone of a supported region is supported. */
  lemma QuotaRunsStaySupportedIff(c: Cloud, original: string)
    requires RegionsUsable(c, original) && original in c.supported
    ensures (forall run: seq<Memory> :: IsQuotaRun(c, original, run) ==> StaysSupported(c, run))
      <==> RegionsFullySupported(c)
  {
    if RegionsFullySupported(c) {
      forall run: seq<Memory> | IsQuotaRun(c, original, run) ensures StaysSupported(c, run) {
        forall i | 0 <= i < |run| ensures run[i].zone in c.supported {
          QuotaRunStaysSupported(c, original, run, i);
        }
      }
    } else {
      var region :| region in c.SupportedRegions() && !(c.zonesIn(region) <= c.supported);
      var zone :| zone in c.zonesIn(region) && zone !in c.supported;
      ghost var run: seq<Memory>;
      if region == c.regionOf(original) {
        run := OriginalRegionIsReached(c, original, zone);
      } else {
        run := OtherRegionIsReached(c, original, region, zone);
      }
      assert !StaysSupported(c, run);
    }
  }

  /** A quota retry can leave the supported zones. */
  lemma QuotaRetryCanLeaveSupported(a: string, b1: string, b2: string, ra: string, rb: string)
    returns (c: Cloud, run: seq<Memory>)
    requires a != b1 && a != b2 && b1 != b2 && ra != rb
    ensures RegionsUsable(c, a) && IsQuotaRun(c, a, run) && |run| == 2 && run[1].zone !in c.supported
  {
    c := Cloud({a, b1}, z => if z == a then ra else rb,
               r => if r == ra then {a} else if r == rb then {b1, b2} else {});
    assert c.regionOf(a) == ra && c.regionOf(b1) == rb;
    assert c.SupportedRegions() == {ra, rb};
    run := [Memory(a, {}, {}), Memory(b2, {a}, {ra})];
    assert rb in c.SupportedRegions() - ({} + {ra});
    assert NewRegionRetry(c, a, run[0], rb, run[1]);
  }
}
