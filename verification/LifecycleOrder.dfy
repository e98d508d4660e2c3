/** The order of the steps of a run, read off its trace. */
module LifecycleOrder {
  import opened Lifecycle

  /** The order of the stages before the teardown. */
  predicate Before(a: Stage, b: Stage) {
    match a
    case Provision => b == Prepare || b == Run || b == Cleanup
    case Prepare => b == Run || b == Cleanup
    case Run => b == Cleanup
    case Cleanup => false
    case Teardown => false
  }

  /** The stage was done at this step; but for the provisioning, the check for interruptions follows at once. */
  ghost predicate IsDoneAt(t: seq<Event>, a: Stage, k: int) {
    && 0 <= k < |t| && t[k] == Work(a)
    && (a != Provision ==> k + 1 < |t| && t[k + 1] == CheckInterrupted)
  }

  ghost predicate DoneBefore(t: seq<Event>, a: Stage, i: int) {
    exists k :: IsDoneAt(t, a, k) && k < i && (a != Provision ==> k + 1 < i)
  }

  ghost predicate AllDoneBefore(o: Options, t: seq<Event>, i: int) {
    forall a :: a in o.runStage && a != Teardown ==> DoneBefore(t, a, i)
  }

  /** Directly before, the threads for all interruptible machines were started. */
  ghost predicate StartedBefore(o: Options, t: seq<Event>, i: int)
    requires 0 <= i <= |t|
  {
    var n := multiset(o.interruptible)[true];
    n <= i && forall k :: i - n <= k < i ==> t[k] == StartThread
  }

  /** A stage is only run if it is asked for, and after all that are asked for and come before it; but for the
      provisioning, under the eyes of a thread for each interruptible machine. */
  ghost predicate WorkOk(o: Options, t: seq<Event>, i: int)
    requires 0 <= i < |t| && t[i].Work?
  {
    && t[i].stage in o.runStage && t[i].stage != Teardown
    && (t[i].stage != Provision ==> StartedBefore(o, t, i))
    && forall a :: a in o.runStage && Before(a, t[i].stage) ==> DoneBefore(t, a, i)
  }

  predicate IsEnd(e: Event) {
    e == DecideTeardown || e == AddSamples
  }

  /** The stages are run in their order, each at most once, and all that are asked for before anything is decided about
      the teardown and before the samples are added. */
  ghost predicate StagesInOrder(o: Options, t: seq<Event>) {
    && (forall i :: 0 <= i < |t| && t[i].Work? ==> WorkOk(o, t, i))
    && (forall i, j :: 0 <= i < j < |t| && t[i].Work? && t[j].Work? ==> Before(t[i].stage, t[j].stage))
    && (forall i :: 0 <= i < |t| && IsEnd(t[i]) ==> AllDoneBefore(o, t, i))
  }

  // ---------------------------------------------------------------------------------------------
  // The plan of the body is in order

  lemma DoneStays(t: seq<Event>, more: seq<Event>, a: Stage, i: int, j: int)
    requires DoneBefore(t, a, i) && i <= j
    ensures DoneBefore(t + more, a, j)
  {
    var k :| IsDoneAt(t, a, k) && k < i && (a != Provision ==> k + 1 < i);
    assert IsDoneAt(t + more, a, k);
  }

  lemma DoneInPrefix(t: seq<Event>, n: nat, a: Stage, i: int)
    requires n <= |t| && i <= n && DoneBefore(t, a, i)
    ensures DoneBefore(t[..n], a, i)
  {
    var k :| IsDoneAt(t, a, k) && k < i && (a != Provision ==> k + 1 < i);
    assert IsDoneAt(t[..n], a, k);
  }

  lemma PrefixInOrder(o: Options, t: seq<Event>, n: nat)
    requires StagesInOrder(o, t) && n <= |t|
    ensures StagesInOrder(o, t[..n])
  {
    forall i | 0 <= i < n && t[..n][i].Work? ensures WorkOk(o, t[..n], i) {
      assert WorkOk(o, t, i);
      forall a | a in o.runStage && Before(a, t[i].stage) ensures DoneBefore(t[..n], a, i) {
        DoneInPrefix(t, n, a, i);
      }
    }
    forall i | 0 <= i < n && IsEnd(t[..n][i]) ensures AllDoneBefore(o, t[..n], i) {
      assert AllDoneBefore(o, t, i);
      forall a | a in o.runStage && a != Teardown ensures DoneBefore(t[..n], a, i) {
        DoneInPrefix(t, n, a, i);
      }
    }
  }

  /** t consists of these stages, in order, with all of them done that are asked for. */
  ghost predicate Consists(o: Options, t: seq<Event>, stages: set<Stage>) {
    && StagesInOrder(o, t)
    && (forall i :: 0 <= i < |t| ==> !IsEnd(t[i]) && (t[i].Work? ==> t[i].stage in stages))
    && (forall a :: a in o.runStage && a in stages ==> DoneBefore(t, a, |t|))
  }

  lemma AppendOne(o: Options, t: seq<Event>, e: Event)
    requires StagesInOrder(o, t)
    requires e.Work? ==> (
      && e.stage in o.runStage && e.stage != Teardown && (e.stage != Provision ==> StartedBefore(o, t, |t|))
      && (forall a :: a in o.runStage && Before(a, e.stage) ==> DoneBefore(t, a, |t|))
      && forall i :: 0 <= i < |t| && t[i].Work? ==> Before(t[i].stage, e.stage))
    requires IsEnd(e) ==> AllDoneBefore(o, t, |t|)
    ensures StagesInOrder(o, t + [e])
  {
    var t' := t + [e];
    forall i | 0 <= i < |t'| && t'[i].Work? ensures WorkOk(o, t', i) {
      if i < |t| { assert WorkOk(o, t, i); }
      forall a | a in o.runStage && Before(a, t'[i].stage) ensures DoneBefore(t', a, i) {
        DoneStays(t, [e], a, i, i);
      }
    }
    forall i | 0 <= i < |t'| && IsEnd(t'[i]) ensures AllDoneBefore(o, t', i) {
      assert AllDoneBefore(o, t, i);
      forall a | a in o.runStage && a != Teardown ensures DoneBefore(t', a, i) {
        DoneStays(t, [e], a, i, i);
      }
    }
  }

  lemma {:induction false} AppendPlain(o: Options, t: seq<Event>, more: seq<Event>, stages: set<Stage>)
    requires Consists(o, t, stages) && forall e :: e in more ==> !e.Work? && !IsEnd(e)
    ensures Consists(o, t + more, stages)
    decreases |more|
  {
    if more == [] {
      assert t + more == t;
    } else {
      var e := more[0];
      AppendOne(o, t, e);
      forall a | a in o.runStage && a in stages ensures DoneBefore(t + [e], a, |t + [e]|) {
        DoneStays(t, [e], a, |t|, |t + [e]|);
      }
      assert Consists(o, t + [e], stages);
      AppendPlain(o, t + [e], more[1..], stages);
      assert t + [e] + more[1..] == t + more;
    }
  }

  lemma AppendStage(o: Options, t: seq<Event>, stage: Stage, stages: set<Stage>)
    requires Consists(o, t, stages) && stage in o.runStage && stage != Teardown && stage !in stages
    requires stage != Provision ==> StartedBefore(o, t, |t|)
    requires forall a :: a in stages ==> Before(a, stage)
    requires forall a :: Before(a, stage) ==> a in stages
    ensures Consists(o, t + if stage == Provision then [Work(stage)] else [Work(stage), CheckInterrupted],
                     stages + {stage})
  {
    var t' := t + [Work(stage)];
    AppendOne(o, t, Work(stage));
    var t'' := if stage == Provision then t' else t' + [CheckInterrupted];
    AppendOne(o, t', CheckInterrupted);
    assert t'' == t + if stage == Provision then [Work(stage)] else [Work(stage), CheckInterrupted];
    assert IsDoneAt(t'', stage, |t|);
    forall a | a in o.runStage && a in stages ensures DoneBefore(t'', a, |t''|) {
      DoneStays(t, t''[|t|..], a, |t|, |t''|);
      assert t + t''[|t|..] == t'';
    }
  }

  lemma AppendWatched(o: Options, t: seq<Event>, stage: Stage, stages: set<Stage>)
    requires Consists(o, t, stages) && stage != Provision && stage != Teardown && stage !in stages
    requires forall a :: a in stages ==> Before(a, stage)
    requires forall a :: Before(a, stage) ==> a in stages
    ensures Consists(o, t + WatchedPlan(o, stage), stages + {stage})
  {
    if stage in o.runStage {
      OnlyThreads(o.interruptible);
      var threads := Threads(o.interruptible);
      AppendPlain(o, t, threads, stages);
      forall k | |t| <= k < |t + threads| ensures (t + threads)[k] == StartThread {
        assert threads[k - |t|] in threads;
      }
      AppendStage(o, t + threads, stage, stages);
      assert t + threads + [Work(stage), CheckInterrupted] == t + WatchedPlan(o, stage);
    } else {
      assert t + WatchedPlan(o, stage) == t;
    }
  }

  lemma ProvisionInOrder(o: Options)
    ensures Consists(o, ProvisionPlan(o), {Provision})
  {
    AppendPlain(o, [], [SetPaths], {});
    assert [] + [SetPaths] == [SetPaths];
    if Provision in o.runStage {
      AppendStage(o, [SetPaths], Provision, {});
      assert {} + {Provision} == {Provision};
    }
  }

  lemma EarlierInOrder(o: Options)
    ensures Consists(o, EarlierPlan(o), {Provision, Prepare, Run, Cleanup})
  {
    var provision, prepare, run, cleanup :=
      ProvisionPlan(o), WatchedPlan(o, Prepare), WatchedPlan(o, Run), WatchedPlan(o, Cleanup);
    ProvisionInOrder(o);
    AppendWatched(o, provision, Prepare, {Provision});
    assert {Provision} + {Prepare} == {Provision, Prepare};
    AppendWatched(o, provision + prepare, Run, {Provision, Prepare});
    assert {Provision, Prepare} + {Run} == {Provision, Prepare, Run};
    AppendWatched(o, provision + prepare + run, Cleanup, {Provision, Prepare, Run});
    assert {Provision, Prepare, Run} + {Cleanup} == {Provision, Prepare, Run, Cleanup};
    Regroup(provision, prepare, run, cleanup);
  }

  lemma Regroup(a: seq<Event>, b: seq<Event>, c: seq<Event>, d: seq<Event>)
    ensures a + (b + (c + d)) == a + b + c + d
  {
  }

  lemma {:induction false} AppendEnd(o: Options, t: seq<Event>, more: seq<Event>)
    requires StagesInOrder(o, t) && AllDoneBefore(o, t, |t|) && forall e :: e in more ==> !e.Work?
    ensures StagesInOrder(o, t + more)
    decreases |more|
  {
    if more == [] {
      assert t + more == t;
    } else {
      var e := more[0];
      AppendOne(o, t, e);
      forall a | a in o.runStage && a != Teardown ensures DoneBefore(t + [e], a, |t + [e]|) {
        DoneStays(t, [e], a, |t|, |t + [e]|);
      }
      AppendEnd(o, t + [e], more[1..]);
      assert t + [e] + more[1..] == t + more;
    }
  }

  lemma BodyInOrder(o: Options)
    ensures StagesInOrder(o, BodyPlan(o))
  {
    EarlierInOrder(o);
    AppendEnd(o, EarlierPlan(o), TeardownPlan(o) + [AddSamples]);
  }

  // ---------------------------------------------------------------------------------------------
  // The order in every run

  /** What the body of a run did. */
  ghost function BodySteps(w: World, p: Point, o: Options): seq<Event> {
    var c, start := CourseOf(w, p, o), |EnteredAt(p, o).trace|;
    if start <= |c.body| then c.body[start..] else []
  }

  /** Whatever fails, the stages are run in order: none before all that it comes after have been completed. */
  lemma EveryRunIsInOrder(w: World, p: Point, o: Options)
    requires CourseOf(w, p, o).ending.BodyRaised? || CourseOf(w, p, o).ending.Completed?
    ensures CourseOf(w, p, o).body == EnteredAt(p, o).trace + BodySteps(w, p, o)
    ensures StagesInOrder(o, BodySteps(w, p, o))
  {
    EntersIff(w, p, o);
    var q := EnteredAt(p, o);
    var n := FollowStopsAtFirst(w, q, BodyPlan(o));
    assert BodySteps(w, p, o) == BodyPlan(o)[..n];
    BodyInOrder(o);
    PrefixInOrder(o, BodyPlan(o), n);
  }

  /** A completed run has done all the stages it was asked for, and then torn down, if that was asked for and decided,
      and deleted before publishing. */
  lemma CompletedRunDoesAll(w: World, p: Point, o: Options) returns (stages: seq<Event>)
    requires CourseOf(w, p, o).ending.Completed?
    ensures StagesInOrder(o, stages) && AllDoneBefore(o, stages, |stages|)
    ensures forall e :: e in stages ==> e in {SetPaths, StartThread, CheckInterrupted} || e.Work?
    ensures CourseOf(w, p, o).end.trace == EnteredAt(p, o).trace + stages
      + (if Teardown !in o.runStage then []
         else if o.teardownDecision then [DecideTeardown, BeginTeardown, CallDelete, EndTeardown]
         else [DecideTeardown, UpdateTimeouts])
      + [AddSamples]
      + (if Teardown in o.runStage && o.teardownDecision then [CallDelete] else [])
      + (if o.publishAfterRun then [Publish] else [])
      + [Finish]
  {
    stages := EarlierPlan(o);
    EarlierInOrder(o);
    OnlyEarlierSteps(o);
    CompletesIff(w, p, o);
    PlansSpelledOut(o);
    var delete := if Teardown in o.runStage && o.teardownDecision then [CallDelete] else [];
    var publish := if o.publishAfterRun then [Publish] else [];
    Reassociate(EnteredAt(p, o).trace, stages, TeardownPlan(o), [AddSamples], delete, publish, [Finish]);
  }

  lemma OnlyEarlierSteps(o: Options)
    ensures forall e :: e in EarlierPlan(o) ==> e in {SetPaths, StartThread, CheckInterrupted} || e.Work?
  {
    OnlyThreads(o.interruptible);
  }

  lemma PlansSpelledOut(o: Options)
    ensures TeardownPlan(o) ==
      if Teardown !in o.runStage then []
      else if o.teardownDecision then [DecideTeardown, BeginTeardown, CallDelete, EndTeardown]
      else [DecideTeardown, UpdateTimeouts]
    ensures FinallyPlan(o, o.teardownDecision) ==
      (if Teardown in o.runStage && o.teardownDecision then [CallDelete] else [])
      + ((if o.publishAfterRun then [Publish] else []) + [Finish])
  {
  }

  lemma Reassociate(a: seq<Event>, b: seq<Event>, c: seq<Event>, d: seq<Event>, e: seq<Event>, f: seq<Event>,
                    g: seq<Event>)
    ensures a + (b + (c + d) + (e + (f + g))) == a + b + c + d + e + f + g
  {
  }

  /** A step is taken when none before it in its plan fails. */
  lemma IsTaken(w: World, p: Point, plan: seq<Event>, i: nat)
    requires i < |plan| && NoneFails(w.fails, |p.trace|, |p.trace| + i) && CallDelete !in plan[..i]
    ensures var t := Follow(w, p, plan).point.trace;
      |p.trace| + i < |t| && t[|p.trace| + i] == plan[i]
  {
    var n := FollowStopsAtFirst(w, p, plan);
    forall j: nat | j < i ensures !FailsAt(w, p, plan, j) {
      assert plan[j] == plan[..i][j] && plan[..i][j] in plan[..i];
    }
    assert (p.trace + plan[..n])[|p.trace| + i] == plan[..n][i];
  }

  predicate TakenAt(t: seq<Event>, i: nat, e: Event) {
    i < |t| && t[i] == e
  }

  lemma TakenAfter(w: World, p: Point, before: seq<Event>, e: Event, rest: seq<Event>)
    requires NoneFails(w.fails, |p.trace|, |p.trace| + |before|) && CallDelete !in before
    ensures TakenAt(Follow(w, p, before + [e] + rest).point.trace, |p.trace| + |before|, e)
  {
    var plan := before + [e] + rest;
    assert plan[..|before|] == before && plan[|before|] == e;
    IsTaken(w, p, plan, |before|);
  }

  /** What the handler does, from position n of the trace on, whatever its own steps do: the failed run is published
      and the cleanup is done, if the flags say so, and without TEARDOWN among the stages the resources are deleted, if
      the flag says that. */
  ghost predicate HandlerDoes(w: World, o: Options, t: seq<Event>, n: nat) {
    var a := n + if o.createFailedRunSamples then 1 else 0;
    var b := a + if Cleanup in o.runStage && o.alwaysCallCleanup then 1 else 0;
    && (o.createFailedRunSamples ==> TakenAt(t, n, PublishFailedRun))
    && (NoneFails(w.fails, n, a) && Cleanup in o.runStage && o.alwaysCallCleanup ==> TakenAt(t, a, Work(Cleanup)))
    && (NoneFails(w.fails, n, b) && o.alwaysTeardownOnException && Teardown !in o.runStage ==>
          TakenAt(t, b, BeginTeardown))
    && (NoneFails(w.fails, n, b + 1) && o.alwaysTeardownOnException && Teardown !in o.runStage ==>
          TakenAt(t, b + 1, CallDelete))
  }

  lemma HandlerTakes(w: World, p: Point, o: Options)
    ensures HandlerDoes(w, o, Follow(w, p, HandlerPlan(o)).point.trace, |p.trace|)
  {
    var t := Follow(w, p, HandlerPlan(o)).point.trace;
    HandlerPublishes(w, p, o);
    HandlerCleansUp(w, p, o);
    if o.alwaysTeardownOnException && Teardown !in o.runStage {
      HandlerDeletes(w, p, o, PublishPart(o) + CleanupPart(o));
    }
    DoesByParts(w, o, t, |p.trace|);
  }

  lemma DoesByParts(w: World, o: Options, t: seq<Event>, n: nat)
    requires o.createFailedRunSamples ==> TakenAt(t, n, PublishFailedRun)
    requires Cleanup in o.runStage && o.alwaysCallCleanup && NoneFails(w.fails, n, n + |PublishPart(o)|) ==>
      TakenAt(t, n + |PublishPart(o)|, Work(Cleanup))
    requires o.alwaysTeardownOnException && Teardown !in o.runStage ==>
      var b := |PublishPart(o) + CleanupPart(o)|;
      && (NoneFails(w.fails, n, n + b) ==> TakenAt(t, n + b, BeginTeardown))
      && (NoneFails(w.fails, n, n + b + 1) ==> TakenAt(t, n + b + 1, CallDelete))
    ensures HandlerDoes(w, o, t, n)
  {
  }

  ghost function PublishPart(o: Options): seq<Event> {
    if o.createFailedRunSamples then [PublishFailedRun] else []
  }

  ghost function CleanupPart(o: Options): seq<Event> {
    if Cleanup in o.runStage && o.alwaysCallCleanup then [Work(Cleanup)] else []
  }

  lemma HandlerPublishes(w: World, p: Point, o: Options)
    ensures o.createFailedRunSamples ==>
      TakenAt(Follow(w, p, HandlerPlan(o)).point.trace, |p.trace|, PublishFailedRun)
  {
    if o.createFailedRunSamples {
      HandlerTakesOne(w, p, o, [], PublishFailedRun, HandlerPlan(o)[1..]);
    }
  }

  lemma HandlerCleansUp(w: World, p: Point, o: Options)
    ensures
      Cleanup in o.runStage && o.alwaysCallCleanup
      && NoneFails(w.fails, |p.trace|, |p.trace| + |PublishPart(o)|)
      ==> TakenAt(Follow(w, p, HandlerPlan(o)).point.trace, |p.trace| + |PublishPart(o)|, Work(Cleanup))
  {
    if Cleanup in o.runStage && o.alwaysCallCleanup {
      HandlerTakesOne(w, p, o, PublishPart(o), Work(Cleanup), HandlerPlan(o)[|PublishPart(o)| + 1..]);
    }
  }

  lemma HandlerTakesOne(w: World, p: Point, o: Options, before: seq<Event>, e: Event, rest: seq<Event>)
    requires HandlerPlan(o) == before + ([e] + rest) && CallDelete !in before
    ensures NoneFails(w.fails, |p.trace|, |p.trace| + |before|) ==>
      TakenAt(Follow(w, p, HandlerPlan(o)).point.trace, |p.trace| + |before|, e)
  {
    if NoneFails(w.fails, |p.trace|, |p.trace| + |before|) {
      assert HandlerPlan(o) == before + [e] + rest;
      TakenAfter(w, p, before, e, rest);
    }
  }

  lemma HandlerDeletes(w: World, p: Point, o: Options, before: seq<Event>)
    requires HandlerPlan(o) == before + DeletePlan() && CallDelete !in before
    ensures NoneFails(w.fails, |p.trace|, |p.trace| + |before|) ==>
      TakenAt(Follow(w, p, HandlerPlan(o)).point.trace, |p.trace| + |before|, BeginTeardown)
    ensures NoneFails(w.fails, |p.trace|, |p.trace| + |before| + 1) ==>
      TakenAt(Follow(w, p, HandlerPlan(o)).point.trace, |p.trace| + |before| + 1, CallDelete)
  {
    assert DeletePlan() == [BeginTeardown] + [CallDelete, EndTeardown];
    HandlerTakesOne(w, p, o, before, BeginTeardown, [CallDelete, EndTeardown]);
    assert HandlerPlan(o) == (before + [BeginTeardown]) + ([CallDelete] + [EndTeardown]);
    HandlerTakesOne(w, p, o, before + [BeginTeardown], CallDelete, [EndTeardown]);
  }

  /** The handler's steps come directly after a failed body, and the finally clause after them. */
  lemma HandlerSteps(w: World, p: Point, o: Options)
    requires Follow(w, p, BodyPlan(o)).failed
    ensures var c := CourseOfTry(w, p, o); HandlerDoes(w, o, c.end.trace, |c.body|)
  {
    var body := Follow(w, p, BodyPlan(o)).point;
    HandlerTakes(w, body, o);
    var handled := Follow(w, body, HandlerPlan(o)).point;
    var k := FollowStopsAtFirst(w, handled, FinallyPlan(o, StillTearsDown(w, p, o)));
    assert handled.trace <= CourseOfTry(w, p, o).end.trace;
  }
}
