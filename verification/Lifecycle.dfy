/**
 One run of a benchmark through its stages, when any step may raise an exception: the stages, the exception
 handler, the deletion of resources and the threads that watch for interrupted machines.
 */
module Lifecycle {
  import opened Wrappers

  datatype Stage = Provision | Prepare | Run | Cleanup | Teardown

  datatype Status = Skipped | Failed | Succeeded

  /** How RunBenchmark ended.  In the first two cases it ended before the benchmark was marked as failed. */
  datatype Ending = NotRun | SkipCheckRaised | EntryRaised | BodyRaised | Completed
  {
    predicate BeforeRun() {
      NotRun? || SkipCheckRaised?
    }
  }

  /** The opaque steps of a run, in the order of the code. */
  datatype Event =
    | SkipCheck | Enter | SetPaths
    | StartThread | Work(stage: Stage) | CheckInterrupted
    | DecideTeardown | BeginTeardown | CallDelete | EndTeardown | UpdateTimeouts
    | AddSamples | PublishFailedRun | Publish | Finish

  /** The flags of the run, and what its opaque decisions answer. */
  datatype Options = Options(
    runStage: set<Stage>,
    interruptible: seq<bool>,           // for every machine, whether it can be interrupted
    skipChecks: seq<bool>,              // what the checks for skipping pending runs answer
    teardownDecision: bool,             // what ShouldTeardown answers
    publishAfterRun: bool,
    createFailedRunSamples: bool,
    alwaysCallCleanup: bool,
    alwaysTeardownOnException: bool)

  /** A resource of the benchmark.  Failures to delete a tolerant one are logged and dropped. */
  datatype Resource = Resource(tolerant: bool)

  /** What lies outside the code: whether the step that is number k of the trace raises, and whether the deletion of
      resource n does in the call of Delete that is number k. */
  datatype World = World(fails: nat -> bool, deletionFails: (nat, nat) -> bool, resources: seq<Resource>)
  {
    predicate Intolerable(k: nat, n: nat) {
      n < |resources| && !resources[n].tolerant && deletionFails(k, n)
    }

    /** In call number k of Delete, resource n is the first whose deletion fails intolerably. */
    ghost predicate StopsAt(k: nat, n: nat) {
      Intolerable(k, n) && forall i: nat :: i < n ==> !Intolerable(k, i)
    }

    ghost predicate DeleteFails(k: nat) {
      exists n: nat :: Intolerable(k, n)
    }
  }

  // ---------------------------------------------------------------------------------------------
  // What is planned, and how far it gets

  /** The steps taken, and whether the resources are deleted. */
  datatype Point = Point(trace: seq<Event>, deleted: bool)

  datatype Reached = Reached(point: Point, failed: bool)

  /** A call of Delete after one that completed does nothing. */
  ghost predicate StepFails(w: World, p: Point, e: Event) {
    if e == CallDelete then !p.deleted && w.DeleteFails(|p.trace|) else w.fails(|p.trace|)
  }

  ghost function Take(w: World, p: Point, e: Event): Point {
    Point(p.trace + [e], p.deleted || (e == CallDelete && !StepFails(w, p, e)))
  }

  /** The plan is followed to its end, or up to the first step that fails. */
  ghost function Follow(w: World, p: Point, plan: seq<Event>): Reached
    decreases |plan|
  {
    if plan == [] then Reached(p, false)
    else if StepFails(w, p, plan[0]) then Reached(Take(w, p, plan[0]), true)
    else Follow(w, Take(w, p, plan[0]), plan[1..])
  }

  lemma FollowOne(w: World, p: Point, e: Event)
    ensures Follow(w, p, [e]) == Reached(Take(w, p, e), StepFails(w, p, e))
  {
    assert [e][1..] == [];
  }

  lemma {:induction false} FollowConcat(w: World, p: Point, a: seq<Event>, b: seq<Event>)
    ensures Follow(w, p, a + b) ==
      var r := Follow(w, p, a);
      if r.failed then r else Follow(w, r.point, b)
    decreases |a|
  {
    if a == [] {
      assert a + b == b;
    } else {
      assert (a + b)[0] == a[0] && (a + b)[1..] == a[1..] + b;
      if !StepFails(w, p, a[0]) { FollowConcat(w, Take(w, p, a[0]), a[1..], b); }
    }
  }

  /** Step i of the plan fails, if it is taken: counted from the start of the plan. */
  ghost predicate FailsAt(w: World, p: Point, plan: seq<Event>, i: nat)
    requires i < |plan|
  {
    if plan[i] == CallDelete then !p.deleted && CallDelete !in plan[..i] && w.DeleteFails(|p.trace| + i)
    else w.fails(|p.trace| + i)
  }

  lemma FailsLater(w: World, p: Point, plan: seq<Event>, i: nat)
    requires plan != [] && !StepFails(w, p, plan[0]) && i < |plan| - 1
    ensures FailsAt(w, Take(w, p, plan[0]), plan[1..], i) <==> FailsAt(w, p, plan, i + 1)
  {
    assert plan[..i + 1] == [plan[0]] + plan[1..][..i];
  }

  /** Which steps of a plan are taken: it fails exactly when some step of it does, and then ends with the first that
      does; else all are taken. */
  lemma {:induction false} FollowStopsAtFirst(w: World, p: Point, plan: seq<Event>) returns (n: nat)
    ensures n <= |plan| && Follow(w, p, plan).point.trace == p.trace + plan[..n]
    ensures forall i: nat :: i < n ==> (FailsAt(w, p, plan, i) <==> Follow(w, p, plan).failed && i == n - 1)
    ensures Follow(w, p, plan).failed ==> n > 0 && FailsAt(w, p, plan, n - 1)
    ensures !Follow(w, p, plan).failed ==> n == |plan|
    decreases |plan|
  {
    if plan == [] {
      n := 0;
      assert p.trace + plan[..0] == p.trace;
    } else if StepFails(w, p, plan[0]) {
      n := 1;
      assert plan[..1] == [plan[0]];
    } else {
      var rest, q := plan[1..], Take(w, p, plan[0]);
      var m := FollowStopsAtFirst(w, q, rest);
      n := m + 1;
      assert q.trace + rest[..m] == p.trace + plan[..n] by { assert plan[..n] == [plan[0]] + rest[..m]; }
      forall i: nat | i < n
        ensures FailsAt(w, p, plan, i) <==> Follow(w, p, plan).failed && i == n - 1
      {
        if i > 0 { FailsLater(w, p, plan, i - 1); }
      }
    }
  }

  lemma FollowSucceedsIff(w: World, p: Point, plan: seq<Event>)
    ensures !Follow(w, p, plan).failed <==> forall i: nat :: i < |plan| ==> !FailsAt(w, p, plan, i)
    ensures !Follow(w, p, plan).failed ==> Follow(w, p, plan).point.trace == p.trace + plan
  {
    var n := FollowStopsAtFirst(w, p, plan);
    if Follow(w, p, plan).failed {
      assert FailsAt(w, p, plan, n - 1);
    } else {
      assert plan[..n] == plan;
    }
  }

  ghost function Threads(interruptible: seq<bool>): seq<Event> {
    if interruptible == [] then []
    else (if interruptible[0] then [StartThread] else []) + Threads(interruptible[1..])
  }

  ghost function WatchedPlan(o: Options, stage: Stage): seq<Event> {
    if stage in o.runStage then Threads(o.interruptible) + [Work(stage), CheckInterrupted] else []
  }

  ghost function ProvisionPlan(o: Options): seq<Event> {
    [SetPaths] + if Provision in o.runStage then [Work(Provision)] else []
  }

  ghost function EarlierPlan(o: Options): seq<Event> {
    ProvisionPlan(o) + (WatchedPlan(o, Prepare) + (WatchedPlan(o, Run) + WatchedPlan(o, Cleanup)))
  }

  ghost function DeletePlan(): seq<Event> {
    [BeginTeardown] + ([CallDelete] + [EndTeardown])
  }

  ghost function TeardownPlan(o: Options): seq<Event> {
    if Teardown in o.runStage then [DecideTeardown] + if o.teardownDecision then DeletePlan() else [UpdateTimeouts]
    else []
  }

  /** The body of the try statement. */
  ghost function BodyPlan(o: Options): seq<Event> {
    EarlierPlan(o) + (TeardownPlan(o) + [AddSamples])
  }

  ghost function HandlerPlan(o: Options): seq<Event> {
    (if o.createFailedRunSamples then [PublishFailedRun] else [])
    + ((if Cleanup in o.runStage && o.alwaysCallCleanup then [Work(Cleanup)] else [])
       + (if o.alwaysTeardownOnException && Teardown !in o.runStage then DeletePlan() else []))
  }

  ghost function FinallyPlan(o: Options, shouldTeardown: bool): seq<Event> {
    (if Teardown in o.runStage && shouldTeardown then [CallDelete] else [])
    + ((if o.publishAfterRun then [Publish] else []) + [Finish])
  }

  // ---------------------------------------------------------------------------------------------
  // The whole run, as a function of what lies outside

  /** body is the trace at the end of the body of the try statement, if that was entered. */
  datatype Course = Course(ending: Ending, end: Point, body: seq<Event>, shouldTeardown: bool)

  datatype Checked = Checked(point: Point, ending: Option<Ending>)

  ghost function Checks(w: World, p: Point, answers: seq<bool>): (c: Checked)
    ensures c.ending.Some? ==> c.ending.value.BeforeRun()
    decreases |answers|
  {
    if answers == [] then Checked(p, None)
    else
      var q := Take(w, p, SkipCheck);
      if StepFails(w, p, SkipCheck) then Checked(q, Some(SkipCheckRaised))
      else if answers[0] then Checked(q, Some(NotRun))
      else Checks(w, q, answers[1..])
  }

  /** The flag that the decision to keep the resources clears, once it is made. */
  ghost predicate StillTearsDown(w: World, p: Point, o: Options) {
    var earlier := Follow(w, p, EarlierPlan(o));
    earlier.failed || Teardown !in o.runStage || o.teardownDecision || w.fails(|earlier.point.trace|)
  }

  ghost function Handled(w: World, body: Reached, o: Options): Reached {
    if body.failed then Follow(w, body.point, HandlerPlan(o)) else body
  }

  ghost function CourseOfTry(w: World, p: Point, o: Options): Course {
    var body, keep := Follow(w, p, BodyPlan(o)), StillTearsDown(w, p, o);
    var last := Follow(w, Handled(w, body, o).point, FinallyPlan(o, keep));
    Course(if body.failed || last.failed then BodyRaised else Completed, last.point, body.point.trace, keep)
  }

  ghost function CourseOf(w: World, p: Point, o: Options): Course {
    var checked := Checks(w, p, o.skipChecks);
    if checked.ending.Some? then Course(checked.ending.value, checked.point, [], true)
    else CourseOfEntry(w, checked.point, o)
  }

  ghost function CourseOfEntry(w: World, p: Point, o: Options): Course {
    if StepFails(w, p, Enter) then Course(EntryRaised, Take(w, p, Enter), [], true)
    else CourseOfTry(w, Take(w, p, Enter), o)
  }

  ghost function SkipChecks(n: nat): (s: seq<Event>)
    ensures |s| == n && forall i :: 0 <= i < n ==> s[i] == SkipCheck
  {
    seq(n, i => SkipCheck)
  }

  ghost predicate NoneFails(fails: nat -> bool, from: nat, to: nat) {
    forall k: nat :: from <= k < to ==> !fails(k)
  }

  /** The checks are passed exactly when none answers yes and none raises. */
  lemma {:induction false} ChecksPassIff(w: World, p: Point, answers: seq<bool>)
    ensures Checks(w, p, answers).ending.None?
      <==> true !in answers && NoneFails(w.fails, |p.trace|, |p.trace| + |answers|)
    ensures Checks(w, p, answers).ending.None? ==>
      Checks(w, p, answers).point == Point(p.trace + SkipChecks(|answers|), p.deleted)
    decreases |answers|
  {
    if answers == [] {
      assert p.trace + SkipChecks(0) == p.trace;
    } else {
      var q, rest := Take(w, p, SkipCheck), answers[1..];
      assert forall a :: a in answers <==> a == answers[0] || a in rest;
      ChecksPassIff(w, q, rest);
      assert p.trace + SkipChecks(|answers|) == q.trace + SkipChecks(|rest|);
    }
  }

  /** Where the try statement is entered. */
  ghost function EnteredAt(p: Point, o: Options): Point {
    Point(p.trace + SkipChecks(|o.skipChecks|) + [Enter], p.deleted)
  }

  /** No skip check answers yes, and neither the checks nor the entry raise. */
  ghost predicate Enters(w: World, p: Point, o: Options) {
    true !in o.skipChecks && NoneFails(w.fails, |p.trace|, |p.trace| + |o.skipChecks| + 1)
  }

  lemma EntersIff(w: World, p: Point, o: Options)
    ensures if Enters(w, p, o) then CourseOf(w, p, o) == CourseOfTry(w, EnteredAt(p, o), o)
      else CourseOf(w, p, o).ending in {NotRun, SkipCheckRaised, EntryRaised} && CourseOf(w, p, o).body == []
  {
    ChecksPassIff(w, p, o.skipChecks);
    var checked := Checks(w, p, o.skipChecks);
    if checked.ending.None? {
      assert StepFails(w, checked.point, Enter) <==> w.fails(|p.trace| + |o.skipChecks|);
    }
  }

  /** The steps of a try statement in which nothing fails. */
  ghost function WholePlan(o: Options): seq<Event> {
    BodyPlan(o) + FinallyPlan(o, o.teardownDecision)
  }

  /** A run that is not skipped completes exactly when no step fails that is not tolerated: no skip check, no step of
      the body or the finally clause, and no deletion of a resource in the first call of Delete. */
  lemma CompletesIff(w: World, p: Point, o: Options)
    ensures CourseOf(w, p, o).ending.Completed?
      <==> && Enters(w, p, o)
           && forall i: nat :: i < |WholePlan(o)| ==> !FailsAt(w, EnteredAt(p, o), WholePlan(o), i)
    ensures CourseOf(w, p, o).ending.Completed? ==>
      CourseOf(w, p, o).end.trace == EnteredAt(p, o).trace + WholePlan(o)
  {
    EntersIff(w, p, o);
    FollowSucceedsIff(w, EnteredAt(p, o), WholePlan(o));
    TryCompletesIff(w, EnteredAt(p, o), o);
  }

  lemma TryCompletesIff(w: World, p: Point, o: Options)
    ensures CourseOfTry(w, p, o).ending.Completed?
      <==> !Follow(w, p, WholePlan(o)).failed
    ensures CourseOfTry(w, p, o).ending.Completed? ==> CourseOfTry(w, p, o).end == Follow(w, p, WholePlan(o)).point
  {
    FollowConcat(w, p, BodyPlan(o), FinallyPlan(o, o.teardownDecision));
    var body := Follow(w, p, BodyPlan(o));
    if !body.failed {
      DecisionOfCompleted(w, p, o);
    }
  }

  /** If the body does not fail, the flag is what was decided. */
  lemma DecisionOfCompleted(w: World, p: Point, o: Options)
    requires !Follow(w, p, BodyPlan(o)).failed
    ensures Teardown in o.runStage ==> StillTearsDown(w, p, o) == o.teardownDecision
    ensures FinallyPlan(o, StillTearsDown(w, p, o)) == FinallyPlan(o, o.teardownDecision)
  {
    FollowConcat(w, p, EarlierPlan(o), TeardownPlan(o) + [AddSamples]);
    var earlier := Follow(w, p, EarlierPlan(o));
    if Teardown in o.runStage {
      assert (TeardownPlan(o) + [AddSamples])[0] == DecideTeardown;
    }
  }

  /** Delete is called after the body. */
  ghost predicate CallsDelete(c: Course) {
    |c.body| < |c.end.trace| && CallDelete in c.end.trace[|c.body|..]
  }

  /** Whatever fails, a teardown that is asked for and was not decided against is attempted in the finally clause,
      also when the body has torn down already. */
  lemma DeleteIsCalled(w: World, p: Point, o: Options)
    requires CourseOf(w, p, o).ending.BodyRaised? || CourseOf(w, p, o).ending.Completed?
    requires Teardown in o.runStage && CourseOf(w, p, o).shouldTeardown
    ensures CallsDelete(CourseOf(w, p, o))
  {
    EntersIff(w, p, o);
    DeleteIsCalledInTry(w, EnteredAt(p, o), o);
  }

  lemma DeleteIsCalledInTry(w: World, p: Point, o: Options)
    requires Teardown in o.runStage && StillTearsDown(w, p, o)
    ensures CallsDelete(CourseOfTry(w, p, o))
  {
    var body := Follow(w, p, BodyPlan(o));
    var h := HandledExtends(w, body, o);
    var f := DeleteComesFirst(w, Handled(w, body, o).point, o);
    InTail(body.point.trace, h, f);
  }

  lemma InTail(b: seq<Event>, h: seq<Event>, f: seq<Event>)
    requires CallDelete in f
    ensures |b| < |b + h + f| && CallDelete in (b + h + f)[|b|..]
  {
    assert b + h + f == b + (h + f) && (b + (h + f))[|b|..] == h + f;
  }

  lemma HandledExtends(w: World, body: Reached, o: Options) returns (more: seq<Event>)
    ensures Handled(w, body, o).point.trace == body.point.trace + more
  {
    more := [];
    if body.failed {
      var n := FollowStopsAtFirst(w, body.point, HandlerPlan(o));
      more := HandlerPlan(o)[..n];
    }
  }

  lemma DeleteComesFirst(w: World, p: Point, o: Options) returns (more: seq<Event>)
    requires Teardown in o.runStage
    ensures Follow(w, p, FinallyPlan(o, true)).point.trace == p.trace + more && CallDelete in more
  {
    var plan := FinallyPlan(o, true);
    var n := FollowStopsAtFirst(w, p, plan);
    more := plan[..n];
    assert n > 0 && plan[0] == CallDelete && more[0] == plan[0];
  }

  lemma {:induction false} StaysDeleted(w: World, p: Point, plan: seq<Event>)
    requires p.deleted || (CallDelete in plan && !Follow(w, p, plan).failed)
    ensures Follow(w, p, plan).point.deleted
    decreases |plan|
  {
    if plan != [] && !StepFails(w, p, plan[0]) {
      StaysDeleted(w, Take(w, p, plan[0]), plan[1..]);
    }
  }

  /** A completed run that was to tear down has deleted everything. */
  lemma CompletedIsDeleted(w: World, p: Point, o: Options)
    requires CourseOf(w, p, o).ending.Completed? && Teardown in o.runStage && o.teardownDecision
    ensures CourseOf(w, p, o).end.deleted
  {
    EntersIff(w, p, o);
    var q := EnteredAt(p, o);
    DecisionOfCompleted(w, q, o);
    assert FinallyPlan(o, true)[0] == CallDelete;
    StaysDeleted(w, Follow(w, q, BodyPlan(o)).point, FinallyPlan(o, true));
  }

  // ---------------------------------------------------------------------------------------------
  // The threads that are left

  /** How many threads were being started when this trace ended. */
  ghost function Starting(trace: seq<Event>): nat {
    if trace == [] || trace[|trace| - 1] != StartThread then 0 else 1 + Starting(trace[..|trace| - 1])
  }

  /** The threads of a watcher that could not be completed: all that were being started but the last, whose start
      failed. */
  ghost function Survivors(trace: seq<Event>): nat {
    if Starting(trace) == 0 then 0 else Starting(trace) - 1
  }

  lemma SurvivorsIff(trace: seq<Event>)
    ensures Survivors(trace) > 0
      <==> |trace| >= 2 && trace[|trace| - 1] == trace[|trace| - 2] == StartThread
  {
    if trace != [] && trace[|trace| - 1] == StartThread {
      var shorter := trace[..|trace| - 1];
      assert Starting(trace) == 1 + Starting(shorter);
      if shorter != [] { assert shorter[|shorter| - 1] == trace[|trace| - 2]; }
    }
  }

  /** The first step of the plan that fails is the start of a thread, and so is the step before it. */
  ghost predicate SecondStartFails(fails: nat -> bool, k: nat, plan: seq<Event>) {
    exists i: nat :: IsFailingSecondStart(fails, k, plan, i)
  }

  ghost predicate IsFailingSecondStart(fails: nat -> bool, k: nat, plan: seq<Event>, i: nat) {
    && 1 <= i < |plan| && plan[i - 1] == plan[i] == StartThread
    && fails(k + i) && NoneFails(fails, k, k + i)
  }

  lemma {:induction false} OnlyThreads(interruptible: seq<bool>)
    ensures forall e :: e in Threads(interruptible) ==> e == StartThread
    ensures |Threads(interruptible)| == multiset(interruptible)[true]
  {
    if interruptible != [] {
      OnlyThreads(interruptible[1..]);
      assert interruptible == [interruptible[0]] + interruptible[1..];
    }
  }

  lemma EarlierWithoutDelete(o: Options)
    ensures CallDelete !in EarlierPlan(o)
    ensures StartThread !in TeardownPlan(o) + [AddSamples]
  {
    OnlyThreads(o.interruptible);
  }

  lemma StartsAreEarly(o: Options)
    ensures forall i :: |EarlierPlan(o)| <= i < |BodyPlan(o)| ==> BodyPlan(o)[i] != StartThread
  {
    EarlierWithoutDelete(o);
    var earlier, rest := EarlierPlan(o), TeardownPlan(o) + [AddSamples];
    forall i | |earlier| <= i < |BodyPlan(o)| ensures BodyPlan(o)[i] != StartThread {
      assert BodyPlan(o)[i] == rest[i - |earlier|] && rest[i - |earlier|] in rest;
    }
  }

  /** A watcher thread is left exactly when the run gets to its stages, and the first step to fail there is the start
      of a thread directly after that of another one. */
  lemma ThreadSurvivesIff(w: World, p: Point, o: Options)
    ensures Survivors(CourseOf(w, p, o).body) > 0
      <==> Enters(w, p, o) && SecondStartFails(w.fails, |p.trace| + |o.skipChecks| + 1, EarlierPlan(o))
  {
    EntersIff(w, p, o);
    SurvivesInTryIff(w, EnteredAt(p, o), o);
  }

  lemma SurvivesInTryIff(w: World, p: Point, o: Options)
    requires p.trace != [] && p.trace[|p.trace| - 1] == Enter
    ensures Survivors(CourseOfTry(w, p, o).body) > 0 <==> SecondStartFails(w.fails, |p.trace|, EarlierPlan(o))
  {
    if Survivors(CourseOfTry(w, p, o).body) > 0 {
      SurvivorNeedsFailure(w, p, o);
    }
    if i: nat :| IsFailingSecondStart(w.fails, |p.trace|, EarlierPlan(o), i) {
      FailureLeavesSurvivor(w, p, o, i);
    }
  }

  lemma SurvivorNeedsFailure(w: World, p: Point, o: Options)
    requires p.trace != [] && p.trace[|p.trace| - 1] == Enter
    requires Survivors(Follow(w, p, BodyPlan(o)).point.trace) > 0
    ensures SecondStartFails(w.fails, |p.trace|, EarlierPlan(o))
  {
    var plan, earlier := BodyPlan(o), EarlierPlan(o);
    var n := FollowStopsAtFirst(w, p, plan);
    SurvivorsIff(p.trace + plan[..n]);
    LastTwo(p.trace, plan, n);
    StartsAreEarly(o);
    EarlierWithoutDelete(o);
    assert plan[|plan| - 1] == AddSamples && n <= |earlier|;
    FirstToFail(w, p, plan, earlier, n - 1);
    assert IsFailingSecondStart(w.fails, |p.trace|, earlier, n - 1);
  }

  lemma FailureLeavesSurvivor(w: World, p: Point, o: Options, i: nat)
    requires p.trace != [] && p.trace[|p.trace| - 1] == Enter
    requires IsFailingSecondStart(w.fails, |p.trace|, EarlierPlan(o), i)
    ensures Survivors(Follow(w, p, BodyPlan(o)).point.trace) > 0
  {
    var plan, earlier := BodyPlan(o), EarlierPlan(o);
    var n := FollowStopsAtFirst(w, p, plan);
    EarlierWithoutDelete(o);
    assert plan[i] == earlier[i] && plan[i - 1] == earlier[i - 1];
    assert FailsAt(w, p, plan, i);
    forall j: nat | j < i ensures !FailsAt(w, p, plan, j) {
      NotYetFailing(w, p, plan, earlier, i, j);
    }
    assert n == i + 1;
    LastTwo(p.trace, plan, n);
    SurvivorsIff(p.trace + plan[..n]);
  }

  /** What is true of a course. */
  ghost predicate KeepsPromises(w: World, p: Point, o: Options, c: Course) {
    && (c.ending.Completed?
        <==> && Enters(w, p, o)
             && forall i: nat :: i < |WholePlan(o)| ==> !FailsAt(w, EnteredAt(p, o), WholePlan(o), i))
    && (c.ending.Completed? && Teardown in o.runStage && o.teardownDecision ==> c.end.deleted)
    && (!c.shouldTeardown ==> Teardown in o.runStage && !o.teardownDecision)
    && ((c.ending.BodyRaised? || c.ending.Completed?) && Teardown in o.runStage && c.shouldTeardown ==> CallsDelete(c))
    && (Survivors(c.body) > 0
        <==> Enters(w, p, o) && SecondStartFails(w.fails, |p.trace| + |o.skipChecks| + 1, EarlierPlan(o)))
  }

  lemma EveryCourseKeepsPromises(w: World, p: Point, o: Options)
    ensures KeepsPromises(w, p, o, CourseOf(w, p, o))
  {
    var c := CourseOf(w, p, o);
    CompletesIff(w, p, o);
    ThreadSurvivesIff(w, p, o);
    if c.ending.Completed? && Teardown in o.runStage && o.teardownDecision {
      CompletedIsDeleted(w, p, o);
    }
    if (c.ending.BodyRaised? || c.ending.Completed?) && Teardown in o.runStage && c.shouldTeardown {
      DeleteIsCalled(w, p, o);
    }
  }

  lemma NotYetFailing(w: World, p: Point, plan: seq<Event>, earlier: seq<Event>, i: nat, j: nat)
    requires IsFailingSecondStart(w.fails, |p.trace|, earlier, i) && earlier <= plan && CallDelete !in earlier && j < i
    ensures !FailsAt(w, p, plan, j)
  {
    assert plan[j] == earlier[j] && earlier[j] in earlier;
  }

  lemma FirstToFail(w: World, p: Point, plan: seq<Event>, earlier: seq<Event>, i: nat)
    requires earlier <= plan && CallDelete !in earlier && i < |earlier|
    requires FailsAt(w, p, plan, i) && forall j: nat :: j < i ==> !FailsAt(w, p, plan, j)
    ensures w.fails(|p.trace| + i) && NoneFails(w.fails, |p.trace|, |p.trace| + i)
  {
    assert plan[i] in earlier;
    forall k: nat | |p.trace| <= k < |p.trace| + i ensures !w.fails(k) {
      var j := k - |p.trace|;
      assert !FailsAt(w, p, plan, j) && plan[j] == earlier[j] && earlier[j] in earlier;
    }
  }

  lemma LastTwo(before: seq<Event>, plan: seq<Event>, n: nat)
    requires n <= |plan| && before != [] && before[|before| - 1] == Enter
    ensures var trace := before + plan[..n];
      (|trace| >= 2 && trace[|trace| - 1] == trace[|trace| - 2] == StartThread)
      <==> n >= 2 && plan[n - 1] == plan[n - 2] == StartThread
  {
    var trace := before + plan[..n];
    if n == 0 { assert trace == before; }
    if n == 1 { assert trace[|trace| - 2] == before[|before| - 1]; }
  }

  // ---------------------------------------------------------------------------------------------
  // The objects

  /** The outside world, and the history of the steps. */
  class Environment {
    const fails: nat -> bool
    const deletionFails: (nat, nat) -> bool
    var trace: seq<Event>
    var liveThreads: nat

    constructor (fails: nat -> bool, deletionFails: (nat, nat) -> bool)
      ensures this.fails == fails && this.deletionFails == deletionFails && trace == [] && liveThreads == 0
    {
      this.fails, this.deletionFails := fails, deletionFails;
      trace, liveThreads := [], 0;
    }

    /** An opaque step that may raise. */
    method Step(event: Event) returns (failed: bool)
      modifies this`trace
      ensures trace == old(trace) + [event] && failed == fails(|old(trace)|)
    {
      failed := fails(|trace|);
      trace := trace + [event];
    }
  }

  class BenchmarkSpec {
    const resources: seq<Resource>
    var status: Status
    var deleted: bool
    var attempts: seq<nat>         // history: the resources whose deletion was attempted, in order

    constructor (resources: seq<Resource>, status: Status)
      ensures this.resources == resources && this.status == status && !deleted && attempts == []
    {
      this.resources := resources;
      this.status := status;
      deleted, attempts := false, [];
    }

    /** Deletes the resources in order up to the first one that fails intolerably.  Once a call has completed,
        later calls do nothing. */
    method Delete(env: Environment) returns (failed: bool)
      modifies this`deleted, this`attempts, env`trace
      ensures failed == StepFails(WorldOf(env, this), old(Now(env, this)), CallDelete)
      ensures Now(env, this) == Take(WorldOf(env, this), old(Now(env, this)), CallDelete)
      ensures old(deleted) ==> attempts == old(attempts)
      ensures !old(deleted) && !failed ==> attempts == old(attempts) + seq(|resources|, i => i)
      ensures !old(deleted) ==> forall n: nat :: WorldOf(env, this).StopsAt(|old(env.trace)|, n) ==>
        attempts == old(attempts) + seq(n + 1, i => i)
    {
      ghost var w, k := WorldOf(env, this), |env.trace|;
      var call := |env.trace|;
      env.trace := env.trace + [CallDelete];
      if deleted {
        return false;
      }
      for i := 0 to |resources|
        invariant !deleted && env.trace == old(env.trace) + [CallDelete]
        invariant attempts == old(attempts) + seq(i, k => k)
        invariant forall j: nat :: j < i ==> !w.Intolerable(k, j)
      {
        attempts := attempts + [i];
        assert attempts == old(attempts) + seq(i + 1, k => k);
        if env.deletionFails(call, i) && !resources[i].tolerant {
          assert w.Intolerable(k, i);
          return true;
        }
      }
      deleted := true;
      return false;
    }
  }

  ghost function WorldOf(env: Environment, spec: BenchmarkSpec): World {
    World(env.fails, env.deletionFails, spec.resources)
  }

  ghost function Now(env: Environment, spec: BenchmarkSpec): Point
    reads env, spec
  {
    Point(env.trace, spec.deleted)
  }

  /** The watcher of the interruptible machines; it has one thread for each of them. */
  class InterruptChecker {
    var alive: nat

    constructor ()
      ensures alive == 0
    {
      alive := 0;
    }

    /** Starts the threads.  When a start fails the watcher is lost and its threads go on. */
    static method Start(env: Environment, ghost spec: BenchmarkSpec, interruptible: seq<bool>)
      returns (checker: InterruptChecker?)
      requires Starting(env.trace) == 0
      modifies env`trace, env`liveThreads
      ensures Follow(WorldOf(env, spec), old(Now(env, spec)), Threads(interruptible))
           == Reached(Now(env, spec), checker == null)
      ensures checker != null ==> fresh(checker) && env.liveThreads == old(env.liveThreads) + checker.alive
      ensures checker == null ==> env.liveThreads == old(env.liveThreads) + Survivors(env.trace)
    {
      ghost var w, start := WorldOf(env, spec), Now(env, spec);
      var c := new InterruptChecker();
      for i := 0 to |interruptible|
        invariant fresh(c) && env.liveThreads == old(env.liveThreads) + c.alive && Starting(env.trace) == c.alive
        invariant Follow(w, Now(env, spec), Threads(interruptible[i..])) == Follow(w, start, Threads(interruptible))
      {
        ThreadsStep(w, Now(env, spec), interruptible, i);
        OneMoreStarting(env.trace);
        if interruptible[i] {
          var failed := env.Step(StartThread);
          if failed {
            return null;
          }
          c.alive := c.alive + 1;
          env.liveThreads := env.liveThreads + 1;
        }
      }
      return c;
    }

    method EndCheckInterruptThread(env: Environment)
      requires alive <= env.liveThreads
      modifies this, env`liveThreads
      ensures alive == 0 && env.liveThreads == old(env.liveThreads) - old(alive)
    {
      env.liveThreads := env.liveThreads - alive;
      alive := 0;
    }

    /** Fails when a machine was interrupted. */
    method EndCheckInterruptThreadAndRaiseError(env: Environment) returns (failed: bool)
      requires alive <= env.liveThreads
      modifies this, env`liveThreads, env`trace
      ensures alive == 0 && env.liveThreads == old(env.liveThreads) - old(alive)
      ensures env.trace == old(env.trace) + [CheckInterrupted] && failed == env.fails(|old(env.trace)|)
    {
      EndCheckInterruptThread(env);
      failed := env.Step(CheckInterrupted);
    }
  }

  lemma ThreadsStep(w: World, p: Point, interruptible: seq<bool>, i: nat)
    requires i < |interruptible|
    ensures var rest := Threads(interruptible[i + 1..]);
      Follow(w, p, Threads(interruptible[i..])) ==
        if !interruptible[i] then Follow(w, p, rest)
        else if StepFails(w, p, StartThread) then Reached(Take(w, p, StartThread), true)
        else Follow(w, Take(w, p, StartThread), rest)
  {
    var rest := Threads(interruptible[i + 1..]);
    assert interruptible[i..][1..] == interruptible[i + 1..];
    if interruptible[i] {
      FollowFirst(w, p, StartThread, rest);
    } else {
      assert [] + rest == rest;
    }
  }

  lemma OneMoreStarting(trace: seq<Event>)
    ensures Starting(trace + [StartThread]) == Starting(trace) + 1
  {
    assert (trace + [StartThread])[..|trace|] == trace;
  }

  lemma FollowFirst(w: World, p: Point, e: Event, rest: seq<Event>)
    ensures Follow(w, p, [e] + rest) ==
      if StepFails(w, p, e) then Reached(Take(w, p, e), true) else Follow(w, Take(w, p, e), rest)
  {
    assert ([e] + rest)[1..] == rest;
  }

  /** The local variables of RunBenchmark. */
  class Frame {
    var shouldTeardown: bool
    var checker: InterruptChecker?

    constructor ()
      ensures shouldTeardown && checker == null
    {
      shouldTeardown, checker := true, null;
    }

    ghost function Watching(): nat
      reads this, checker
    {
      if checker == null then 0 else checker.alive
    }
  }

  /** Every new live thread belongs to the current watcher or to one that could not be completed. */
  ghost predicate ThreadsAccounted(env: Environment, frame: Frame, before: nat)
    reads env, frame, frame.checker
  {
    env.liveThreads == before + frame.Watching() + Survivors(env.trace)
  }

  // ---------------------------------------------------------------------------------------------
  // The run

  lemma NothingStarting(w: World, p: Point, plan: seq<Event>)
    requires plan != [] && StartThread !in plan
    ensures Starting(Follow(w, p, plan).point.trace) == 0
  {
    var n := FollowStopsAtFirst(w, p, plan);
    assert n > 0 && plan[..n][n - 1] == plan[n - 1];
    assert (p.trace + plan[..n])[|p.trace| + n - 1] == plan[n - 1] && plan[n - 1] in plan;
  }

  /** A stage under the eyes of a watcher, if it is asked for. */
  method WatchedStage(env: Environment, ghost spec: BenchmarkSpec, frame: Frame, o: Options, stage: Stage)
    returns (failed: bool)
    requires frame.checker == null && Starting(env.trace) == 0
    modifies env`trace, env`liveThreads, frame`checker
    ensures Follow(WorldOf(env, spec), old(Now(env, spec)), WatchedPlan(o, stage)) == Reached(Now(env, spec), failed)
    ensures ThreadsAccounted(env, frame, old(env.liveThreads))
    ensures frame.checker == null || fresh(frame.checker)
    ensures !failed ==> frame.checker == null && Starting(env.trace) == 0
  {
    if stage !in o.runStage {
      return false;
    }
    ghost var w, work := WorldOf(env, spec), [Work(stage), CheckInterrupted];
    FollowConcat(w, Now(env, spec), Threads(o.interruptible), work);
    var checker := InterruptChecker.Start(env, spec, o.interruptible);
    if checker == null {
      return true;
    }
    frame.checker := checker;
    NothingStarting(w, Now(env, spec), work);
    failed := WatchedWork(env, spec, checker, stage);
    if !failed {
      frame.checker := null;
    }
  }

  /** The stage itself, and the end of the watching if it succeeds. */
  method WatchedWork(env: Environment, ghost spec: BenchmarkSpec, checker: InterruptChecker, stage: Stage)
    returns (failed: bool)
    requires checker.alive <= env.liveThreads
    modifies env`trace, env`liveThreads, checker
    ensures Follow(WorldOf(env, spec), old(Now(env, spec)), [Work(stage), CheckInterrupted])
         == Reached(Now(env, spec), failed)
    ensures env.liveThreads - checker.alive == old(env.liveThreads) - old(checker.alive)
    ensures !failed ==> checker.alive == 0
  {
    assert [Work(stage), CheckInterrupted] == [Work(stage)] + [CheckInterrupted];
    FollowFirst(WorldOf(env, spec), Now(env, spec), Work(stage), [CheckInterrupted]);
    failed := env.Step(Work(stage));
    if failed { return; }
    FollowOne(WorldOf(env, spec), Now(env, spec), CheckInterrupted);
    failed := checker.EndCheckInterruptThreadAndRaiseError(env);
  }

  method DoTeardownPhase(env: Environment, spec: BenchmarkSpec) returns (failed: bool)
    modifies env`trace, spec`deleted, spec`attempts
    ensures Follow(WorldOf(env, spec), old(Now(env, spec)), DeletePlan()) == Reached(Now(env, spec), failed)
  {
    ghost var w := WorldOf(env, spec);
    FollowFirst(w, Now(env, spec), BeginTeardown, [CallDelete] + [EndTeardown]);
    failed := env.Step(BeginTeardown);
    if failed { return; }
    FollowFirst(w, Now(env, spec), CallDelete, [EndTeardown]);
    failed := spec.Delete(env);
    if failed { return; }
    FollowOne(w, Now(env, spec), EndTeardown);
    failed := env.Step(EndTeardown);
  }

  method ProvisionStage(env: Environment, ghost spec: BenchmarkSpec, o: Options) returns (failed: bool)
    modifies env`trace
    ensures Follow(WorldOf(env, spec), old(Now(env, spec)), ProvisionPlan(o)) == Reached(Now(env, spec), failed)
  {
    ghost var rest := if Provision in o.runStage then [Work(Provision)] else [];
    FollowFirst(WorldOf(env, spec), Now(env, spec), SetPaths, rest);
    failed := env.Step(SetPaths);
    if failed { return; }
    if Provision in o.runStage {
      FollowOne(WorldOf(env, spec), Now(env, spec), Work(Provision));
      failed := env.Step(Work(Provision));
    }
  }

  /** The stages before the teardown. */
  method EarlierStages(env: Environment, ghost spec: BenchmarkSpec, frame: Frame, o: Options) returns (failed: bool)
    requires frame.checker == null && Starting(env.trace) == 0
    modifies env`trace, env`liveThreads, frame`checker
    ensures Follow(WorldOf(env, spec), old(Now(env, spec)), EarlierPlan(o)) == Reached(Now(env, spec), failed)
    ensures ThreadsAccounted(env, frame, old(env.liveThreads))
    ensures frame.checker == null || fresh(frame.checker)
    ensures !failed ==> frame.checker == null && Starting(env.trace) == 0
  {
    ghost var w, run, cleanup := WorldOf(env, spec), WatchedPlan(o, Run), WatchedPlan(o, Cleanup);
    FollowConcat(w, Now(env, spec), ProvisionPlan(o), WatchedPlan(o, Prepare) + (run + cleanup));
    NothingStarting(w, Now(env, spec), ProvisionPlan(o));
    failed := ProvisionStage(env, spec, o);
    if failed { return; }
    FollowConcat(w, Now(env, spec), WatchedPlan(o, Prepare), run + cleanup);
    failed := WatchedStage(env, spec, frame, o, Prepare);
    if failed { return; }
    FollowConcat(w, Now(env, spec), run, cleanup);
    failed := WatchedStage(env, spec, frame, o, Run);
    if failed { return; }
    failed := WatchedStage(env, spec, frame, o, Cleanup);
  }

  /** The teardown and the samples at the end of the body. */
  method TeardownStage(env: Environment, spec: BenchmarkSpec, frame: Frame, o: Options) returns (failed: bool)
    requires frame.shouldTeardown
    modifies env`trace, frame`shouldTeardown, spec`deleted, spec`attempts
    ensures Follow(WorldOf(env, spec), old(Now(env, spec)), TeardownPlan(o) + [AddSamples])
         == Reached(Now(env, spec), failed)
    ensures frame.shouldTeardown
      <==> Teardown !in o.runStage || o.teardownDecision || env.fails(|old(env.trace)|)
  {
    ghost var w := WorldOf(env, spec);
    FollowConcat(w, Now(env, spec), TeardownPlan(o), [AddSamples]);
    if Teardown in o.runStage {
      FollowFirst(w, Now(env, spec), DecideTeardown, if o.teardownDecision then DeletePlan() else [UpdateTimeouts]);
      failed := env.Step(DecideTeardown);
      if failed { return; }
      frame.shouldTeardown := o.teardownDecision;
      if frame.shouldTeardown {
        failed := DoTeardownPhase(env, spec);
      } else {
        FollowOne(w, Now(env, spec), UpdateTimeouts);
        failed := env.Step(UpdateTimeouts);
      }
      if failed { return; }
    }
    FollowOne(w, Now(env, spec), AddSamples);
    failed := env.Step(AddSamples);
  }

  /** The body of the try statement. */
  method Body(env: Environment, spec: BenchmarkSpec, frame: Frame, o: Options) returns (failed: bool)
    requires frame.checker == null && frame.shouldTeardown && Starting(env.trace) == 0
    modifies env`trace, env`liveThreads, frame, spec`deleted, spec`attempts
    ensures Follow(WorldOf(env, spec), old(Now(env, spec)), BodyPlan(o)) == Reached(Now(env, spec), failed)
    ensures frame.shouldTeardown == StillTearsDown(WorldOf(env, spec), old(Now(env, spec)), o)
    ensures ThreadsAccounted(env, frame, old(env.liveThreads))
    ensures frame.checker == null || fresh(frame.checker)
  {
    ghost var w, rest := WorldOf(env, spec), TeardownPlan(o) + [AddSamples];
    FollowConcat(w, Now(env, spec), EarlierPlan(o), rest);
    failed := EarlierStages(env, spec, frame, o);
    if failed { return; }
    EarlierWithoutDelete(o);
    NothingStarting(w, Now(env, spec), rest);
    failed := TeardownStage(env, spec, frame, o);
  }

  /** The exception handler, which re-raises whether or not one of its own steps raises. */
  method Handler(env: Environment, spec: BenchmarkSpec, o: Options) returns (failed: bool)
    modifies env`trace, spec`deleted, spec`attempts
    ensures Follow(WorldOf(env, spec), old(Now(env, spec)), HandlerPlan(o)) == Reached(Now(env, spec), failed)
  {
    failed := false;
    ghost var w := WorldOf(env, spec);
    ghost var publish := if o.createFailedRunSamples then [PublishFailedRun] else [];
    ghost var cleanup := if Cleanup in o.runStage && o.alwaysCallCleanup then [Work(Cleanup)] else [];
    ghost var delete := if o.alwaysTeardownOnException && Teardown !in o.runStage then DeletePlan() else [];
    FollowConcat(w, Now(env, spec), publish, cleanup + delete);
    if o.createFailedRunSamples {
      FollowOne(w, Now(env, spec), PublishFailedRun);
      failed := env.Step(PublishFailedRun);
      if failed { return; }
    }
    FollowConcat(w, Now(env, spec), cleanup, delete);
    if Cleanup in o.runStage && o.alwaysCallCleanup {
      FollowOne(w, Now(env, spec), Work(Cleanup));
      failed := env.Step(Work(Cleanup));
      if failed { return; }
    }
    if o.alwaysTeardownOnException && Teardown !in o.runStage {
      failed := DoTeardownPhase(env, spec);
    }
  }

  /** The finally clause. */
  method Finally(env: Environment, spec: BenchmarkSpec, frame: Frame, o: Options) returns (failed: bool)
    requires frame.checker != null ==> frame.checker.alive <= env.liveThreads
    modifies env`trace, env`liveThreads, frame.checker, spec`deleted, spec`attempts
    ensures Follow(WorldOf(env, spec), old(Now(env, spec)), FinallyPlan(o, frame.shouldTeardown))
         == Reached(Now(env, spec), failed)
    ensures env.liveThreads == old(env.liveThreads) - old(frame.Watching())
  {
    if frame.checker != null {
      frame.checker.EndCheckInterruptThread(env);
    }
    ghost var w := WorldOf(env, spec);
    ghost var delete := if Teardown in o.runStage && frame.shouldTeardown then [CallDelete] else [];
    ghost var publish := if o.publishAfterRun then [Publish] else [];
    FollowConcat(w, Now(env, spec), delete, publish + [Finish]);
    if Teardown in o.runStage && frame.shouldTeardown {
      FollowOne(w, Now(env, spec), CallDelete);
      failed := spec.Delete(env);
      if failed { return; }
    }
    failed := PublishAndFinish(env, spec, o);
  }

  method PublishAndFinish(env: Environment, ghost spec: BenchmarkSpec, o: Options) returns (failed: bool)
    modifies env`trace
    ensures Follow(WorldOf(env, spec), old(Now(env, spec)), (if o.publishAfterRun then [Publish] else []) + [Finish])
         == Reached(Now(env, spec), failed)
  {
    ghost var w, publish := WorldOf(env, spec), if o.publishAfterRun then [Publish] else [];
    FollowConcat(w, Now(env, spec), publish, [Finish]);
    if o.publishAfterRun {
      FollowOne(w, Now(env, spec), Publish);
      failed := env.Step(Publish);
      if failed { return; }
    }
    FollowOne(w, Now(env, spec), Finish);
    failed := env.Step(Finish);
  }

  /** The try statement: body, handler and finally clause. */
  method TryStatement(env: Environment, spec: BenchmarkSpec, o: Options) returns (failed: bool, shouldTeardown: bool)
    requires Starting(env.trace) == 0
    modifies env`trace, env`liveThreads, spec`deleted, spec`attempts
    ensures var c := CourseOfTry(WorldOf(env, spec), old(Now(env, spec)), o);
      && c.ending == (if failed then BodyRaised else Completed)
      && Now(env, spec) == c.end && shouldTeardown == c.shouldTeardown
      && env.liveThreads == old(env.liveThreads) + Survivors(c.body)
  {
    var frame := new Frame();
    failed := Body(env, spec, frame, o);
    if failed {
      var handlerFailed := Handler(env, spec, o);
    }
    var finallyFailed := Finally(env, spec, frame, o);
    shouldTeardown := frame.shouldTeardown;
    failed := failed || finallyFailed;
  }

  method RunSkipChecks(env: Environment, ghost spec: BenchmarkSpec, answers: seq<bool>)
    returns (skipped: Option<Ending>)
    modifies env`trace
    ensures Checks(WorldOf(env, spec), old(Now(env, spec)), answers) == Checked(Now(env, spec), skipped)
  {
    ghost var w, start := WorldOf(env, spec), Now(env, spec);
    for i := 0 to |answers|
      invariant Checks(w, Now(env, spec), answers[i..]) == Checks(w, start, answers)
    {
      assert answers[i..][1..] == answers[i + 1..];
      var failed := env.Step(SkipCheck);
      if failed {
        return Some(SkipCheckRaised);
      }
      if answers[i] {
        return Some(NotRun);
      }
    }
    return None;
  }

  /**
   For failures of any steps, those of the handler and of the deletion included: how the run ends, which steps it
   takes, what it deletes and which threads it leaves are those of CourseOf.  The status is unchanged if the run was
   skipped, Succeeded if it completed, and Failed otherwise.  So, whatever fails:
   it completes exactly when it is entered and no step fails that is not tolerated;
   a teardown that is asked for and not decided against calls Delete after the body, once the body is entered;
   a watcher thread is left exactly when the first step to fail is the second start of a thread in a row, or a later.
   */
  method RunBenchmark(env: Environment, spec: BenchmarkSpec, o: Options)
    returns (ending: Ending, shouldTeardown: bool)
    modifies env`trace, env`liveThreads, spec
    ensures var c := CourseOf(WorldOf(env, spec), old(Now(env, spec)), o);
      && ending == c.ending && Now(env, spec) == c.end && shouldTeardown == c.shouldTeardown
      && env.liveThreads == old(env.liveThreads) + Survivors(c.body)
    ensures spec.status ==
      if ending.BeforeRun() then old(spec.status) else if ending.Completed? then Succeeded else Failed
    ensures var w, p := WorldOf(env, spec), old(Now(env, spec)); KeepsPromises(w, p, o, CourseOf(w, p, o))
  {
    EveryCourseKeepsPromises(WorldOf(env, spec), Now(env, spec), o);
    var skipped := RunSkipChecks(env, spec, o.skipChecks);
    if skipped.Some? {
      return skipped.value, true;
    }
    ending, shouldTeardown := RunUnskipped(env, spec, o);
  }

  /** The rest of RunBenchmark. */
  method RunUnskipped(env: Environment, spec: BenchmarkSpec, o: Options) returns (ending: Ending, shouldTeardown: bool)
    modifies env`trace, env`liveThreads, spec
    ensures var c := CourseOfEntry(WorldOf(env, spec), old(Now(env, spec)), o);
      && ending == c.ending && Now(env, spec) == c.end && shouldTeardown == c.shouldTeardown
      && env.liveThreads == old(env.liveThreads) + Survivors(c.body)
    ensures !ending.BeforeRun() && spec.status == if ending.Completed? then Succeeded else Failed
  {
    spec.status := Failed;
    var failed := env.Step(Enter);
    if failed {
      return EntryRaised, true;
    }
    failed, shouldTeardown := TryStatement(env, spec, o);
    if failed {
      return BodyRaised, shouldTeardown;
    }
    spec.status := Succeeded;
    return Completed, shouldTeardown;
  }

  // ---------------------------------------------------------------------------------------------
  // A watcher thread that is left

  const TWO_MACHINES := Options({Prepare}, [true, true], [], true, false, false, false, false)

  lemma PlanForTwoMachines()
    ensures [SetPaths, StartThread, StartThread] <= BodyPlan(TWO_MACHINES)
  {
    assert [true, true][1..] == [true] && [true][1..] == [];
    assert Threads(TWO_MACHINES.interruptible) == [StartThread, StartThread];
  }

  /** The start of the second of two threads fails, as the fourth step of the run. */
  lemma SecondThreadFails(w: World)
    requires forall k: nat :: w.fails(k) <==> k == 3
    ensures Survivors(CourseOf(w, Point([], false), TWO_MACHINES).body) == 1
  {
    var p, plan := Point([Enter], false), BodyPlan(TWO_MACHINES);
    PlanForTwoMachines();
    FailsAtThird(w, p, plan);
    OneMoreStarting([Enter, SetPaths]);
    OneMoreStarting([Enter, SetPaths] + [StartThread]);
    assert p.trace + [SetPaths, StartThread, StartThread] == [Enter, SetPaths] + [StartThread] + [StartThread];
    assert Take(w, Point([], false), Enter) == p;
  }

  lemma FailsAtThird(w: World, p: Point, plan: seq<Event>)
    requires forall k: nat :: w.fails(k) <==> k == 3
    requires |p.trace| == 1 && [SetPaths, StartThread, StartThread] <= plan
    ensures Follow(w, p, plan).point.trace == p.trace + [SetPaths, StartThread, StartThread]
  {
    var n := FollowStopsAtFirst(w, p, plan);
    assert plan[0] == SetPaths && plan[1] == plan[2] == StartThread;
    assert FailsAt(w, p, plan, 2) && !FailsAt(w, p, plan, 0) && !FailsAt(w, p, plan, 1);
    assert plan[..3] == [SetPaths, StartThread, StartThread];
  }

  method WatcherThreadIsLeft() returns (env: Environment)
    ensures fresh(env) && env.liveThreads == 1
  {
    env := new Environment((k: nat) => k == 3, (k: nat, n: nat) => false);
    var spec := new BenchmarkSpec([], Skipped);
    SecondThreadFails(WorldOf(env, spec));
    var o := TWO_MACHINES;
    var ending, shouldTeardown := RunBenchmark(env, spec, o);
  }
}
