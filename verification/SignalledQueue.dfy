/**
 The queue on which a worker thread receives its tasks: a deque plus a lock that is used as a signal.
 Any number of writers append; one reader pops.  Every single append, release, acquire, look and pop is
 its own step, so the gap between a writer's append and its release is visible to the reader.
 */
module SignalledQueue {

  /** Where the reader is inside Get. */
  datatype Reader<T> =
    | Outside                 // not inside Get
    | Waiting                 // about to acquire the lock
    | Woken                   // acquired the lock, has not looked at the deque yet
    | Taking                  // saw an item, about to pop it
    | Rechecking(item: T)     // popped the item, about to look at the deque again
    | Resignalling(item: T)   // saw more items, about to release the lock
    | Crashed                 // popped from an empty deque
  {
    /** The reader has acquired the lock and not yet finished the Get. */
    predicate PastAcquire() {
      Woken? || Taking? || Rechecking? || Resignalling?
    }

    /** The reader is inside Get and has not popped an item yet. */
    predicate Seeking() {
      Waiting? || Woken? || Taking?
    }

    function InHand(): seq<T> {
      if Rechecking? || Resignalling? then [item] else []
    }
  }

  /** The shared fields, the position of every thread, and the history of the queue. */
  datatype Queue<T> = Queue(
    deque: seq<T>,
    locked: bool,
    unsignalled: set<nat>,   // writers that have appended and not yet released the lock
    reader: Reader<T>,
    appended: seq<T>,        // every item ever appended, in order
    taken: seq<T>,           // every item ever popped, in order
    returned: seq<T>)        // every item ever returned by Get, in order
  {
    /** Items that a Get has still to return. */
    function Mail(): seq<T> {
      reader.InHand() + deque
    }
  }

  /** The lock starts out acquired, so that the first Get blocks. */
  function Empty<T>(): Queue<T> {
    Queue([], true, {}, Outside, [], [], [])
  }

  datatype Step<T> =
    | Append(writer: nat, item: T)
    | Signal(writer: nat)
    | BeginGet
    | Acquire
    | Look
    | Pop
    | Recheck
    | Resignal
  {
    predicate ByReader() {
      !Append? && !Signal?
    }
  }

  predicate Enabled<T>(q: Queue<T>, step: Step<T>) {
    match step
    case Append(w, _) => w !in q.unsignalled
    case Signal(w) => w in q.unsignalled
    case BeginGet => q.reader.Outside?
    case Acquire => q.reader.Waiting? && !q.locked
    case Look => q.reader.Woken?
    case Pop => q.reader.Taking?
    case Recheck => q.reader.Rechecking?
    case Resignal => q.reader.Resignalling?
  }

  /** One atomic step.  Releasing a lock that is free raises an error that the source ignores. */
  function Next<T>(q: Queue<T>, step: Step<T>): Queue<T>
    requires Enabled(q, step)
  {
    match step
    case Append(w, x) => q.(deque := q.deque + [x], appended := q.appended + [x], unsignalled := q.unsignalled + {w})
    case Signal(w) => q.(locked := false, unsignalled := q.unsignalled - {w})
    case BeginGet => q.(reader := Waiting)
    case Acquire => q.(locked := true, reader := Woken)
    case Look => q.(reader := if q.deque == [] then Waiting else Taking)
    case Pop =>
      if q.deque == [] then q.(reader := Crashed)
      else q.(deque := q.deque[1..], taken := q.taken + [q.deque[0]], reader := Rechecking(q.deque[0]))
    case Recheck =>
      if q.deque == [] then q.(reader := Outside, returned := q.returned + [q.reader.item])
      else q.(reader := Resignalling(q.reader.item))
    case Resignal =>
      q.(locked := false, reader := Outside, returned := q.returned + [q.reader.item])
  }

  predicate Legal<T>(q: Queue<T>, steps: seq<Step<T>>)
    decreases |steps|
  {
    steps == [] || (Enabled(q, steps[0]) && Legal(Next(q, steps[0]), steps[1..]))
  }

  function After<T>(q: Queue<T>, steps: seq<Step<T>>): Queue<T>
    requires Legal(q, steps)
    decreases |steps|
  {
    if steps == [] then q else After(Next(q, steps[0]), steps[1..])
  }

  /** Nothing is lost, duplicated or reordered, and nothing crashes. */
  ghost predicate Ordered<T>(q: Queue<T>) {
    && q.taken + q.deque == q.appended
    && q.returned + q.reader.InHand() == q.taken
    && !q.reader.Crashed?
    && (q.reader.Taking? ==> q.deque != [])
  }

  /** A waiting item is always announced: the lock is free, or a writer has yet to release it, or the
      reader is awake and will look again. */
  ghost predicate NoLostWakeup<T>(q: Queue<T>) {
    q.deque != [] ==> !q.locked || q.unsignalled != {} || q.reader.PastAcquire()
  }

  ghost predicate Inv<T>(q: Queue<T>) {
    Ordered(q) && NoLostWakeup(q)
  }

  lemma StepKeepsInv<T>(q: Queue<T>, step: Step<T>)
    requires Inv(q) && Enabled(q, step)
    ensures Inv(Next(q, step))
  {
    match step
    case Append(w, x) =>
      assert q.taken + (q.deque + [x]) == (q.taken + q.deque) + [x];
    case Pop =>
      assert q.taken + [q.deque[0]] + q.deque[1..] == q.taken + q.deque;
    case _ =>
  }

  /** Under every schedule of writers and reader. */
  lemma {:induction false} EveryScheduleKeepsInv<T>(q: Queue<T>, steps: seq<Step<T>>)
    requires Inv(q) && Legal(q, steps)
    ensures Inv(After(q, steps))
    decreases |steps|
  {
    if steps != [] {
      StepKeepsInv(q, steps[0]);
      EveryScheduleKeepsInv(Next(q, steps[0]), steps[1..]);
    }
  }

  /** Started empty, the queue returns items in the order in which they were appended, each at most once,
      and what it has not returned is still there. */
  lemma FirstInFirstOut<T>(steps: seq<Step<T>>)
    requires Legal(Empty(), steps)
    ensures var q := After(Empty(), steps); q.returned + q.Mail() == q.appended
  {
    EveryScheduleKeepsInv(Empty(), steps);
    var q := After(Empty(), steps);
    assert q.returned + (q.reader.InHand() + q.deque) == (q.returned + q.reader.InHand()) + q.deque;
  }

  /** A reader inside Get with an item waiting is never stuck: it can move itself, or a writer has still to
      release the lock, after which it can. */
  lemma ReaderNotStuck<T>(q: Queue<T>)
    requires Inv(q) && q.deque != [] && !q.reader.Outside?
    ensures (exists step: Step<T> :: step.ByReader() && Enabled(q, step))
         || (exists w: nat :: Enabled(q, Signal(w)) && Enabled(Next(q, Signal(w)), Acquire))
  {
    match q.reader
    case Waiting =>
      if q.locked {
        var w :| w in q.unsignalled;
        assert Enabled(q, Signal(w)) && Enabled(Next(q, Signal(w)), Acquire);
      } else {
        assert Enabled(q, Acquire) && Step<T>.Acquire.ByReader();
      }
    case Woken => assert Enabled(q, Look) && Step<T>.Look.ByReader();
    case Taking => assert Enabled(q, Pop) && Step<T>.Pop.ByReader();
    case Rechecking(_) => assert Enabled(q, Recheck) && Step<T>.Recheck.ByReader();
    case Resignalling(_) => assert Enabled(q, Resignal) && Step<T>.Resignal.ByReader();
  }

  function ReaderSteps<T>(steps: seq<Step<T>>): nat {
    if steps == [] then 0 else (if steps[0].ByReader() then 1 else 0) + ReaderSteps(steps[1..])
  }

  /** How many steps of its own a seeking reader still needs when an item is waiting. */
  function Distance<T>(r: Reader<T>): nat {
    match r
    case Waiting => 3
    case Woken => 2
    case Taking => 1
    case _ => 0
  }

  lemma {:induction false} TakenGrows<T>(q: Queue<T>, steps: seq<Step<T>>)
    requires Legal(q, steps)
    ensures |q.taken| <= |After(q, steps).taken|
    decreases |steps|
  {
    if steps != [] {
      TakenGrows(Next(q, steps[0]), steps[1..]);
    }
  }

  /** Spurious wakeups cannot starve the reader: whatever the writers do in between, three reader steps
      suffice to pop an item once one is waiting. */
  lemma {:induction false} ItemTakenWithinThreeReaderSteps<T>(q: Queue<T>, steps: seq<Step<T>>)
    requires Inv(q) && Legal(q, steps) && q.deque != [] && q.reader.Seeking()
    requires Distance(q.reader) <= ReaderSteps(steps)
    ensures |q.taken| < |After(q, steps).taken|
    decreases |steps|
  {
    var q' := Next(q, steps[0]);
    StepKeepsInv(q, steps[0]);
    if steps[0].Pop? {
      TakenGrows(q', steps[1..]);
    } else {
      ItemTakenWithinThreeReaderSteps(q', steps[1..]);
    }
  }

  /** Once the lock is free nobody but the reader takes that away again. */
  lemma WakeupIsStable<T>(q: Queue<T>, step: Step<T>)
    requires Enabled(q, Acquire) && Enabled(q, step) && !step.ByReader()
    ensures Enabled(Next(q, step), Acquire)
  {
  }

  ghost predicate ByWriters<T>(steps: seq<Step<T>>) {
    forall i :: 0 <= i < |steps| ==> !steps[i].ByReader()
  }

  lemma {:induction false} WakeupPersists<T>(q: Queue<T>, steps: seq<Step<T>>)
    requires Enabled(q, Acquire) && Legal(q, steps) && ByWriters(steps)
    ensures Enabled(After(q, steps), Acquire)
    decreases |steps|
  {
    if steps != [] {
      WakeupIsStable(q, steps[0]);
      WakeupPersists(Next(q, steps[0]), steps[1..]);
    }
  }

  lemma {:induction false} WritersLeaveReader<T>(q: Queue<T>, steps: seq<Step<T>>)
    requires Legal(q, steps) && ByWriters(steps)
    ensures After(q, steps).reader == q.reader && After(q, steps).returned == q.returned
    decreases |steps|
  {
    if steps != [] {
      WritersLeaveReader(Next(q, steps[0]), steps[1..]);
    }
  }

  lemma {:induction false} SignalWakes<T>(q: Queue<T>, steps: seq<Step<T>>, i: nat)
    requires q.reader.Waiting? && Legal(q, steps) && ByWriters(steps) && i < |steps| && steps[i].Signal?
    ensures Enabled(After(q, steps), Acquire)
    decreases |steps|
  {
    if i == 0 {
      WakeupPersists(Next(q, steps[0]), steps[1..]);
    } else {
      SignalWakes(Next(q, steps[0]), steps[1..], i - 1);
    }
  }

  /** A wait with an item in the deque ends: once the writers that have appended also release, in whatever order
      and with whatever else the writers do, the reader can acquire the lock, and nothing but that takes it away. */
  lemma WaitEnds<T>(q: Queue<T>, steps: seq<Step<T>>)
    requires Inv(q) && q.deque != [] && q.reader.Waiting? && Legal(q, steps) && ByWriters(steps)
    requires forall w :: w in q.unsignalled ==> Signal(w) in steps
    ensures Enabled(After(q, steps), Acquire)
  {
    if q.locked {
      var w :| w in q.unsignalled;
      var i :| 0 <= i < |steps| && steps[i] == Signal(w);
      SignalWakes(q, steps, i);
    } else {
      WakeupPersists(q, steps);
    }
  }

  // ---------------------------------------------------------------------------------------------
  // The object itself

  /** The reader's next step. */
  function OwnStep<T>(r: Reader<T>): Step<T> {
    match r
    case Outside => BeginGet
    case Waiting => Acquire
    case Woken => Look
    case Taking => Pop
    case Rechecking(_) => Recheck
    case Resignalling(_) => Resignal
    case Crashed => BeginGet
  }

  /** A Get under way ends when the writers take the steps others[k] before its k-th step: it is never blocked. */
  ghost predicate GetEnds<T>(q: Queue<T>, others: seq<seq<Step<T>>>)
    decreases |others|
  {
    if q.reader.Outside? then others == []
    else
      && others != [] && ByWriters(others[0]) && Legal(q, others[0])
      && var q' := After(q, others[0]);
      Enabled(q', OwnStep(q'.reader)) && GetEnds(Next(q', OwnStep(q'.reader)), others[1..])
  }

  /** The state when it has ended. */
  ghost function AfterGet<T>(q: Queue<T>, others: seq<seq<Step<T>>>): Queue<T>
    requires GetEnds(q, others)
    decreases |others|
  {
    if q.reader.Outside? then q
    else
      var q' := After(q, others[0]);
      AfterGet(Next(q', OwnStep(q'.reader)), others[1..])
  }

  /** One step of the Get, and what the writers do before it. */
  lemma GetStep<T>(q: Queue<T>, others: seq<seq<Step<T>>>, k: nat)
    requires k <= |others| && GetEnds(q, others[k..]) && !q.reader.Outside?
    ensures k < |others| && ByWriters(others[k]) && Legal(q, others[k])
    ensures var q' := After(q, others[k]);
      && q'.reader == q.reader && q'.returned == q.returned && Enabled(q', OwnStep(q.reader))
      && GetEnds(Next(q', OwnStep(q.reader)), others[k + 1..])
      && AfterGet(q, others[k..]) == AfterGet(Next(q', OwnStep(q.reader)), others[k + 1..])
  {
    WritersLeaveReader(q, others[k]);
    assert others[k..][1..] == others[k + 1..];
  }

  lemma {:induction false} StaysUnsignalled<T>(q: Queue<T>, w: nat, steps: seq<Step<T>>)
    requires Legal(q, steps) && w in q.unsignalled && Signal(w) !in steps
    ensures w in After(q, steps).unsignalled
    decreases |steps|
  {
    if steps != [] {
      StaysUnsignalled(Next(q, steps[0]), w, steps[1..]);
    }
  }

  /** machine is the state of the step machine that the two fields are part of. */
  class NonPollingSingleReaderQueue<T(0)> {
    var deque: seq<T>
    var locked: bool
    ghost var machine: Queue<T>

    ghost predicate Valid()
      reads this
    {
      machine.deque == deque && machine.locked == locked && Inv(machine)
    }

    constructor ()
      ensures Valid() && machine == Empty()
    {
      deque, locked, machine := [], true, Empty();
    }

    /** The steps of other threads. */
    method Interfere(steps: seq<Step<T>>)
      requires Valid() && Legal(machine, steps)
      modifies this
      ensures Valid() && machine == After(old(machine), steps)
    {
      for i := 0 to |steps|
        invariant Valid() && Legal(machine, steps[i..])
        invariant After(machine, steps[i..]) == After(old(machine), steps)
      {
        assert steps[i..][1..] == steps[i + 1..];
        StepKeepsInv(machine, steps[i]);
        machine := Next(machine, steps[i]);
        match steps[i] {
          case Append(_, item) => deque := deque + [item];
          case Signal(_) => locked := false;
          case Acquire => locked := true;
          case Pop => deque := deque[1..];
          case Resignal => locked := false;
          case BeginGet =>
          case Look =>
          case Recheck =>
        }
      }
    }

    /** during: what the writers do before the lock is acquired. */
    method WaitForItem(during: seq<Step<T>>)
      requires Valid() && Legal(machine, during) && Enabled(After(machine, during), Acquire)
      modifies this
      ensures Valid() && machine == Next(After(old(machine), during), Acquire)
    {
      Interfere(during);
      StepKeepsInv(machine, Acquire);
      locked := true;
      machine := Next(machine, Acquire);
    }

    method SignalAvailableItem(ghost step: Step<T>)
      requires Valid() && Enabled(machine, step) && (step.Signal? || step.Resignal?)
      modifies this
      ensures Valid() && machine == Next(old(machine), step)
    {
      StepKeepsInv(machine, step);
      locked := false;
      machine := Next(machine, step);
    }

    /** between: what other threads, the reader among them, do between the append and the release. */
    method Put(ghost writer: nat, item: T, between: seq<Step<T>>)
      requires Valid() && Enabled(machine, Append(writer, item))
      requires Legal(Next(machine, Append(writer, item)), between) && Signal(writer) !in between
      modifies this
      ensures Valid()
      ensures Enabled(After(Next(old(machine), Append(writer, item)), between), Signal(writer))
      ensures machine == Next(After(Next(old(machine), Append(writer, item)), between), Signal(writer))
    {
      StepKeepsInv(machine, Append(writer, item));
      deque := deque + [item];
      machine := Next(machine, Append(writer, item));
      StaysUnsignalled(machine, writer, between);
      Interfere(between);
      SignalAvailableItem(Signal(writer));
    }

    /** others[k]: what the writers do before the k-th step of this Get.  A wakeup that finds the deque empty is
        spurious, and Get goes back to waiting. */
    method Get(others: seq<seq<Step<T>>>) returns (item: T)
      requires Valid() && machine.reader.Outside? && GetEnds(Next(machine, BeginGet), others)
      modifies this
      ensures Valid() && machine == AfterGet(Next(old(machine), BeginGet), others)
      ensures machine.reader.Outside? && machine.returned == old(machine.returned) + [item]
    {
      var k := 0;
      ghost var start := Next(machine, BeginGet);
      machine := start;
      assert others[0..] == others;
      while true
        invariant k <= |others| && Valid() && machine.reader.Waiting? && machine.returned == old(machine.returned)
        invariant GetEnds(machine, others[k..]) && AfterGet(machine, others[k..]) == AfterGet(start, others)
        decreases |others| - k
      {
        GetStep(machine, others, k);
        WaitForItem(others[k]);
        GetStep(machine, others, k + 1);
        Interfere(others[k + 1]);
        StepKeepsInv(machine, Look);
        machine := Next(machine, Look);
        if deque != [] {
          item := TakeItem(others, k + 2);
          return;
        }
        k := k + 2;
      }
    }

    /** The rest of Get, once an item was seen. */
    method TakeItem(others: seq<seq<Step<T>>>, k: nat) returns (item: T)
      requires k <= |others| && Valid() && machine.reader.Taking? && GetEnds(machine, others[k..])
      modifies this
      ensures Valid() && machine == AfterGet(old(machine), others[k..])
      ensures machine.reader.Outside? && machine.returned == old(machine.returned) + [item]
    {
      GetStep(machine, others, k);
      Interfere(others[k]);
      StepKeepsInv(machine, Pop);
      item := deque[0];
      deque := deque[1..];
      machine := Next(machine, Pop);
      GetStep(machine, others, k + 1);
      Interfere(others[k + 1]);
      StepKeepsInv(machine, Recheck);
      machine := Next(machine, Recheck);
      if deque != [] {
        GetStep(machine, others, k + 2);
        Interfere(others[k + 2]);
        SignalAvailableItem(Resignal);
      }
    }
  }
}
