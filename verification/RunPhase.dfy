/** The run phase: a benchmark is run again until its time or its number of iterations is used up. */
module RunPhase {

  type Sample(!new)

  datatype Attempt = Samples(samples: seq<Sample>) | Failure

  datatype Options = Options(runStageTime: real, runStageIterations: int, runStageRetries: int)

  /** A sample that was collected, with the run number it was tagged with, if any. */
  datatype Collected = Collected(sample: Sample, runNumber: int)

  const UNTAGGED := -1

  /** How many of the last of n attempts failed in a row. */
  function FailuresInARow(attempt: nat -> Attempt, n: nat): nat {
    if n == 0 || attempt(n - 1).Samples? then 0 else 1 + FailuresInARow(attempt, n - 1)
  }

  function Tag(samples: seq<Sample>, runNumber: int): (r: seq<Collected>)
    ensures |r| == |samples| && forall i :: 0 <= i < |r| ==> r[i] == Collected(samples[i], runNumber)
  {
    if samples == [] then [] else [Collected(samples[0], runNumber)] + Tag(samples[1..], runNumber)
  }

  /** What the first n attempts yield: the samples of the successful ones, tagged with the attempt number. */
  function Yield(attempt: nat -> Attempt, o: Options, n: nat): seq<Collected> {
    if n == 0 then []
    else
      Yield(attempt, o, n - 1) + match attempt(n - 1)
        case Failure => []
        case Samples(s) => Tag(s, if o.runStageTime != 0.0 || o.runStageIterations != 0 then n - 1 else UNTAGGED)
  }

  /** Where the samples of attempt number k are: directly after those of the attempts before it, in their order, and
      with its number, if a time or a number of iterations is set. */
  lemma {:induction false} YieldAt(attempt: nat -> Attempt, o: Options, n: nat, k: nat)
    requires k < n
    ensures |Yield(attempt, o, k + 1)| <= |Yield(attempt, o, n)|
    ensures |Yield(attempt, o, k + 1)| - |Yield(attempt, o, k)|
         == if attempt(k).Samples? then |attempt(k).samples| else 0
    ensures attempt(k).Samples? ==> forall i :: 0 <= i < |attempt(k).samples| ==>
      Yield(attempt, o, n)[|Yield(attempt, o, k)| + i]
        == Collected(attempt(k).samples[i], if o.runStageTime != 0.0 || o.runStageIterations != 0 then k else UNTAGGED)
    decreases n
  {
    if k < n - 1 { YieldAt(attempt, o, n - 1, k); }
  }

  /** Whether the phase is over after n attempts, the last of which ended at clock(n). */
  predicate IsFinished(o: Options, clock: nat -> real, n: nat) {
    if o.runStageTime > 0.0 then clock(n) > clock(0) + o.runStageTime else n >= o.runStageIterations
  }

  /** The n-th attempt was one failure too many. */
  predicate GivesUp(attempt: nat -> Attempt, o: Options, n: nat) {
    n > 0 && attempt(n - 1).Failure? && FailuresInARow(attempt, n) > o.runStageRetries
  }

  /** The number of attempts without a run time, unless the phase gives up. */
  function Iterations(o: Options): nat {
    if o.runStageIterations < 1 then 1 else o.runStageIterations
  }

  /** The phase ends after the first attempt, and there is one, after which it gives up or is finished; it
      raises exactly when it gives up.  Some attempt has to be the last, as the deadline may never be reached. */
  method DoRunPhase(attempt: nat -> Attempt, o: Options, clock: nat -> real)
    returns (raised: bool, attempts: nat, collected: seq<Collected>)
    requires exists n: nat :: n >= 1 && (IsFinished(o, clock, n) || GivesUp(attempt, o, n))
    ensures attempts >= 1
    ensures forall m: nat :: 1 <= m < attempts ==> !GivesUp(attempt, o, m) && !IsFinished(o, clock, m)
    ensures raised <==> GivesUp(attempt, o, attempts)
    ensures !raised ==> IsFinished(o, clock, attempts)
    ensures collected == Yield(attempt, o, if raised then attempts - 1 else attempts)
    ensures !raised && o.runStageTime > 0.0 ==> clock(attempts) > clock(0) + o.runStageTime
    ensures o.runStageTime > 0.0 ==> forall m: nat :: 1 <= m < attempts ==> clock(m) <= clock(0) + o.runStageTime
    ensures !raised && o.runStageTime <= 0.0 ==> attempts == Iterations(o)
    ensures NothingSucceeded(attempt, attempts) ==> (raised <==> o.runStageRetries < attempts)
  {
    ghost var last: nat :| last >= 1 && (IsFinished(o, clock, last) || GivesUp(attempt, o, last));
    var deadline := clock(0) + o.runStageTime;
    var runNumber := 0;
    var consecutiveFailures := 0;
    collected := [];
    while true
      invariant runNumber < last
      invariant forall m: nat :: 1 <= m <= runNumber ==> !GivesUp(attempt, o, m) && !IsFinished(o, clock, m)
      invariant o.runStageTime > 0.0 ==> forall m: nat :: 1 <= m <= runNumber ==> clock(m) <= deadline
      invariant consecutiveFailures == FailuresInARow(attempt, runNumber)
      invariant collected == Yield(attempt, o, runNumber)
      decreases last - runNumber
    {
      var samples: seq<Sample> := [];
      match attempt(runNumber) {
        case Failure =>
          consecutiveFailures := consecutiveFailures + 1;
          if consecutiveFailures > o.runStageRetries {
            RaisesIfNothingSucceeded(attempt, o, runNumber + 1);
            return true, runNumber + 1, collected;
          }
        case Samples(s) =>
          samples := s;
          consecutiveFailures := 0;
      }
      var tagged := Tag(samples, if o.runStageTime != 0.0 || o.runStageIterations != 0 then runNumber else UNTAGGED);
      collected := collected + tagged;
      runNumber := runNumber + 1;
      if if o.runStageTime > 0.0 then clock(runNumber) > deadline else runNumber >= o.runStageIterations {
        RaisesIfNothingSucceeded(attempt, o, runNumber);
        if o.runStageTime <= 0.0 { IterationsCountFailures(o, clock, runNumber); }
        return false, runNumber, collected;
      }
    }
  }

  /** Failed attempts count: without a run time the phase is finished after the same number of attempts, whatever
      they do. */
  lemma IterationsCountFailures(o: Options, clock: nat -> real, n: nat)
    requires o.runStageTime <= 0.0 && n >= 1 && IsFinished(o, clock, n)
    requires forall m: nat :: 1 <= m < n ==> !IsFinished(o, clock, m)
    ensures n == Iterations(o)
  {
    if n > 1 { assert !IsFinished(o, clock, n - 1); }
  }

  predicate NothingSucceeded(attempt: nat -> Attempt, n: nat) {
    forall k: nat :: k < n ==> attempt(k).Failure?
  }

  lemma {:induction false} AllInARow(attempt: nat -> Attempt, n: nat)
    ensures FailuresInARow(attempt, n) <= n
    ensures NothingSucceeded(attempt, n) <==> FailuresInARow(attempt, n) == n
  {
    if n > 0 { AllInARow(attempt, n - 1); }
  }

  /** If all attempts failed, the last one makes the phase give up exactly when there are more than retries. */
  lemma RaisesIfNothingSucceeded(attempt: nat -> Attempt, o: Options, n: nat)
    requires n >= 1
    ensures NothingSucceeded(attempt, n) ==> (GivesUp(attempt, o, n) <==> o.runStageRetries < n)
  {
    AllInARow(attempt, n);
  }

  /** The phase ends after n attempts without raising. */
  ghost predicate EndsQuietly(attempt: nat -> Attempt, o: Options, clock: nat -> real, n: nat) {
    && n >= 1 && IsFinished(o, clock, n) && !GivesUp(attempt, o, n)
    && forall m: nat :: 1 <= m < n ==> !GivesUp(attempt, o, m) && !IsFinished(o, clock, m)
  }

  /** The least number of attempts after which a phase can be finished. */
  function LeastAttempts(o: Options): nat {
    if o.runStageTime > 0.0 then 1 else Iterations(o)
  }

  /** Whatever the attempts and the clock do, a phase that ends without raising has had a successful attempt: exactly
      when there are fewer retries than the least number of attempts. */
  lemma QuietPhasesSucceedIff(o: Options)
    ensures (forall attempt: nat -> Attempt, clock: nat -> real, n: nat ::
               EndsQuietly(attempt, o, clock, n) ==> !NothingSucceeded(attempt, n))
      <==> o.runStageRetries < LeastAttempts(o)
  {
    if o.runStageRetries < LeastAttempts(o) {
      forall attempt: nat -> Attempt, clock: nat -> real, n: nat | EndsQuietly(attempt, o, clock, n)
        ensures !NothingSucceeded(attempt, n)
      {
        RaisesIfNothingSucceeded(attempt, o, n);
        if o.runStageTime <= 0.0 { IterationsCountFailures(o, clock, n); }
      }
    } else {
      var attempt: nat -> Attempt := (k: nat) => Failure;
      var clock: nat -> real := (k: nat) => if k == 0 then 0.0 else o.runStageTime + 1.0;
      var n := LeastAttempts(o);
      forall m: nat | 1 <= m <= n ensures !GivesUp(attempt, o, m) {
        RaisesIfNothingSucceeded(attempt, o, m);
      }
      assert EndsQuietly(attempt, o, clock, n) && NothingSucceeded(attempt, n);
    }
  }

  /** So with one iteration and a retry allowed, a single failure ends the phase quietly, without samples. */
  lemma SingleFailureIsNotRetried(attempt: nat -> Attempt, o: Options, clock: nat -> real)
    requires o.runStageTime <= 0.0 && o.runStageIterations == 1 && o.runStageRetries >= 1 && attempt(0).Failure?
    ensures IsFinished(o, clock, 1) && !GivesUp(attempt, o, 1) && Yield(attempt, o, 1) == []
  {
    assert FailuresInARow(attempt, 1) == 1 + FailuresInARow(attempt, 0);
  }

  /** Giving up needs as many failures in a row as there are retries, and one more, the last one included. */
  lemma {:induction false} FailuresInARowAreFailures(attempt: nat -> Attempt, n: nat, k: nat)
    requires k < FailuresInARow(attempt, n)
    ensures FailuresInARow(attempt, n) <= n && attempt(n - 1 - k).Failure?
    ensures FailuresInARow(attempt, n) < n ==> attempt(n - 1 - FailuresInARow(attempt, n)).Samples?
  {
    if k > 0 {
      FailuresInARowAreFailures(attempt, n - 1, k - 1);
    } else if FailuresInARow(attempt, n - 1) > 0 {
      FailuresInARowAreFailures(attempt, n - 1, 0);
    }
  }
}
