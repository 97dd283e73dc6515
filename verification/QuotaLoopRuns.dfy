/** Consequences over whole runs of the feedback loop: numeric bounds, no double step when requests are
    timely, and what goes wrong when they are not. */
module QuotaLoopRuns {
  import opened QuotaLoop
  import Limiter

  lemma ProductMonotone(a: int, b: int, step: int)
    requires a <= b && step >= 0
    ensures a * step <= b * step
  {
    assert (b - a) * step >= 0;
  }

  /** Both limits lie between the initial ones and `most` steps above. */
  predicate WithinSteps(cfg: Config, hard: Hard, most: int) {
    var cpu, memory := Get(cfg.initial, "limits.cpu"), Get(cfg.initial, "limits.memory");
    && cpu <= Get(hard, "limits.cpu") <= cpu + most * cfg.stepCpu
    && memory <= Get(hard, "limits.memory") <= memory + most * cfg.stepMemory
  }

  /** With steps that are not negative, both limits stay within init and
      init + step * (1 + minutes since the first grant). */
  lemma GrowthInNumbers(cfg: Config, s: State)
    requires Reachable(cfg, s) && cfg.stepCpu >= 0 && cfg.stepMemory >= 0 && s.grants > 0
    ensures forall hard | hard == s.git || hard in s.versions ::
              WithinSteps(cfg, hard, 1 + (s.now - s.firstGrant) / 60_000_000_000)
  {
    GrowthBound(cfg, s);
    var most := 1 + (s.now - s.firstGrant) / MINUTE;
    forall hard | hard == s.git || hard in s.versions ensures WithinSteps(cfg, hard, most) {
      assert AtMostLevel(cfg, hard, s.grants);
      var j: nat :| j <= s.grants && hard == Level(cfg, j);
      LevelValues(cfg, j);
      ProductMonotone(0, j, cfg.stepCpu);
      ProductMonotone(j, most, cfg.stepCpu);
      ProductMonotone(0, j, cfg.stepMemory);
      ProductMonotone(j, most, cfg.stepMemory);
    }
  }

  /* ---------- where requests go ---------- */

  /** How many requests a run ends, in git or nowhere. */
  function Endings(steps: seq<Step>): nat {
    if steps == [] then 0 else (if steps[0].Deliver? || steps[0].Drop? then 1 else 0) + Endings(steps[1..])
  }

  /** Every grant is one request, and every request is either still out, delivered or dropped: none is lost or made
      up along any run. */
  lemma {:induction false} RequestsAreAccounted(cfg: Config, s: State, steps: seq<Step>)
    requires Legal(cfg, s, steps)
    ensures var end := After(cfg, s, steps);
            |end.requests| + Endings(steps) == |s.requests| + (end.grants - s.grants)
    decreases |steps|
  {
    if steps != [] {
      RequestsAreAccounted(cfg, Apply(cfg, s, steps[0]), steps[1..]);
    }
  }

  /* ---------- timely requests: no double step ---------- */

  /** Every granted request is younger than `delay`. */
  predicate Timely(s: State, delay: int) {
    forall i | 0 <= i < |s.requests| :: s.now - s.requests[i].grantedAt < delay
  }

  /** The step reads a value at most `lag` versions behind the workload's current one. */
  predicate Fresh(s: State, step: Step, lag: nat) {
    step.Read? ==> step.version + lag >= |s.versions| - 1
  }

  /** A run in which no request reaches the age `delay` and no read lags more than `lag` versions. */
  predicate TimelyRun(cfg: Config, s: State, steps: seq<Step>, delay: int, lag: nat)
    decreases |steps|
  {
    && Timely(s, delay)
    && (steps == [] || (&& Enabled(cfg, s, steps[0]) && Fresh(s, steps[0], lag)
                        && TimelyRun(cfg, Apply(cfg, s, steps[0]), steps[1..], delay, lag)))
  }

  predicate InStep(cfg: Config, s: State)
    requires s.versions != []
  {
    && |s.requests| <= 1
    && (s.git == Work(s) || s.git == Bump(cfg, Work(s)))
    && (|s.requests| == 1 && s.requests[0].Sent? ==>
          s.requests[0].hard == s.git || (s.requests[0].hard == Bump(cfg, s.git) && s.git == Work(s)))
  }

  lemma TimelyStep(cfg: Config, s: State, step: Step)
    requires Paced(cfg, s) && InStep(cfg, s) && Timely(s, MINUTE) && Enabled(cfg, s, step) && Fresh(s, step, 0)
    ensures Paced(cfg, Apply(cfg, s, step)) && InStep(cfg, Apply(cfg, s, step))
    ensures Apply(cfg, s, step).git == s.git || (Apply(cfg, s, step).git == Bump(cfg, s.git) && s.git == Work(s))
    ensures step.Read? && s.git == Bump(cfg, Work(s)) ==> Apply(cfg, s, step).requests[step.i].hard == s.git
  {
    KeepsPaced(cfg, s, step);
    if step.Trigger? && Allowed(cfg, s) {
      assert s.requests == [];
    }
  }

  lemma {:induction false} TimelyRunInStep(cfg: Config, s: State, steps: seq<Step>)
    requires Paced(cfg, s) && InStep(cfg, s) && TimelyRun(cfg, s, steps, MINUTE, 0)
    ensures Legal(cfg, s, steps) && Paced(cfg, After(cfg, s, steps)) && InStep(cfg, After(cfg, s, steps))
    ensures cfg.stepCpu >= 0 ==> Get(s.git, LIMITS_CPU) <= Get(After(cfg, s, steps).git, LIMITS_CPU)
    ensures cfg.stepMemory >= 0 ==> Get(s.git, LIMITS_MEMORY) <= Get(After(cfg, s, steps).git, LIMITS_MEMORY)
    decreases |steps|
  {
    if steps != [] {
      TimelyStep(cfg, s, steps[0]);
      BumpValues(cfg, s.git);
      TimelyRunInStep(cfg, Apply(cfg, s, steps[0]), steps[1..]);
    }
  }

  lemma TimelyPrefix(cfg: Config, s: State, a: seq<Step>, b: seq<Step>)
    requires TimelyRun(cfg, s, a + b, MINUTE, 0)
    ensures TimelyRun(cfg, s, a, MINUTE, 0) && Legal(cfg, s, a) && TimelyRun(cfg, After(cfg, s, a), b, MINUTE, 0)
    decreases |a|
  {
    if a == [] {
      assert a + b == b;
    } else {
      assert (a + b)[1..] == a[1..] + b;
      TimelyPrefix(cfg, Apply(cfg, s, a[0]), a[1..], b);
    }
  }

  /** No double step: in a timely run there is at most one request in flight, git is the workload's value or
      one step ahead of it, and between any two moments git never falls. */
  lemma NoDoubleStep(cfg: Config, start: int, a: seq<Step>, b: seq<Step>)
    requires TimelyRun(cfg, Init(cfg, start), a + b, MINUTE, 0)
    ensures Legal(cfg, Init(cfg, start), a) && Legal(cfg, After(cfg, Init(cfg, start), a), b)
    ensures var s := After(cfg, Init(cfg, start), a);
            s.versions != [] && |s.requests| <= 1 && (s.git == Work(s) || s.git == Bump(cfg, Work(s)))
    ensures var s, later := After(cfg, Init(cfg, start), a), After(cfg, After(cfg, Init(cfg, start), a), b);
            && (cfg.stepCpu >= 0 ==> Get(s.git, LIMITS_CPU) <= Get(later.git, LIMITS_CPU))
            && (cfg.stepMemory >= 0 ==> Get(s.git, LIMITS_MEMORY) <= Get(later.git, LIMITS_MEMORY))
  {
    TimelyPrefix(cfg, Init(cfg, start), a, b);
    TimelyRunInStep(cfg, Init(cfg, start), a);
    TimelyRunInStep(cfg, After(cfg, Init(cfg, start), a), b);
  }

  /** Until the sync catches up, a trigger posts what git already holds. */
  lemma RepeatedTriggerPostsTheSame(cfg: Config, start: int, steps: seq<Step>, i: nat)
    requires TimelyRun(cfg, Init(cfg, start), steps, MINUTE, 0) && Legal(cfg, Init(cfg, start), steps)
    requires var s := After(cfg, Init(cfg, start), steps);
             && s.versions != [] && s.git != Work(s)
             && Timely(s, MINUTE) && Enabled(cfg, s, Read(i, |s.versions| - 1))
    ensures var s := After(cfg, Init(cfg, start), steps);
            Apply(cfg, s, Read(i, |s.versions| - 1)).requests[i].hard == s.git
  {
    TimelyRunInStep(cfg, Init(cfg, start), steps);
    var s := After(cfg, Init(cfg, start), steps);
    TimelyStep(cfg, s, Read(i, |s.versions| - 1));
  }

  /* ---------- states of timely runs ---------- */

  ghost predicate TimelyReachable(cfg: Config, s: State, delay: int, lag: nat) {
    exists start: int, steps: seq<Step> ::
      && TimelyRun(cfg, Init(cfg, start), steps, delay, lag)
      && Legal(cfg, Init(cfg, start), steps) && After(cfg, Init(cfg, start), steps) == s
  }

  lemma {:induction false} TimelyAppend(cfg: Config, s: State, steps: seq<Step>, step: Step, delay: int, lag: nat)
    requires TimelyRun(cfg, s, steps, delay, lag) && Legal(cfg, s, steps)
    requires var end := After(cfg, s, steps);
             Enabled(cfg, end, step) && Fresh(end, step, lag) && Timely(Apply(cfg, end, step), delay)
    ensures TimelyRun(cfg, s, steps + [step], delay, lag) && Legal(cfg, s, steps + [step])
    ensures After(cfg, s, steps + [step]) == Apply(cfg, After(cfg, s, steps), step)
    decreases |steps|
  {
    if steps == [] {
      assert [step][1..] == [];
    } else {
      TimelyAppend(cfg, Apply(cfg, s, steps[0]), steps[1..], step, delay, lag);
      assert (steps + [step])[1..] == steps[1..] + [step];
    }
  }

  lemma Reach(cfg: Config, s: State, step: Step, delay: int, lag: nat) returns (s': State)
    requires TimelyReachable(cfg, s, delay, lag) && Enabled(cfg, s, step)
    requires Fresh(s, step, lag) && Timely(Apply(cfg, s, step), delay)
    ensures s' == Apply(cfg, s, step) && TimelyReachable(cfg, s', delay, lag)
  {
    var start: int, steps: seq<Step> :|
      && TimelyRun(cfg, Init(cfg, start), steps, delay, lag)
      && Legal(cfg, Init(cfg, start), steps) && After(cfg, Init(cfg, start), steps) == s;
    TimelyAppend(cfg, Init(cfg, start), steps, step, delay, lag);
    s' := Apply(cfg, s, step);
    assert After(cfg, Init(cfg, start), steps + [step]) == s';
  }

  lemma TimelyIsReachable(cfg: Config, s: State, delay: int, lag: nat)
    requires TimelyReachable(cfg, s, delay, lag)
    ensures Reachable(cfg, s)
  {
  }

  lemma InitReachable(cfg: Config, delay: int, lag: nat)
    ensures TimelyReachable(cfg, Init(cfg, 0), delay, lag)
  {
    assert TimelyRun(cfg, Init(cfg, 0), [], delay, lag) && After(cfg, Init(cfg, 0), []) == Init(cfg, 0);
  }

  lemma {:induction false} ShorterDelay(cfg: Config, s: State, steps: seq<Step>, delay: int, longer: int, lag: nat)
    requires TimelyRun(cfg, s, steps, delay, lag) && delay <= longer
    ensures TimelyRun(cfg, s, steps, longer, lag)
    decreases |steps|
  {
    if steps != [] {
      ShorterDelay(cfg, Apply(cfg, s, steps[0]), steps[1..], delay, longer, lag);
    }
  }

  lemma TimelyInStep(cfg: Config, s: State, delay: int)
    requires TimelyReachable(cfg, s, delay, 0) && delay <= MINUTE
    ensures Paced(cfg, s) && InStep(cfg, s)
  {
    var start: int, steps: seq<Step> :|
      && TimelyRun(cfg, Init(cfg, start), steps, delay, 0)
      && Legal(cfg, Init(cfg, start), steps) && After(cfg, Init(cfg, start), steps) == s;
    ShorterDelay(cfg, Init(cfg, start), steps, delay, MINUTE, 0);
    TimelyRunInStep(cfg, Init(cfg, start), steps);
  }

  lemma {:induction false} RunIsTimely(cfg: Config, s: State, steps: seq<Step>, delay: int, lag: nat)
    requires TimelyRun(cfg, s, steps, delay, lag) && Legal(cfg, s, steps)
    ensures Timely(After(cfg, s, steps), delay)
    decreases |steps|
  {
    if steps != [] {
      RunIsTimely(cfg, Apply(cfg, s, steps[0]), steps[1..], delay, lag);
    }
  }

  lemma ReachedInTime(cfg: Config, s: State, delay: int, lag: nat)
    requires TimelyReachable(cfg, s, delay, lag)
    ensures Timely(s, delay)
  {
    var start: int, steps: seq<Step> :|
      && TimelyRun(cfg, Init(cfg, start), steps, delay, lag)
      && Legal(cfg, Init(cfg, start), steps) && After(cfg, Init(cfg, start), steps) == s;
    RunIsTimely(cfg, Init(cfg, start), steps, delay, lag);
  }

  /* ---------- exactly when git can fall ---------- */

  predicate IsLimit(key: string) {
    key == "limits.cpu" || key == "limits.memory"
  }

  function StepOf(cfg: Config, key: string): int {
    if key == "limits.cpu" then cfg.stepCpu else cfg.stepMemory
  }

  /** No step of any run with these bounds lowers the limit in git. */
  ghost predicate NeverFalls(cfg: Config, key: string, delay: int, lag: nat) {
    forall s, step |
      && TimelyReachable(cfg, s, delay, lag) && Enabled(cfg, s, step)
      && Fresh(s, step, lag) && Timely(Apply(cfg, s, step), delay) ::
        Get(s.git, key) <= Get(Apply(cfg, s, step).git, key)
  }

  lemma LevelOf(cfg: Config, key: string, j: nat)
    requires IsLimit(key)
    ensures Get(Level(cfg, j), key) == Get(cfg.initial, key) + j * StepOf(cfg, key)
  {
    LevelValues(cfg, j);
  }

  /** A trigger is granted and reads this version. */
  lemma Post(cfg: Config, s: State, version: nat, delay: int, lag: nat) returns (s': State)
    requires TimelyReachable(cfg, s, delay, lag) && Allowed(cfg, s) && delay > 0
    requires version < |s.versions| <= version + lag + 1
    ensures TimelyReachable(cfg, s', delay, lag) && s'.now == s.now && s'.git == s.git && s'.versions == s.versions
    ensures s'.requests == s.requests + [Sent(s.now, Bump(cfg, s.versions[version]))]
  {
    ReachedInTime(cfg, s, delay, lag);
    s' := Reach(cfg, s, Trigger, delay, lag);
    s' := Reach(cfg, s', Read(|s.requests|, version), delay, lag);
  }

  /** The limiter's minute passes. */
  lemma Wait(cfg: Config, s: State, delay: int, lag: nat) returns (s': State)
    requires TimelyReachable(cfg, s, delay, lag)
    requires forall i | 0 <= i < |s.requests| :: s.now + MINUTE - s.requests[i].grantedAt < delay
    ensures TimelyReachable(cfg, s', delay, lag) && Allowed(cfg, s')
    ensures s' == s.(now := s.now + MINUTE)
  {
    ReachableInv(cfg, s);
    s' := Reach(cfg, s, Tick(s.now + MINUTE), delay, lag);
  }

  /** Some request reaches git; the others stay on their way. */
  lemma Land(cfg: Config, s: State, i: nat, delay: int, lag: nat) returns (s': State)
    requires TimelyReachable(cfg, s, delay, lag) && i < |s.requests| && s.requests[i].Sent?
    ensures TimelyReachable(cfg, s', delay, lag)
    ensures s' == s.(git := s.requests[i].hard, requests := Without(s.requests, i))
  {
    ReachedInTime(cfg, s, delay, lag);
    s' := Reach(cfg, s, Deliver(i), delay, lag);
  }

  lemma Synced(cfg: Config, s: State, delay: int, lag: nat) returns (s': State)
    requires TimelyReachable(cfg, s, delay, lag)
    ensures TimelyReachable(cfg, s', delay, lag) && s' == s.(versions := s.versions + [s.git])
  {
    ReachedInTime(cfg, s, delay, lag);
    s' := Reach(cfg, s, Sync, delay, lag);
  }

  /** Two posts of the same value, a minute apart; the first has arrived and was synced. */
  lemma TwinPosts(cfg: Config, delay: int, lag: nat) returns (s: State)
    requires delay > MINUTE
    ensures TimelyReachable(cfg, s, delay, lag) && s.now == MINUTE
    ensures s.requests == [Sent(MINUTE, Level(cfg, 1))] && s.versions == [cfg.initial, Level(cfg, 1)]
  {
    var one := Level(cfg, 1);
    assert one == Bump(cfg, Level(cfg, 0));
    InitReachable(cfg, delay, lag);
    s := Post(cfg, Init(cfg, 0), 0, delay, lag);
    s := Wait(cfg, s, delay, lag);
    s := Post(cfg, s, 0, delay, lag);
    assert s.requests == [Sent(0, one), Sent(MINUTE, one)];
    s := Land(cfg, s, 0, delay, lag);
    s := Synced(cfg, s, delay, lag);
  }

  /** The minute is sharp: with current reads, and requests that may live just as long as the minute, a post can
      be overtaken by the next and take git from two steps up back to one. */
  lemma LatePostLowersGit(cfg: Config, delay: int, lag: nat) returns (s: State)
    requires delay > MINUTE
    ensures TimelyReachable(cfg, s, delay, lag) && s.git == Level(cfg, 2)
    ensures Enabled(cfg, s, Deliver(0)) && Timely(Apply(cfg, s, Deliver(0)), delay)
    ensures Apply(cfg, s, Deliver(0)).git == Level(cfg, 1)
  {
    var one, two := Level(cfg, 1), Level(cfg, 2);
    assert two == Bump(cfg, one);
    s := TwinPosts(cfg, delay, lag);
    s := Wait(cfg, s, delay, lag);
    s := Post(cfg, s, 1, delay, lag);
    assert s.requests == [Sent(MINUTE, one), Sent(2 * MINUTE, two)];
    s := Land(cfg, s, 1, delay, lag);
    ReachedInTime(cfg, s, delay, lag);
  }

  /** Reads must be current: one that lags a single version behind lowers git even if every request is over
      in an instant. */
  lemma StaleReadLowersGit(cfg: Config, delay: int, lag: nat) returns (s: State)
    requires delay > 0 && lag > 0
    ensures TimelyReachable(cfg, s, delay, lag) && s.git == Level(cfg, 2)
    ensures Enabled(cfg, s, Deliver(0)) && Timely(Apply(cfg, s, Deliver(0)), delay)
    ensures Apply(cfg, s, Deliver(0)).git == Level(cfg, 1)
  {
    var one, two := Level(cfg, 1), Level(cfg, 2);
    assert one == Bump(cfg, Level(cfg, 0)) && two == Bump(cfg, one);
    InitReachable(cfg, delay, lag);
    s := OneRound(cfg, Init(cfg, 0), 0, delay, lag);
    assert s.versions == [cfg.initial, one];
    s := Post(cfg, s, 1, delay, lag);
    s := Land(cfg, s, 0, delay, lag);
    s := Wait(cfg, s, delay, lag);
    s := Post(cfg, s, 0, delay, lag);
    ReachedInTime(cfg, s, delay, lag);
  }

  /** With a negative step the very first post lowers git. */
  lemma FirstPost(cfg: Config, delay: int, lag: nat) returns (s: State)
    requires delay > 0
    ensures TimelyReachable(cfg, s, delay, lag) && s.git == Level(cfg, 0)
    ensures Enabled(cfg, s, Deliver(0)) && Timely(Apply(cfg, s, Deliver(0)), delay)
    ensures Apply(cfg, s, Deliver(0)).git == Level(cfg, 1)
  {
    assert Level(cfg, 1) == Bump(cfg, Level(cfg, 0));
    InitReachable(cfg, delay, lag);
    s := Post(cfg, Init(cfg, 0), 0, delay, lag);
    ReachedInTime(cfg, s, delay, lag);
  }

  /** A request is never younger than nothing: without delay there is none, and git stands still. */
  lemma RequestsNeedDelay(cfg: Config, s: State, delay: int, lag: nat)
    requires TimelyReachable(cfg, s, delay, lag)
    ensures s.requests == [] || delay > 0
  {
    if s.requests != [] {
      ReachedInTime(cfg, s, delay, lag);
      ReachableInv(cfg, s);
      assert s.now - s.requests[0].grantedAt < delay;
    }
  }

  lemma NoStepNoFall(cfg: Config, s: State, step: Step, key: string)
    requires IsLimit(key) && StepOf(cfg, key) == 0 && Reachable(cfg, s) && Enabled(cfg, s, step)
    ensures Get(s.git, key) == Get(Apply(cfg, s, step).git, key)
  {
    ReachableInv(cfg, s);
    KeepsLevelled(cfg, s, step);
    var j: nat :| j <= Used(s) && s.git == Level(cfg, j);
    var k: nat :| k <= Used(Apply(cfg, s, step)) && Apply(cfg, s, step).git == Level(cfg, k);
    LevelOf(cfg, key, j);
    LevelOf(cfg, key, k);
  }

  lemma TimelyNeverFalls(cfg: Config, key: string, delay: int)
    requires IsLimit(key) && StepOf(cfg, key) > 0 && delay <= MINUTE
    ensures NeverFalls(cfg, key, delay, 0)
  {
    forall s, step |
      && TimelyReachable(cfg, s, delay, 0) && Enabled(cfg, s, step)
      && Fresh(s, step, 0) && Timely(Apply(cfg, s, step), delay)
      ensures Get(s.git, key) <= Get(Apply(cfg, s, step).git, key)
    {
      TimelyInStep(cfg, s, delay);
      ReachedInTime(cfg, s, delay, 0);
      TimelyStep(cfg, s, step);
      BumpValues(cfg, s.git);
    }
  }

  lemma StillNeverFalls(cfg: Config, key: string, delay: int, lag: nat)
    requires IsLimit(key) && (StepOf(cfg, key) == 0 || delay <= 0)
    ensures NeverFalls(cfg, key, delay, lag)
  {
    forall s, step | TimelyReachable(cfg, s, delay, lag) && Enabled(cfg, s, step)
      ensures Get(s.git, key) <= Get(Apply(cfg, s, step).git, key)
    {
      RequestsNeedDelay(cfg, s, delay, lag);
      if StepOf(cfg, key) == 0 {
        NoStepNoFall(cfg, s, step, key);
      }
    }
  }

  lemma SomeRunFalls(cfg: Config, key: string, delay: int, lag: nat)
    requires IsLimit(key) && StepOf(cfg, key) != 0 && delay > 0
    requires StepOf(cfg, key) > 0 ==> delay > MINUTE || lag > 0
    ensures !NeverFalls(cfg, key, delay, lag)
  {
    LevelOf(cfg, key, 0);
    LevelOf(cfg, key, 1);
    LevelOf(cfg, key, 2);
    var s: State;
    if StepOf(cfg, key) < 0 {
      s := FirstPost(cfg, delay, lag);
    } else if delay > MINUTE {
      s := LatePostLowersGit(cfg, delay, lag);
    } else {
      s := StaleReadLowersGit(cfg, delay, lag);
    }
    assert Fresh(s, Deliver(0), lag) && Get(s.git, key) > Get(Apply(cfg, s, Deliver(0)).git, key);
  }

  /** Exactly when a limit in git never falls, for every bound on the age of requests and the lag of reads: with
      a positive step, when requests are over within their minute and reads are current. A step of zero, or
      no request at all, changes nothing; a negative step lowers git with the first post. */
  lemma GitNeverFallsIff(cfg: Config, key: string, delay: int, lag: nat)
    requires IsLimit(key)
    ensures NeverFalls(cfg, key, delay, lag)
            <==> StepOf(cfg, key) == 0 || delay <= 0 || (StepOf(cfg, key) > 0 && delay <= 60_000_000_000 && lag == 0)
  {
    if StepOf(cfg, key) == 0 || delay <= 0 {
      StillNeverFalls(cfg, key, delay, lag);
    } else if StepOf(cfg, key) > 0 && delay <= MINUTE && lag == 0 {
      TimelyNeverFalls(cfg, key, delay);
    } else {
      SomeRunFalls(cfg, key, delay, lag);
    }
  }

  /* ---------- no upper bound ---------- */

  /** The loop is in sync, `j` steps up, with no request out and the limiter's minute over. */
  ghost predicate Settled(cfg: Config, s: State, j: nat, delay: int, lag: nat) {
    && TimelyReachable(cfg, s, delay, lag) && s.git == Level(cfg, j)
    && s.versions != [] && Work(s) == s.git && s.requests == [] && Allowed(cfg, s)
  }

  /** A granted request that is read, delivered and synced at once, with the minute that follows. */
  lemma OneRound(cfg: Config, s: State, j: nat, delay: int, lag: nat) returns (s': State)
    requires Settled(cfg, s, j, delay, lag) && delay > 0
    ensures Settled(cfg, s', j + 1, delay, lag) && s'.versions == s.versions + [s'.git]
  {
    s' := Post(cfg, s, |s.versions| - 1, delay, lag);
    s' := Land(cfg, s', 0, delay, lag);
    s' := Synced(cfg, s', delay, lag);
    s' := Wait(cfg, s', delay, lag);
  }

  lemma {:induction false} Climb(cfg: Config, j: nat, delay: int) returns (s: State)
    requires delay > 0
    ensures Settled(cfg, s, j, delay, 0)
  {
    if j == 0 {
      InitReachable(cfg, delay, 0);
      s := Init(cfg, 0);
    } else {
      s := Climb(cfg, j - 1, delay);
      s := OneRound(cfg, s, j - 1, delay, 0);
    }
  }

  lemma NegativeProduct(j: nat, step: int)
    requires step <= 0
    ensures j * step <= 0
  {
  }

  lemma LevelBounded(cfg: Config, key: string, bound: int, hard: Hard, hi: int)
    requires IsLimit(key) && AtMostLevel(cfg, hard, hi) && Get(cfg.initial, key) <= bound && StepOf(cfg, key) <= 0
    ensures Get(hard, key) <= bound
  {
    var j: nat :| j <= hi && hard == Level(cfg, j);
    LevelOf(cfg, key, j);
    NegativeProduct(j, StepOf(cfg, key));
  }

  lemma StaysBounded(cfg: Config, key: string, bound: int, s: State)
    requires IsLimit(key) && Reachable(cfg, s) && Get(cfg.initial, key) <= bound && StepOf(cfg, key) <= 0
    ensures Get(s.git, key) <= bound
  {
    GrowthBound(cfg, s);
    LevelBounded(cfg, key, bound, s.git, s.grants);
  }

  lemma Outgrows(cfg: Config, key: string, bound: int) returns (s: State)
    requires IsLimit(key) && (Get(cfg.initial, key) > bound || StepOf(cfg, key) > 0)
    ensures TimelyReachable(cfg, s, 1, 0) && Get(s.git, key) > bound
  {
    var j: nat := if Get(cfg.initial, key) > bound then 0 else bound - Get(cfg.initial, key) + 1;
    s := Climb(cfg, j, 1);
    LevelOf(cfg, key, j);
    if j > 0 {
      ProductMonotone(1, StepOf(cfg, key), j);
    }
  }

  /** The live path never consults maxQuota: a bound on limits.cpu or limits.memory holds over all runs exactly
      when it holds at the start and the step does not raise the limit. */
  lemma BoundedIffNoStep(cfg: Config, key: string, bound: int)
    requires IsLimit(key)
    ensures (forall s | Reachable(cfg, s) :: Get(s.git, key) <= bound)
            <==> (Get(cfg.initial, key) <= bound && StepOf(cfg, key) <= 0)
  {
    if Get(cfg.initial, key) <= bound && StepOf(cfg, key) <= 0 {
      forall s | Reachable(cfg, s) ensures Get(s.git, key) <= bound {
        StaysBounded(cfg, key, bound, s);
      }
    } else {
      var s := Outgrows(cfg, key, bound);
      TimelyIsReachable(cfg, s, 1, 0);
    }
  }
}
