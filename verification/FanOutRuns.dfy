/** Whole fan-outs: resource bounds, termination, and what the joined handler finds in its directory. */
module FanOutRuns {
  import opened Manifests
  import opened Numbers
  import opened FanOut

  predicate Legal(cfg: Config, s: State, steps: seq<Step>)
    decreases |steps|
  {
    steps == [] || (Enabled(cfg, s, steps[0]) && Legal(cfg, Apply(cfg, s, steps[0]), steps[1..]))
  }

  function After(cfg: Config, s: State, steps: seq<Step>): State
    requires Legal(cfg, s, steps)
    decreases |steps|
  {
    if steps == [] then s else After(cfg, Apply(cfg, s, steps[0]), steps[1..])
  }

  ghost predicate Reachable(cfg: Config, s: State) {
    exists steps :: Legal(cfg, Init(cfg), steps) && After(cfg, Init(cfg), steps) == s
  }

  lemma {:induction false} RunKeepsInv(cfg: Config, s: State, steps: seq<Step>)
    requires Inv(cfg, s) && Legal(cfg, s, steps)
    ensures Inv(cfg, After(cfg, s, steps))
    decreases |steps|
  {
    if steps != [] {
      StepKeepsInv(cfg, s, steps[0]);
      RunKeepsInv(cfg, Apply(cfg, s, steps[0]), steps[1..]);
    }
  }

  lemma ReachableInv(cfg: Config, s: State)
    requires Reachable(cfg, s)
    ensures Inv(cfg, s)
  {
    InitInv(cfg);
    var steps :| Legal(cfg, Init(cfg), steps) && After(cfg, Init(cfg), steps) == s;
    RunKeepsInv(cfg, Init(cfg), steps);
  }

  /* ---------- resources and termination ---------- */

  /** At most two updates run at once, and a goroutine that reports an error always finds room for it. */
  lemma ResourceBounds(cfg: Config, s: State)
    requires Inv(cfg, s)
    ensures Total(s.tasks, HoldsSlot) <= 2
    ensures forall i | 0 <= i < |s.tasks| && s.tasks[i].phase.Reporting? :: s.errChan < |cfg.paths|
  {
    forall i | 0 <= i < |s.tasks| && s.tasks[i].phase.Reporting? ensures s.errChan < |cfg.paths| {
      TotalAtMost(s.tasks, Reported, i);
    }
  }

  function Measure(s: State): nat {
    Total(s.tasks, Rank) + if s.verdict.Pending? then 1 else 0
  }

  lemma MoverRanksLower(cfg: Config, s: State, step: Step)
    requires Shape(cfg, s) && Enabled(cfg, s, step) && !step.Join?
    ensures var i := Mover(s, step);
            && i < |s.tasks| == |Apply(cfg, s, step).tasks|
            && Rank(Apply(cfg, s, step).tasks[i].phase) < Rank(s.tasks[i].phase)
  {
  }

  lemma StepLowersMeasure(cfg: Config, s: State, step: Step)
    requires Shape(cfg, s) && Enabled(cfg, s, step)
    ensures Measure(Apply(cfg, s, step)) < Measure(s)
  {
    if !step.Join? {
      var s', i := Apply(cfg, s, step), Mover(s, step);
      MoverRanksLower(cfg, s, step);
      StepEnters(cfg, s, step);
      TotalEnter(s.tasks, i, s'.tasks[i].phase, Rank);
    }
  }

  /** Every schedule ends: eight steps a match at most. */
  lemma {:induction false} RunsAreBounded(cfg: Config, s: State, steps: seq<Step>)
    requires Inv(cfg, s) && Legal(cfg, s, steps)
    ensures |steps| + Measure(After(cfg, s, steps)) <= Measure(s)
    decreases |steps|
  {
    if steps != [] {
      StepLowersMeasure(cfg, s, steps[0]);
      StepKeepsInv(cfg, s, steps[0]);
      RunsAreBounded(cfg, Apply(cfg, s, steps[0]), steps[1..]);
    }
  }

  /** No deadlock: until the handler has its verdict, some goroutine can move. */
  lemma Progress(cfg: Config, s: State) returns (step: Step)
    requires Inv(cfg, s) && s.verdict.Pending?
    ensures Enabled(cfg, s, step)
  {
    if s.spawned < |s.tasks| {
      return Spawn;
    }
    if AllEnded(s.tasks) {
      return Join;
    }
    TotalZero(s.tasks, HoldsSlot);
    if s.sem == 0 {
      var i :| 0 <= i < |s.tasks| && !s.tasks[i].phase.Ended?;
      return if s.tasks[i].phase.Released? then WgDone(i) else Acquire(i);
    }
    var i :| 0 <= i < |s.tasks| && HoldsSlot(s.tasks[i].phase) != 0;
    ResourceBounds(cfg, s);
    var t := s.tasks[i];
    if t.phase.InSlot? {
      step := if t.path in s.files then Read(i) else ReadFails(i);
    } else {
      step := if t.phase.HasRead? then Finish(i) else if t.phase.Reporting? then Report(i) else Release(i);
    }
  }

  /* ---------- the result ---------- */

  /** What a fan-out that passes leaves behind, per file: a listed file was updated at least once and at
      most as often as it is listed; every other file is as it was. */
  ghost predicate Rewritten(req: Request, paths: seq<Path>, before: Tree, after: Tree) {
    && after.Keys == before.Keys
    && (forall p | p in before && p !in paths :: after[p] == before[p])
    && (forall p | p in paths :: p in before && !Decide(req, before[p]).Fail?)
    && (forall p | p in paths :: Within(req, before[p], after[p], 1, multiset(paths)[p]))
  }

  /** For every schedule, also with repeated paths: a fan-out that passes has met no I/O fault and has
      rewritten exactly the listed files. */
  lemma PassedMeansRewritten(cfg: Config, s: State)
    requires Inv(cfg, s) && s.verdict.Passed?
    ensures !s.ioFault && Rewritten(cfg.req, cfg.paths, cfg.original, s.files)
  {
    TotalZero(s.tasks, Reported);
    assert forall i | 0 <= i < |s.tasks| :: Reported(s.tasks[i].phase) == 0 && Completed(s.tasks[i].phase) == 1;
    forall p | p in cfg.paths
      ensures p in cfg.original && !Decide(cfg.req, cfg.original[p]).Fail?
      ensures Within(cfg.req, cfg.original[p], s.files[p], 1, multiset(cfg.paths)[p])
    {
      var i :| 0 <= i < |cfg.paths| && cfg.paths[i] == p;
      assert TaskTracked(cfg, s, s.tasks[i]);
      CompletedOnBounds(s.tasks, cfg.paths, p);
      assert FileTracked(cfg, s, p);
    }
    forall p | p in cfg.original && p !in cfg.paths ensures s.files[p] == cfg.original[p] {
      assert FileTracked(cfg, s, p);
    }
  }

  /** Without I/O faults the verdict is decided by the manifests alone, whatever the schedule: it passes
      exactly when every listed file exists and can be updated. */
  lemma VerdictIsScheduleFree(cfg: Config, s: State)
    requires Inv(cfg, s) && !s.verdict.Pending? && !s.ioFault
    ensures s.verdict.Passed? <==> forall p | p in cfg.paths :: Updatable(cfg, p)
  {
    TotalZero(s.tasks, Reported);
    if s.verdict.Passed? {
      PassedMeansRewritten(cfg, s);
    } else {
      var i :| 0 <= i < |s.tasks| && Reported(s.tasks[i].phase) != 0;
      assert TaskTracked(cfg, s, s.tasks[i]);
      assert s.tasks[i].path == cfg.paths[i];
    }
  }

  /** The pointwise update of the listed files. */
  function Applied(req: Request, paths: seq<Path>, tree: Tree): (after: Tree)
  {
    map p | p in tree :: if p in paths then Next(req, tree[p]) else tree[p]
  }

  lemma {:induction false} DistinctCountsOnce(paths: seq<Path>, p: Path)
    requires Distinct(paths) && p in paths
    ensures multiset(paths)[p] == 1
  {
    assert paths == [paths[0]] + paths[1..];
    if p in paths[1..] {
      var i :| 0 <= i < |paths[1..]| && paths[1..][i] == p;
      assert paths[0] != paths[i + 1];
      DistinctCountsOnce(paths[1..], p);
    }
  }

  lemma OnceIsNext(req: Request, before: File)
    ensures Iterate(req, before, 1) == Next(req, before)
  {
    assert Iterate(req, before, 0) == before;
  }

  /** Over distinct paths each match is updated exactly once: the directory is the pointwise update. */
  lemma DistinctRewriteIsApplied(req: Request, paths: seq<Path>, before: Tree, after: Tree)
    requires Distinct(paths) && Rewritten(req, paths, before, after)
    ensures after == Applied(req, paths, before)
  {
    forall p | p in paths ensures after[p] == Next(req, before[p]) {
      DistinctCountsOnce(paths, p);
      OnceIsNext(req, before[p]);
      assert Within(req, before[p], after[p], 1, 1);
    }
  }

  /** Posting a quota tolerates repeated paths: the result is the pointwise update all the same. */
  lemma QuotaRewriteIsApplied(hard: map<string, int>, paths: seq<Path>, before: Tree, after: Tree)
    requires Rewritten(SetQuota(hard), paths, before, after)
    ensures after == Applied(SetQuota(hard), paths, before)
  {
    forall p | p in paths ensures after[p] == Next(SetQuota(hard), before[p]) {
      var j: nat :| 1 <= j <= multiset(paths)[p] && after[p] == Iterate(SetQuota(hard), before[p], j);
      QuotaIdempotent(hard, before[p], j);
    }
  }

  /** Adding a replica does not: a file listed k times ends between one and k replicas up, capped. */
  lemma ReplicaRewriteRange(maxNodes: int, paths: seq<Path>, before: Tree, after: Tree, p: Path, r: int)
    requires Rewritten(AddReplica(maxNodes), paths, before, after) && p in paths
    requires HasReplicas(before[p], r) && 1 <= r <= maxNodes
    ensures exists n | Min(r + 1, maxNodes) <= n <= Min(r + multiset(paths)[p], maxNodes) :: HasReplicas(after[p], n)
    ensures Frame(after[p]) == Frame(before[p])
  {
    var j: nat :| 1 <= j <= multiset(paths)[p] && after[p] == Iterate(AddReplica(maxNodes), before[p], j);
    ReplicaIteration(maxNodes, before[p], r, j);
  }

  /* ---------- repeated paths: both ends of the range are reached ---------- */

  lemma LegalCons(cfg: Config, s: State, step: Step, rest: seq<Step>)
    requires Enabled(cfg, s, step) && Legal(cfg, Apply(cfg, s, step), rest)
    ensures Legal(cfg, s, [step] + rest) && After(cfg, s, [step] + rest) == After(cfg, Apply(cfg, s, step), rest)
  {
    assert ([step] + rest)[1..] == rest;
  }

  lemma LegalHead(cfg: Config, s: State, a: seq<Step>, b: seq<Step>)
    requires a != [] && Enabled(cfg, s, a[0]) && Legal(cfg, Apply(cfg, s, a[0]), a[1..] + b)
    ensures Legal(cfg, s, a + b) && After(cfg, s, a + b) == After(cfg, Apply(cfg, s, a[0]), a[1..] + b)
  {
    assert a + b == [a[0]] + (a[1..] + b);
    LegalCons(cfg, s, a[0], a[1..] + b);
  }

  /** A run that goes from s to mid can be continued by one from mid. */
  lemma {:induction false} RunThen(cfg: Config, s: State, a: seq<Step>, mid: State, b: seq<Step>)
    requires Legal(cfg, s, a) && After(cfg, s, a) == mid && Legal(cfg, mid, b)
    ensures Legal(cfg, s, a + b) && After(cfg, s, a + b) == After(cfg, mid, b)
    decreases |a|
  {
    if a == [] {
      assert a + b == b;
    } else {
      RunThen(cfg, Apply(cfg, s, a[0]), a[1..], mid, b);
      LegalHead(cfg, s, a, b);
    }
  }

  lemma LegalConcat(cfg: Config, s: State, a: seq<Step>, b: seq<Step>)
    requires Legal(cfg, s, a) && Legal(cfg, After(cfg, s, a), b)
    ensures Legal(cfg, s, a + b) && After(cfg, s, a + b) == After(cfg, After(cfg, s, a), b)
  {
    RunThen(cfg, s, a, After(cfg, s, a), b);
  }

  lemma LegalOne(cfg: Config, s: State, step: Step)
    requires Enabled(cfg, s, step)
    ensures Legal(cfg, s, [step]) && After(cfg, s, [step]) == Apply(cfg, s, step)
  {
    assert [step][1..] == [];
  }

  predicate CanFinish(cfg: Config, s: State, i: nat) {
    && i < |s.tasks| && s.tasks[i].path in s.files && s.sem < SLOTS && !Decide(cfg.req, s.files[s.tasks[i].path]).Fail?
    && s.tasks[i].phase.Queued?
  }

  function Finished(cfg: Config, s: State, i: nat): State
    requires i < |s.tasks| && s.tasks[i].path in s.files
  {
    var path := s.tasks[i].path;
    s.(tasks := Enter(s.tasks, i, Ended(true)), files := s.files[path := Next(cfg.req, s.files[path])])
  }

  /** The last three steps of goroutine i, which has read `content`. */
  lemma FinishRun(cfg: Config, s: State, i: nat) returns (steps: seq<Step>)
    requires i < |s.tasks| && s.tasks[i].phase.HasRead? && s.tasks[i].path in s.files && s.sem > 0
    requires Decide(cfg.req, s.tasks[i].phase.content).Write?
             || (&& !Decide(cfg.req, s.tasks[i].phase.content).Fail?
                 && s.files[s.tasks[i].path] == s.tasks[i].phase.content)
    ensures Legal(cfg, s, steps)
    ensures After(cfg, s, steps)
         == s.(tasks := Enter(s.tasks, i, Ended(true)), sem := s.sem - 1,
               files := s.files[s.tasks[i].path := Next(cfg.req, s.tasks[i].phase.content)])
  {
    var s1 := Apply(cfg, s, Finish(i));
    var s2 := Apply(cfg, s1, Release(i));
    LegalOne(cfg, s, Finish(i));
    LegalOne(cfg, s1, Release(i));
    LegalOne(cfg, s2, WgDone(i));
    LegalConcat(cfg, s, [Finish(i)], [Release(i)]);
    LegalConcat(cfg, s, [Finish(i)] + [Release(i)], [WgDone(i)]);
    steps := [Finish(i)] + [Release(i)] + [WgDone(i)];
    assert Enter(Enter(Enter(s.tasks, i, Leaving(true)), i, Released(true)), i, Ended(true))
        == Enter(s.tasks, i, Ended(true));
    if Decide(cfg.req, s.tasks[i].phase.content).Leave? {
      assert s.files == s.files[s.tasks[i].path := Next(cfg.req, s.tasks[i].phase.content)];
    }
  }

  lemma ReadRun(cfg: Config, s: State, i: nat) returns (steps: seq<Step>)
    requires CanFinish(cfg, s, i)
    ensures Legal(cfg, s, steps)
    ensures After(cfg, s, steps) == s.(tasks := Enter(s.tasks, i, HasRead(s.files[s.tasks[i].path])), sem := s.sem + 1)
  {
    var s1 := Apply(cfg, s, Acquire(i));
    LegalOne(cfg, s, Acquire(i));
    LegalOne(cfg, s1, Read(i));
    LegalConcat(cfg, s, [Acquire(i)], [Read(i)]);
    steps := [Acquire(i)] + [Read(i)];
    var content := s.files[s.tasks[i].path];
    assert Enter(Enter(s.tasks, i, InSlot), i, HasRead(content)) == Enter(s.tasks, i, HasRead(content));
  }

  /** Goroutine i runs from its slot to its end without interruption. */
  lemma SoloRun(cfg: Config, s: State, i: nat) returns (steps: seq<Step>)
    requires CanFinish(cfg, s, i)
    ensures Legal(cfg, s, steps) && After(cfg, s, steps) == Finished(cfg, s, i)
  {
    var a := ReadRun(cfg, s, i);
    var s1 := After(cfg, s, a);
    var b := FinishRun(cfg, s1, i);
    LegalConcat(cfg, s, a, b);
    steps := a + b;
    var content := s.files[s.tasks[i].path];
    assert Enter(Enter(s.tasks, i, HasRead(content)), i, Ended(true)) == Enter(s.tasks, i, Ended(true));
  }

  function EndedIn(tasks: seq<Task>, from: nat, upto: nat): seq<Task> {
    seq(|tasks|, i requires 0 <= i < |tasks| =>
      if from <= i < upto then tasks[i].(phase := Ended(true)) else tasks[i])
  }

  /** Goroutines from .. upto wait for a slot, and their files can be updated. */
  predicate Waiting(cfg: Config, s: State, from: nat, upto: nat) {
    && from <= upto <= |s.tasks| == |cfg.paths| && s.sem < SLOTS
    && forall i | from <= i < upto ::
         s.tasks[i] == Task(cfg.paths[i], Queued) && UpdatableIn(cfg.req, s.files, cfg.paths[i])
  }

  /** They have run one after the other. */
  function SoloEnd(cfg: Config, s: State, from: nat, upto: nat): State
    requires from <= upto <= |cfg.paths|
  {
    s.(tasks := EndedIn(s.tasks, from, upto), files := ApplyAll(cfg.req, cfg.paths[from..upto], s.files))
  }

  lemma ApplyAllSlice(req: Request, paths: seq<Path>, from: nat, last: nat, tree: Tree)
    requires from <= last < |paths| && UpdatableIn(req, tree, paths[last])
    ensures UpdatableIn(req, ApplyAll(req, paths[from..last], tree), paths[last])
    ensures var before := ApplyAll(req, paths[from..last], tree);
            ApplyAll(req, paths[from..last + 1], tree) == before[paths[last] := Next(req, before[paths[last]])]
  {
    ApplyAllKeepsFailures(req, paths[from..last], tree, paths[last]);
    ApplyAllLast(req, paths[from..last], paths[last], tree);
    assert paths[from..last + 1] == paths[from..last] + [paths[last]];
  }

  lemma FinishedIsNext(cfg: Config, s: State, from: nat, last: nat)
    requires from <= last && Waiting(cfg, s, from, last + 1)
    ensures CanFinish(cfg, SoloEnd(cfg, s, from, last), last)
    ensures Finished(cfg, SoloEnd(cfg, s, from, last), last) == SoloEnd(cfg, s, from, last + 1)
  {
    ApplyAllSlice(cfg.req, cfg.paths, from, last, s.files);
    var mid := SoloEnd(cfg, s, from, last);
    assert Enter(mid.tasks, last, Ended(true)) == EndedIn(s.tasks, from, last + 1);
  }

  /** The waiting goroutines can run one after the other. */
  lemma {:induction false} SoloRuns(cfg: Config, s: State, from: nat, upto: nat) returns (steps: seq<Step>)
    requires Waiting(cfg, s, from, upto)
    ensures Legal(cfg, s, steps) && After(cfg, s, steps) == SoloEnd(cfg, s, from, upto)
    decreases upto
  {
    if from == upto {
      steps := [];
      assert EndedIn(s.tasks, from, upto) == s.tasks;
    } else {
      var last := upto - 1;
      FinishedIsNext(cfg, s, from, last);
      var a := SoloRuns(cfg, s, from, last);
      var b := SoloRun(cfg, SoloEnd(cfg, s, from, last), last);
      LegalConcat(cfg, s, a, b);
      steps := a + b;
    }
  }

  function Started(cfg: Config, n: nat): State
    requires n <= |cfg.paths|
  {
    Init(cfg).(spawned := n,
               tasks := seq(|cfg.paths|, i requires 0 <= i < |cfg.paths| =>
                 Task(cfg.paths[i], if i < n then Queued else Unspawned)))
  }

  lemma {:induction false} SpawnRun(cfg: Config, n: nat) returns (steps: seq<Step>)
    requires n <= |cfg.paths|
    ensures Legal(cfg, Started(cfg, n), steps) && After(cfg, Started(cfg, n), steps) == Started(cfg, |cfg.paths|)
    decreases |cfg.paths| - n
  {
    if n == |cfg.paths| {
      steps := [];
    } else {
      LegalOne(cfg, Started(cfg, n), Spawn);
      assert Apply(cfg, Started(cfg, n), Spawn).tasks == Started(cfg, n + 1).tasks;
      var rest := SpawnRun(cfg, n + 1);
      LegalConcat(cfg, Started(cfg, n), [Spawn], rest);
      steps := [Spawn] + rest;
    }
  }

  lemma StartedRun(cfg: Config, steps: seq<Step>, s: State)
    requires Legal(cfg, Started(cfg, |cfg.paths|), steps) && After(cfg, Started(cfg, |cfg.paths|), steps) == s
    ensures Reachable(cfg, s)
  {
    assert Init(cfg).tasks == Started(cfg, 0).tasks;
    var a := SpawnRun(cfg, 0);
    LegalConcat(cfg, Init(cfg), a, steps);
    assert After(cfg, Init(cfg), a + steps) == s;
  }

  lemma JoinedRun(cfg: Config, steps: seq<Step>) returns (end: State)
    requires Legal(cfg, Started(cfg, |cfg.paths|), steps)
    requires Enabled(cfg, After(cfg, Started(cfg, |cfg.paths|), steps), Join)
    ensures Reachable(cfg, end) && end == Apply(cfg, After(cfg, Started(cfg, |cfg.paths|), steps), Join)
  {
    var mid := After(cfg, Started(cfg, |cfg.paths|), steps);
    LegalOne(cfg, mid, Join);
    LegalConcat(cfg, Started(cfg, |cfg.paths|), steps, [Join]);
    end := Apply(cfg, mid, Join);
    StartedRun(cfg, steps + [Join], end);
  }

  predicate AllUpdatable(cfg: Config) {
    AllUpdatableIn(cfg.req, cfg.original, cfg.paths)
  }

  /** No update is lost when the goroutines happen to run one after the other: the sequential result is reached. */
  lemma AllUpdatesCount(cfg: Config) returns (end: State)
    requires AllUpdatable(cfg)
    ensures Reachable(cfg, end) && end.verdict.Passed? && end.files == ApplyAll(cfg.req, cfg.paths, cfg.original)
  {
    var n := |cfg.paths|;
    var steps := SoloRuns(cfg, Started(cfg, n), 0, n);
    assert cfg.paths[0..n] == cfg.paths;
    end := JoinedRun(cfg, steps);
  }

  /** All goroutines are spawned, and goroutine `first` has read its file. */
  function FirstHasRead(cfg: Config, first: nat): State
    requires first < |cfg.paths| && Updatable(cfg, cfg.paths[first])
  {
    var s := Started(cfg, |cfg.paths|);
    s.(tasks := Enter(s.tasks, first, HasRead(cfg.original[cfg.paths[first]])), sem := 1)
  }

  /** All others then run from start to end. */
  lemma OthersRun(cfg: Config, first: nat) returns (steps: seq<Step>, end: State)
    requires first < |cfg.paths| && AllUpdatable(cfg)
    ensures var s := FirstHasRead(cfg, first); Legal(cfg, s, steps) && After(cfg, s, steps) == end
    ensures end == FirstHasRead(cfg, first).(tasks := end.tasks, files := end.files)
    ensures |end.tasks| == |cfg.paths| && end.tasks[first] == FirstHasRead(cfg, first).tasks[first]
    ensures forall i | 0 <= i < |end.tasks| && i != first :: end.tasks[i].phase == Ended(true)
    ensures end.files.Keys == cfg.original.Keys
  {
    var s := FirstHasRead(cfg, first);
    var a := SoloRuns(cfg, s, 0, first);
    var mid := SoloEnd(cfg, s, 0, first);
    forall i | first + 1 <= i < |cfg.paths| ensures UpdatableIn(cfg.req, mid.files, cfg.paths[i]) {
      assert Updatable(cfg, cfg.paths[i]);
      ApplyAllKeepsFailures(cfg.req, cfg.paths[0..first], s.files, cfg.paths[i]);
    }
    var b := SoloRuns(cfg, mid, first + 1, |cfg.paths|);
    LegalConcat(cfg, s, a, b);
    steps := a + b;
    end := SoloEnd(cfg, mid, first + 1, |cfg.paths|);
  }

  /** Goroutine `first` reads, the others run, and then it writes. */
  lemma Overtaking(cfg: Config, first: nat) returns (steps: seq<Step>, end: State)
    requires first < |cfg.paths| && AllUpdatable(cfg)
    requires Updatable(cfg, cfg.paths[first]) && Decide(cfg.req, cfg.original[cfg.paths[first]]).Write?
    ensures Legal(cfg, Started(cfg, |cfg.paths|), steps) && After(cfg, Started(cfg, |cfg.paths|), steps) == end
    ensures Enabled(cfg, end, Join) && end.errChan == 0 && cfg.paths[first] in end.files
    ensures end.files[cfg.paths[first]] == Next(cfg.req, cfg.original[cfg.paths[first]])
  {
    var s := Started(cfg, |cfg.paths|);
    var a := ReadRun(cfg, s, first);
    var b, mid := OthersRun(cfg, first);
    var c := FinishRun(cfg, mid, first);
    LegalConcat(cfg, FirstHasRead(cfg, first), b, c);
    LegalConcat(cfg, s, a, b + c);
    steps := a + (b + c);
    end := After(cfg, mid, c);
  }

  /** Every other update of file p is lost when one goroutine reads before, and writes after, the others;
      whatever else is listed, and in which order. */
  lemma OneUpdateCounts(cfg: Config, p: Path) returns (end: State)
    requires p in cfg.paths && AllUpdatable(cfg) && Updatable(cfg, p) && Decide(cfg.req, cfg.original[p]).Write?
    ensures Reachable(cfg, end) && end.verdict.Passed?
    ensures p in end.files && end.files[p] == Next(cfg.req, cfg.original[p])
  {
    var first :| 0 <= first < |cfg.paths| && cfg.paths[first] == p;
    var steps, mid := Overtaking(cfg, first);
    end := JoinedRun(cfg, steps);
  }

  /** Two updates do run at once: the first two goroutines can both be inside. */
  lemma TwoRunAtOnce(cfg: Config) returns (s: State)
    requires |cfg.paths| >= 2
    ensures Reachable(cfg, s) && |s.tasks| == |cfg.paths|
    ensures s.tasks[0].phase.InSlot? && s.tasks[1].phase.InSlot?
  {
    var s0 := Started(cfg, |cfg.paths|);
    var s1 := Apply(cfg, s0, Acquire(0));
    s := Apply(cfg, s1, Acquire(1));
    LegalOne(cfg, s0, Acquire(0));
    LegalOne(cfg, s1, Acquire(1));
    LegalConcat(cfg, s0, [Acquire(0)], [Acquire(1)]);
    StartedRun(cfg, [Acquire(0)] + [Acquire(1)], s);
  }

  lemma {:induction false} FailureLasts(cfg: Config, s: State, steps: seq<Step>, k: nat)
    requires Inv(cfg, s) && k < |s.tasks| && HasFailed(s.tasks[k].phase) && Legal(cfg, s, steps)
    ensures !After(cfg, s, steps).verdict.Passed?
    decreases |steps|
  {
    if steps == [] {
      FailureIsSeen(s, k);
    } else {
      FailureStays(cfg, s, steps[0], k);
      StepKeepsInv(cfg, s, steps[0]);
      FailureLasts(cfg, Apply(cfg, s, steps[0]), steps[1..], k);
    }
  }

  /** The file system may fail a read, whatever the manifests are; then no continuation passes. */
  lemma ReadMayFail(cfg: Config) returns (s: State)
    requires cfg.paths != []
    ensures Reachable(cfg, s) && s.files == cfg.original
    ensures forall more | Legal(cfg, s, more) :: !After(cfg, s, more).verdict.Passed?
  {
    var n := |cfg.paths|;
    var s0 := Started(cfg, n);
    var s1 := Apply(cfg, s0, Acquire(0));
    s := Apply(cfg, s1, ReadFails(0));
    LegalOne(cfg, s0, Acquire(0));
    LegalOne(cfg, s1, ReadFails(0));
    LegalConcat(cfg, s0, [Acquire(0)], [ReadFails(0)]);
    StartedRun(cfg, [Acquire(0)] + [ReadFails(0)], s);
    ReachableInv(cfg, s);
    forall more | Legal(cfg, s, more) ensures !After(cfg, s, more).verdict.Passed? {
      FailureLasts(cfg, s, more, 0);
    }
  }

  /** It may fail a write too, and leave any content behind. */
  lemma WriteMayFail(cfg: Config, torn: File) returns (s: State)
    requires cfg.paths != [] && Updatable(cfg, cfg.paths[0]) && Decide(cfg.req, cfg.original[cfg.paths[0]]).Write?
    ensures Reachable(cfg, s) && s.files == cfg.original[cfg.paths[0] := torn]
    ensures forall more | Legal(cfg, s, more) :: !After(cfg, s, more).verdict.Passed?
  {
    var n := |cfg.paths|;
    var s0 := Started(cfg, n);
    var a := ReadRun(cfg, s0, 0);
    var s1 := After(cfg, s0, a);
    s := Apply(cfg, s1, WriteFails(0, torn));
    LegalOne(cfg, s1, WriteFails(0, torn));
    LegalConcat(cfg, s0, a, [WriteFails(0, torn)]);
    StartedRun(cfg, a + [WriteFails(0, torn)], s);
    ReachableInv(cfg, s);
    forall more | Legal(cfg, s, more) ensures !After(cfg, s, more).verdict.Passed? {
      FailureLasts(cfg, s, more, 0);
    }
  }

  /** What a listed MachineDeployment file may not gain: some schedule that passes leaves it short. */
  lemma SomeScheduleFallsShort(cfg: Config, maxNodes: int, p: Path, r: int) returns (end: State)
    requires cfg.req == AddReplica(maxNodes) && p in cfg.paths && AllUpdatable(cfg) && Updatable(cfg, p)
    requires HasReplicas(cfg.original[p], r) && 1 <= r && r + 1 < maxNodes && multiset(cfg.paths)[p] > 1
    ensures Reachable(cfg, end) && end.verdict.Passed?
    ensures p in end.files && !HasReplicas(end.files[p], Min(r + multiset(cfg.paths)[p], maxNodes))
  {
    end := OneUpdateCounts(cfg, p);
    OnceIsNext(cfg.req, cfg.original[p]);
    ReplicaIteration(maxNodes, cfg.original[p], r, 1);
  }

  /** Otherwise a rewrite gains it all. */
  lemma RewriteCountsAll(maxNodes: int, paths: seq<Path>, before: Tree, after: Tree, p: Path, r: int)
    requires Rewritten(AddReplica(maxNodes), paths, before, after) && p in paths
    requires HasReplicas(before[p], r) && 1 <= r <= maxNodes && (multiset(paths)[p] == 1 || r + 1 >= maxNodes)
    ensures p in after && HasReplicas(after[p], Min(r + multiset(paths)[p], maxNodes))
  {
    assert p in multiset(paths);
    ReplicaRewriteRange(maxNodes, paths, before, after, p, r);
  }

  lemma PassedRunRewrites(cfg: Config, s: State)
    requires Reachable(cfg, s) && s.verdict.Passed?
    ensures Rewritten(cfg.req, cfg.paths, cfg.original, s.files) && AllUpdatable(cfg)
  {
    ReachableInv(cfg, s);
    PassedMeansRewritten(cfg, s);
  }

  /** Whatever else the list names: a MachineDeployment file it names k times gains min(r + k, maxNodes) under
      every schedule that passes exactly when k = 1, or the first update already reaches maxNodes, or no
      schedule passes because some listed file cannot be updated. */
  lemma RepeatedMatchesCountIff(cfg: Config, maxNodes: int, p: Path, r: int)
    requires cfg.req == AddReplica(maxNodes) && p in cfg.paths && p in cfg.original
    requires HasReplicas(cfg.original[p], r) && 1 <= r <= maxNodes
    ensures var k := multiset(cfg.paths)[p];
            (forall s | Reachable(cfg, s) && s.verdict.Passed? ::
               p in s.files && HasReplicas(s.files[p], Min(r + k, maxNodes)))
            <==> (k == 1 || r + 1 >= maxNodes || exists q | q in cfg.paths :: !Updatable(cfg, q))
  {
    if multiset(cfg.paths)[p] == 1 || r + 1 >= maxNodes {
      forall s | Reachable(cfg, s) && s.verdict.Passed?
        ensures p in s.files && HasReplicas(s.files[p], Min(r + multiset(cfg.paths)[p], maxNodes))
      {
        PassedRunRewrites(cfg, s);
        RewriteCountsAll(maxNodes, cfg.paths, cfg.original, s.files, p, r);
      }
    } else if AllUpdatable(cfg) {
      assert p in multiset(cfg.paths);
      var s := SomeScheduleFallsShort(cfg, maxNodes, p, r);
    } else {
      forall s | Reachable(cfg, s) ensures !s.verdict.Passed? {
        if s.verdict.Passed? {
          PassedRunRewrites(cfg, s);
        }
      }
    }
  }
}
