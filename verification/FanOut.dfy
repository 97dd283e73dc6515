/** The fan-out of one handler: a goroutine per matched file, a two-slot semaphore, a WaitGroup and an
    error channel with room for one error per match. Reading and writing a file are separate steps, and the
    list of matches may name a file more than once. */
module FanOut {
  import opened Manifests

  datatype Phase =
    | Unspawned
    | Queued                  // at the send on sem
    | InSlot                  // about to read the file
    | HasRead(content: File)  // about to decide and write
    | Reporting               // at the send on errChan
    | Leaving(ok: bool)       // about to free its slot
    | Released(ok: bool)      // about to call wg.Done
    | Ended(ok: bool)

  datatype Task = Task(path: Path, phase: Phase)

  datatype Verdict = Pending | Passed | Refused

  datatype Config = Config(req: Request, paths: seq<Path>, original: Tree)

  const SLOTS: nat := 2

  /** `ioFault` remembers that a read or write failed for a reason outside the manifest. */
  datatype State = State(
    files: Tree,
    tasks: seq<Task>,
    spawned: nat,
    sem: nat,
    errChan: nat,
    ioFault: bool,
    verdict: Verdict)

  datatype Step =
    | Spawn
    | Acquire(i: nat)
    | Read(i: nat)
    | ReadFails(i: nat)
    | Finish(i: nat)
    | WriteFails(i: nat, torn: File)
    | Report(i: nat)
    | Release(i: nat)
    | WgDone(i: nat)
    | Join

  function Init(cfg: Config): State {
    State(cfg.original, seq(|cfg.paths|, i requires 0 <= i < |cfg.paths| => Task(cfg.paths[i], Unspawned)),
          0, 0, 0, false, Pending)
  }

  predicate AllEnded(tasks: seq<Task>) {
    forall i | 0 <= i < |tasks| :: tasks[i].phase.Ended?
  }

  predicate Enabled(cfg: Config, s: State, step: Step) {
    match step
    case Spawn => s.spawned < |s.tasks| && s.tasks[s.spawned].phase.Unspawned?
    case Acquire(i) => i < |s.tasks| && s.tasks[i].phase.Queued? && s.sem < SLOTS
    case Read(i) => i < |s.tasks| && s.tasks[i].phase.InSlot? && s.tasks[i].path in s.files
    case ReadFails(i) => i < |s.tasks| && s.tasks[i].phase.InSlot?
    case Finish(i) => i < |s.tasks| && s.tasks[i].phase.HasRead?
    case WriteFails(i, _) =>
      i < |s.tasks| && s.tasks[i].phase.HasRead? && Decide(cfg.req, s.tasks[i].phase.content).Write?
    case Report(i) => i < |s.tasks| && s.tasks[i].phase.Reporting? && s.errChan < |cfg.paths|
    case Release(i) => i < |s.tasks| && s.tasks[i].phase.Leaving? && s.sem > 0
    case WgDone(i) => i < |s.tasks| && s.tasks[i].phase.Released?
    case Join => s.spawned == |s.tasks| && AllEnded(s.tasks) && s.verdict.Pending?
  }

  function Enter(tasks: seq<Task>, i: nat, phase: Phase): seq<Task>
    requires i < |tasks|
  {
    tasks[i := tasks[i].(phase := phase)]
  }

  function Apply(cfg: Config, s: State, step: Step): State
    requires Enabled(cfg, s, step)
  {
    match step
    case Spawn => s.(tasks := Enter(s.tasks, s.spawned, Queued), spawned := s.spawned + 1)
    case Acquire(i) => s.(tasks := Enter(s.tasks, i, InSlot), sem := s.sem + 1)
    case Read(i) => s.(tasks := Enter(s.tasks, i, HasRead(s.files[s.tasks[i].path])))
    case ReadFails(i) => s.(tasks := Enter(s.tasks, i, Reporting), ioFault := s.ioFault || s.tasks[i].path in s.files)
    case Finish(i) =>
      (match Decide(cfg.req, s.tasks[i].phase.content)
       case Fail(_) => s.(tasks := Enter(s.tasks, i, Reporting))
       case Leave => s.(tasks := Enter(s.tasks, i, Leaving(true)))
       case Write(file) => s.(tasks := Enter(s.tasks, i, Leaving(true)), files := s.files[s.tasks[i].path := file]))
    case WriteFails(i, torn) =>
      s.(tasks := Enter(s.tasks, i, Reporting), files := s.files[s.tasks[i].path := torn], ioFault := true)
    case Report(i) => s.(tasks := Enter(s.tasks, i, Leaving(false)), errChan := s.errChan + 1)
    case Release(i) => s.(tasks := Enter(s.tasks, i, Released(s.tasks[i].phase.ok)), sem := s.sem - 1)
    case WgDone(i) => s.(tasks := Enter(s.tasks, i, Ended(s.tasks[i].phase.ok)))
    case Join => s.(verdict := if s.errChan == 0 then Passed else Refused)
  }

  /* ---------- counting ---------- */

  function HoldsSlot(phase: Phase): nat {
    if phase.InSlot? || phase.HasRead? || phase.Reporting? || phase.Leaving? then 1 else 0
  }

  function Reported(phase: Phase): nat {
    if (phase.Leaving? || phase.Released? || phase.Ended?) && !phase.ok then 1 else 0
  }

  function Completed(phase: Phase): nat {
    if (phase.Leaving? || phase.Released? || phase.Ended?) && phase.ok then 1 else 0
  }

  /** The update failed; its error was sent to errChan or is about to be. */
  predicate HasFailed(phase: Phase) {
    phase.Reporting? || Reported(phase) == 1
  }

  function Rank(phase: Phase): nat {
    match phase
    case Unspawned => 7
    case Queued => 6
    case InSlot => 5
    case HasRead(_) => 4
    case Reporting => 3
    case Leaving(_) => 2
    case Released(_) => 1
    case Ended(_) => 0
  }

  function Total(tasks: seq<Task>, weight: Phase -> nat): nat {
    if tasks == [] then 0 else weight(tasks[0].phase) + Total(tasks[1..], weight)
  }

  lemma {:induction false} TotalEnter(tasks: seq<Task>, i: nat, phase: Phase, weight: Phase -> nat)
    requires i < |tasks|
    ensures Total(Enter(tasks, i, phase), weight) + weight(tasks[i].phase) == Total(tasks, weight) + weight(phase)
  {
    if i == 0 {
      assert Enter(tasks, i, phase)[1..] == tasks[1..];
    } else {
      TotalEnter(tasks[1..], i - 1, phase, weight);
      assert Enter(tasks, i, phase)[1..] == Enter(tasks[1..], i - 1, phase);
    }
  }

  lemma {:induction false} TotalAtMost(tasks: seq<Task>, weight: Phase -> nat, zero: nat)
    requires forall phase :: weight(phase) <= 1
    requires zero < |tasks| ==> weight(tasks[zero].phase) == 0
    ensures Total(tasks, weight) <= |tasks|
    ensures zero < |tasks| ==> Total(tasks, weight) < |tasks|
  {
    if tasks != [] {
      TotalAtMost(tasks[1..], weight, if zero == 0 then |tasks| else zero - 1);
    }
  }

  lemma {:induction false} TotalZero(tasks: seq<Task>, weight: Phase -> nat)
    ensures Total(tasks, weight) == 0 <==> forall i | 0 <= i < |tasks| :: weight(tasks[i].phase) == 0
  {
    if tasks != [] {
      TotalZero(tasks[1..], weight);
      assert forall i | 0 < i < |tasks| :: tasks[i] == tasks[1..][i - 1];
      assert forall i | 0 <= i < |tasks[1..]| :: tasks[1..][i] == tasks[i + 1];
    }
  }

  /** How many updates of file p have been carried out. */
  function CompletedOn(tasks: seq<Task>, p: Path): nat {
    if tasks == [] then 0
    else (if tasks[0].path == p then Completed(tasks[0].phase) else 0) + CompletedOn(tasks[1..], p)
  }

  lemma {:induction false} CompletedOnEnter(tasks: seq<Task>, i: nat, phase: Phase, p: Path)
    requires i < |tasks|
    ensures tasks[i].path != p ==> CompletedOn(Enter(tasks, i, phase), p) == CompletedOn(tasks, p)
    ensures tasks[i].path == p ==>
              CompletedOn(Enter(tasks, i, phase), p) + Completed(tasks[i].phase)
              == CompletedOn(tasks, p) + Completed(phase)
  {
    if i == 0 {
      assert Enter(tasks, i, phase)[1..] == tasks[1..];
    } else {
      CompletedOnEnter(tasks[1..], i - 1, phase, p);
      assert Enter(tasks, i, phase)[1..] == Enter(tasks[1..], i - 1, phase);
    }
  }

  lemma {:induction false} CompletedOnBounds(tasks: seq<Task>, paths: seq<Path>, p: Path)
    requires |tasks| == |paths| && forall i | 0 <= i < |tasks| :: tasks[i].path == paths[i]
    ensures CompletedOn(tasks, p) <= multiset(paths)[p]
    ensures (forall i | 0 <= i < |tasks| :: Completed(tasks[i].phase) == 1) ==>
              CompletedOn(tasks, p) == multiset(paths)[p]
    ensures (forall i | 0 <= i < |tasks| :: Completed(tasks[i].phase) == 0) ==> CompletedOn(tasks, p) == 0
  {
    if tasks != [] {
      assert paths == [paths[0]] + paths[1..];
      CompletedOnBounds(tasks[1..], paths[1..], p);
    }
  }

  /* ---------- the invariant ---------- */

  /** `now` is what some number of undisturbed updates between lo and hi makes of `before`. */
  ghost predicate Within(req: Request, before: File, now: File, lo: nat, hi: nat) {
    exists j: nat | lo <= j <= hi :: now == Iterate(req, before, j)
  }

  predicate Updatable(cfg: Config, p: Path) {
    UpdatableIn(cfg.req, cfg.original, p)
  }

  predicate Shape(cfg: Config, s: State) {
    && |s.tasks| == |cfg.paths|
    && s.spawned <= |s.tasks|
    && (forall i | 0 <= i < |s.tasks| :: s.tasks[i].path == cfg.paths[i])
    && (forall i | 0 <= i < |s.tasks| :: s.tasks[i].phase.Unspawned? <==> i >= s.spawned)
  }

  ghost predicate Counted(s: State) {
    && s.sem == Total(s.tasks, HoldsSlot) && s.sem <= SLOTS
    && s.errChan == Total(s.tasks, Reported)
    && (!s.verdict.Pending? ==> AllEnded(s.tasks))
    && (s.verdict.Passed? ==> s.errChan == 0)
    && (s.verdict.Refused? ==> s.errChan > 0)
  }

  ghost predicate TaskTracked(cfg: Config, s: State, t: Task) {
    && (t.phase.HasRead? ==>
          && t.path in cfg.original
          && Within(cfg.req, cfg.original[t.path], t.phase.content, 0, CompletedOn(s.tasks, t.path)))
    && (Completed(t.phase) == 1 ==> Updatable(cfg, t.path))
    && (HasFailed(t.phase) ==> !Updatable(cfg, t.path))
  }

  ghost predicate FileTracked(cfg: Config, s: State, p: Path)
    requires p in cfg.original && p in s.files
  {
    && (p !in cfg.paths ==> s.files[p] == cfg.original[p])
    && Within(cfg.req, cfg.original[p], s.files[p],
              if CompletedOn(s.tasks, p) > 0 then 1 else 0, CompletedOn(s.tasks, p))
  }

  ghost predicate Tracked(cfg: Config, s: State) {
    && s.files.Keys == cfg.original.Keys
    && (forall p | p in cfg.original :: FileTracked(cfg, s, p))
    && (forall i | 0 <= i < |s.tasks| :: TaskTracked(cfg, s, s.tasks[i]))
  }

  /** An I/O fault always ends in a report. */
  predicate FaultShows(s: State) {
    s.ioFault ==> exists i | 0 <= i < |s.tasks| :: HasFailed(s.tasks[i].phase)
  }

  ghost predicate Inv(cfg: Config, s: State) {
    Shape(cfg, s) && Counted(s) && FaultShows(s) && (!s.ioFault ==> Tracked(cfg, s))
  }

  lemma InitInv(cfg: Config)
    ensures Inv(cfg, Init(cfg))
  {
    var s := Init(cfg);
    TotalZero(s.tasks, HoldsSlot);
    TotalZero(s.tasks, Reported);
    forall p | p in cfg.original ensures FileTracked(cfg, s, p) {
      CompletedOnBounds(s.tasks, cfg.paths, p);
      assert s.files[p] == Iterate(cfg.req, cfg.original[p], 0);
    }
  }

  /** The goroutine a step belongs to. */
  function Mover(s: State, step: Step): nat
    requires !step.Join?
  {
    if step.Spawn? then s.spawned else step.i
  }

  lemma StepEnters(cfg: Config, s: State, step: Step)
    requires Shape(cfg, s) && Enabled(cfg, s, step) && !step.Join?
    ensures Mover(s, step) < |s.tasks|
    ensures var s', i := Apply(cfg, s, step), Mover(s, step);
            |s'.tasks| == |s.tasks| && s'.tasks == Enter(s.tasks, i, s'.tasks[i].phase)
  {
  }

  lemma StepKeepsShape(cfg: Config, s: State, step: Step)
    requires Shape(cfg, s) && Enabled(cfg, s, step)
    ensures Shape(cfg, Apply(cfg, s, step))
  {
    if !step.Join? {
      StepEnters(cfg, s, step);
    }
  }

  /** The two counters change as the moving goroutine does. */
  lemma MoverCounts(cfg: Config, s: State, step: Step)
    requires Shape(cfg, s) && Enabled(cfg, s, step) && !step.Join?
    ensures var s', i := Apply(cfg, s, step), Mover(s, step);
            && i < |s.tasks| == |s'.tasks| && s'.verdict == s.verdict && !s.tasks[i].phase.Ended?
            && s'.sem + HoldsSlot(s.tasks[i].phase) == s.sem + HoldsSlot(s'.tasks[i].phase)
            && s'.errChan + Reported(s.tasks[i].phase) == s.errChan + Reported(s'.tasks[i].phase)
            && (s.sem <= SLOTS ==> s'.sem <= SLOTS)
  {
  }

  lemma StepKeepsCounted(cfg: Config, s: State, step: Step)
    requires Shape(cfg, s) && Counted(s) && Enabled(cfg, s, step)
    ensures Counted(Apply(cfg, s, step))
  {
    if !step.Join? {
      var s', i := Apply(cfg, s, step), Mover(s, step);
      MoverCounts(cfg, s, step);
      StepEnters(cfg, s, step);
      TotalEnter(s.tasks, i, s'.tasks[i].phase, HoldsSlot);
      TotalEnter(s.tasks, i, s'.tasks[i].phase, Reported);
    }
  }

  lemma WithinWiden(req: Request, before: File, now: File, lo: nat, hi: nat, lo': nat, hi': nat)
    requires Within(req, before, now, lo, hi) && lo' <= lo && hi <= hi'
    ensures Within(req, before, now, lo', hi')
  {
    var j: nat :| lo <= j <= hi && now == Iterate(req, before, j);
    assert lo' <= j <= hi';
  }

  /** Moving task i between phases that count the same for CompletedOn keeps everything tracked. */
  lemma QuietMove(cfg: Config, s: State, i: nat, phase: Phase)
    requires Tracked(cfg, s) && i < |s.tasks| && Completed(phase) == Completed(s.tasks[i].phase)
    requires TaskTracked(cfg, s, Task(s.tasks[i].path, phase))
    ensures Tracked(cfg, s.(tasks := Enter(s.tasks, i, phase)))
  {
    var s' := s.(tasks := Enter(s.tasks, i, phase));
    forall p ensures CompletedOn(s'.tasks, p) == CompletedOn(s.tasks, p) {
      CompletedOnEnter(s.tasks, i, phase, p);
    }
    forall p | p in cfg.original ensures FileTracked(cfg, s', p) {
      assert FileTracked(cfg, s, p);
    }
    forall j | 0 <= j < |s'.tasks| ensures TaskTracked(cfg, s', s'.tasks[j]) {
      assert TaskTracked(cfg, s, s.tasks[j]);
    }
  }

  /** More completions of its path leave a goroutine tracked. */
  lemma TaskStaysTracked(cfg: Config, s: State, s': State, t: Task)
    requires TaskTracked(cfg, s, t) && CompletedOn(s.tasks, t.path) <= CompletedOn(s'.tasks, t.path)
    ensures TaskTracked(cfg, s', t)
  {
    if t.phase.HasRead? {
      WithinWiden(cfg.req, cfg.original[t.path], t.phase.content,
                  0, CompletedOn(s.tasks, t.path), 0, CompletedOn(s'.tasks, t.path));
    }
  }

  /** Task i completes, leaving `file` in place of whatever its file held. */
  lemma CompletingMove(cfg: Config, s: State, i: nat, file: File)
    requires Shape(cfg, s) && Tracked(cfg, s) && i < |s.tasks|
    requires Completed(s.tasks[i].phase) == 0 && Updatable(cfg, s.tasks[i].path)
    requires var path := s.tasks[i].path; Within(cfg.req, cfg.original[path], file, 1, CompletedOn(s.tasks, path) + 1)
    ensures Tracked(cfg, s.(tasks := Enter(s.tasks, i, Leaving(true)), files := s.files[s.tasks[i].path := file]))
  {
    var path := s.tasks[i].path;
    var s' := s.(tasks := Enter(s.tasks, i, Leaving(true)), files := s.files[path := file]);
    forall p ensures CompletedOn(s'.tasks, p) == CompletedOn(s.tasks, p) + if p == path then 1 else 0 {
      CompletedOnEnter(s.tasks, i, Leaving(true), p);
    }
    assert path == cfg.paths[i];
    forall p | p in cfg.original ensures FileTracked(cfg, s', p) {
      assert FileTracked(cfg, s, p);
    }
    forall j | 0 <= j < |s'.tasks| ensures TaskTracked(cfg, s', s'.tasks[j]) {
      if j != i {
        TaskStaysTracked(cfg, s, s', s.tasks[j]);
      }
    }
  }

  /** What a goroutine writes is one update more than what it read. */
  lemma WriteCounts(req: Request, before: File, content: File, j: nat, done: nat)
    requires content == Iterate(req, before, j) && j <= done && Decide(req, content).Write?
    ensures Within(req, before, Decide(req, content).file, 1, done + 1)
  {
    assert Decide(req, content).file == Iterate(req, before, j + 1);
  }

  /** Finding nothing to do counts as an update that changes nothing. */
  lemma LeaveCounts(req: Request, before: File, content: File, now: File, j: nat, done: nat)
    requires content == Iterate(req, before, j) && j <= done && Decide(req, content).Leave?
    requires Within(req, before, now, if done > 0 then 1 else 0, done)
    ensures Within(req, before, now, 1, done + 1)
  {
    if done == 0 {
      assert now == content == before == Iterate(req, before, 0);
      assert now == Iterate(req, before, 1);
    } else {
      WithinWiden(req, before, now, 1, done, 1, done + 1);
    }
  }

  /** What a goroutine has read is the original after some of the updates completed so far. */
  lemma ContentHistory(cfg: Config, s: State, t: Task) returns (j: nat)
    requires TaskTracked(cfg, s, t) && t.phase.HasRead?
    ensures t.path in cfg.original && j <= CompletedOn(s.tasks, t.path)
    ensures t.phase.content == Iterate(cfg.req, cfg.original[t.path], j)
    ensures Updatable(cfg, t.path) <==> !Decide(cfg.req, t.phase.content).Fail?
  {
    j :| j <= CompletedOn(s.tasks, t.path) && t.phase.content == Iterate(cfg.req, cfg.original[t.path], j);
    FailureIsStable(cfg.req, cfg.original[t.path], j);
  }

  lemma FinishKeepsTracked(cfg: Config, s: State, i: nat)
    requires Shape(cfg, s) && Tracked(cfg, s) && Enabled(cfg, s, Finish(i))
    ensures Tracked(cfg, Apply(cfg, s, Finish(i)))
  {
    var t, done := s.tasks[i], CompletedOn(s.tasks, s.tasks[i].path);
    assert TaskTracked(cfg, s, t);
    var j := ContentHistory(cfg, s, t);
    var before := cfg.original[t.path];
    match Decide(cfg.req, t.phase.content)
    case Fail(_) => QuietMove(cfg, s, i, Reporting);
    case Write(file) =>
      WriteCounts(cfg.req, before, t.phase.content, j, done);
      CompletingMove(cfg, s, i, file);
    case Leave =>
      assert FileTracked(cfg, s, t.path);
      LeaveCounts(cfg.req, before, t.phase.content, s.files[t.path], j, done);
      CompletingMove(cfg, s, i, s.files[t.path]);
      assert s.files[t.path := s.files[t.path]] == s.files;
  }

  lemma ReadKeepsTracked(cfg: Config, s: State, i: nat)
    requires Tracked(cfg, s) && Enabled(cfg, s, Read(i))
    ensures Tracked(cfg, Apply(cfg, s, Read(i)))
  {
    var path := s.tasks[i].path;
    var done := CompletedOn(s.tasks, path);
    assert FileTracked(cfg, s, path);
    WithinWiden(cfg.req, cfg.original[path], s.files[path], if done > 0 then 1 else 0, done, 0, done);
    QuietMove(cfg, s, i, HasRead(s.files[path]));
  }

  /** What is tracked depends on the files and the goroutines alone. */
  lemma TrackedFrame(cfg: Config, s: State, s': State)
    requires Tracked(cfg, s) && s'.files == s.files && s'.tasks == s.tasks
    ensures Tracked(cfg, s')
  {
    assert forall p | p in cfg.original :: FileTracked(cfg, s, p) ==> FileTracked(cfg, s', p);
    assert forall j | 0 <= j < |s.tasks| :: TaskTracked(cfg, s, s.tasks[j]) ==> TaskTracked(cfg, s', s'.tasks[j]);
  }

  /** The steps that neither read nor write. */
  lemma QuietStep(cfg: Config, s: State, step: Step)
    requires Shape(cfg, s) && Tracked(cfg, s) && Enabled(cfg, s, step) && !Apply(cfg, s, step).ioFault
    requires !step.Finish? && !step.Read? && !step.Join?
    ensures Mover(s, step) < |s.tasks|
    ensures var i, s' := Mover(s, step), Apply(cfg, s, step);
            && s'.files == s.files && |s'.tasks| == |s.tasks| && s'.tasks == Enter(s.tasks, i, s'.tasks[i].phase)
            && Completed(s'.tasks[i].phase) == Completed(s.tasks[i].phase)
            && TaskTracked(cfg, s, Task(s.tasks[i].path, s'.tasks[i].phase))
  {
    StepEnters(cfg, s, step);
    assert TaskTracked(cfg, s, s.tasks[Mover(s, step)]);
  }

  lemma StepKeepsTracked(cfg: Config, s: State, step: Step)
    requires Shape(cfg, s) && Tracked(cfg, s) && Enabled(cfg, s, step) && !Apply(cfg, s, step).ioFault
    ensures Tracked(cfg, Apply(cfg, s, step))
  {
    if step.Finish? {
      FinishKeepsTracked(cfg, s, step.i);
    } else if step.Read? {
      ReadKeepsTracked(cfg, s, step.i);
    } else if step.Join? {
      TrackedFrame(cfg, s, Apply(cfg, s, step));
    } else {
      var s', i := Apply(cfg, s, step), Mover(s, step);
      QuietStep(cfg, s, step);
      QuietMove(cfg, s, i, s'.tasks[i].phase);
      TrackedFrame(cfg, s.(tasks := s'.tasks), s');
    }
  }

  /** A failed update stays failed. */
  lemma FailureStays(cfg: Config, s: State, step: Step, k: nat)
    requires Shape(cfg, s) && Enabled(cfg, s, step) && k < |s.tasks| && HasFailed(s.tasks[k].phase)
    ensures var after := Apply(cfg, s, step).tasks; k < |after| && HasFailed(after[k].phase)
  {
  }

  /** One failed update, and the handler cannot see an empty error channel. */
  lemma FailureIsSeen(s: State, k: nat)
    requires Counted(s) && k < |s.tasks| && HasFailed(s.tasks[k].phase)
    ensures !s.verdict.Passed?
  {
    TotalZero(s.tasks, Reported);
  }

  lemma StepKeepsFaultShows(cfg: Config, s: State, step: Step)
    requires Shape(cfg, s) && FaultShows(s) && Enabled(cfg, s, step)
    ensures FaultShows(Apply(cfg, s, step))
  {
    var s' := Apply(cfg, s, step);
    if s'.ioFault {
      if s.ioFault {
        var k :| 0 <= k < |s.tasks| && HasFailed(s.tasks[k].phase);
        FailureStays(cfg, s, step, k);
      } else {
        assert HasFailed(s'.tasks[step.i].phase);
      }
    }
  }

  lemma StepKeepsInv(cfg: Config, s: State, step: Step)
    requires Inv(cfg, s) && Enabled(cfg, s, step)
    ensures Inv(cfg, Apply(cfg, s, step))
  {
    StepKeepsShape(cfg, s, step);
    StepKeepsCounted(cfg, s, step);
    StepKeepsFaultShows(cfg, s, step);
    if !Apply(cfg, s, step).ioFault {
      StepKeepsTracked(cfg, s, step);
    }
  }
}
