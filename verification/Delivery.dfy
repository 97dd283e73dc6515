/** The whole feedback: the quota loop on the workload side and the concurrent handlers on the management side
    run together, and a request reaches git when a handler pushes it. The file of the ResourceQuota on the
    branch then obeys every law of the loop. */
module Delivery {
  import opened Manifests
  import opened Options
  import FanOut
  import FanOutRuns
  import P = Publish
  import PublishRuns
  import Q = QuotaLoop
  import QuotaLoopRuns

  function FileHard(file: File): Option<map<string, int>> {
    if file != [] && file[0].Document? && file[0].spec.Some? then Some(file[0].spec.value.hard) else None
  }

  /** spec.hard in the file at p. */
  function HardOf(tree: Tree, p: Path): Option<map<string, int>> {
    if p in tree then FileHard(tree[p]) else None
  }

  /* ---------- what a push does to spec.hard of one file ---------- */

  lemma {:induction false} ScalingKeepsHard(maxNodes: int, file: File, times: nat)
    ensures FileHard(Iterate(AddReplica(maxNodes), file, times)) == FileHard(file)
  {
    if times > 0 {
      ScalingKeepsHard(maxNodes, file, times - 1);
    }
  }

  /** A commit leaves spec.hard of p alone unless it posts a quota and its scan returned p; then it puts
      the posted map there. */
  lemma CommitOnHard(o: P.Posted, before: Tree, paths: seq<Path>, after: Tree, p: Path)
    requires P.Genuine(o, before, paths, after)
    ensures HardOf(after, p) == if o.PostedQuota? && p in paths then Some(o.hard) else HardOf(before, p)
  {
    if o.PostedQuota? {
      FanOutRuns.QuotaRewriteIsApplied(o.hard, paths, before, after);
    } else if p in paths {
      var j: nat :| 1 <= j <= multiset(paths)[p] && after[p] == Iterate(P.RequestOf(o), before[p], j);
      ScalingKeepsHard(o.maxNodes, before[p], j);
    }
  }

  /** The step is an accepted push of a quota whose scan returned p. */
  ghost predicate Delivers(cfg: P.Config, s: P.State, step: P.Step, p: Path)
    requires P.Enabled(cfg, s, step)
  {
    && step.Push? && s.handlers[step.h].base == |s.history| - 1
    && cfg.posted[step.h].PostedQuota? && p in s.handlers[step.h].paths
  }

  /** Every other step of the server leaves spec.hard of p on the branch alone: clones, scans, fan-outs, refused
      pushes, node scalings, and quotas for other objects. */
  lemma StepOnHard(cfg: P.Config, s: P.State, step: P.Step, p: Path)
    requires P.Inv(cfg, s) && P.Enabled(cfg, s, step)
    ensures var s' := P.Apply(cfg, s, step);
            && s'.history != []
            && (s'.history == s.history
                || (|s'.history| == |s.history| + 1 && s.history <= s'.history))
            && HardOf(P.Tip(s'), p)
               == if Delivers(cfg, s, step, p) then Some(cfg.posted[step.h].hard) else HardOf(P.Tip(s), p)
  {
    assert P.HandlerOk(cfg, s, step.h);
    if step.Push? && s.handlers[step.h].base == |s.history| - 1 {
      CommitOnHard(cfg.posted[step.h], P.Tip(s), s.handlers[step.h].paths, s.handlers[step.h].tree, p);
    }
  }

  /* ---------- quotas for other objects ---------- */

  /** The first documents are the same object: kind, name and namespace. */
  predicate SameObject(a: File, b: File) {
    a != [] && a[0].Document? ==>
      && b != [] && b[0].Document?
      && b[0].kind == a[0].kind && b[0].name == a[0].name && b[0].namespace == a[0].namespace
  }

  lemma {:induction false} UpdatesKeepObject(req: Request, file: File, times: nat)
    ensures SameObject(file, Iterate(req, file, times))
  {
    if times > 0 {
      UpdatesKeepObject(req, file, times - 1);
    }
  }

  lemma CommitKeepsObject(o: P.Posted, before: Tree, paths: seq<Path>, after: Tree, p: Path)
    requires P.Genuine(o, before, paths, after) && p in before
    ensures p in after && SameObject(before[p], after[p])
  {
    if p in paths {
      var j: nat :| 1 <= j <= multiset(paths)[p] && after[p] == Iterate(P.RequestOf(o), before[p], j);
      UpdatesKeepObject(P.RequestOf(o), before[p], j);
    }
  }

  lemma {:induction false} HistoryKeepsObject(cfg: P.Config, history: seq<P.Commit>, p: Path, n: nat)
    requires P.GenuineHistory(cfg, history) && n < |history| && p in cfg.initial
    ensures p in history[n].tree && SameObject(cfg.initial[p], history[n].tree[p])
  {
    if n > 0 {
      HistoryKeepsObject(cfg, history, p, n - 1);
      var c := history[n];
      CommitKeepsObject(cfg.posted[c.author], history[n - 1].tree, c.paths, c.tree, p);
    }
  }

  lemma ForeignFileIsNotListed(o: P.Posted, tree: Tree, paths: seq<Path>, p: Path)
    requires P.MayReturn(o, tree, paths) && p in tree && |tree[p]| == 1 && !P.Wanted(o, tree[p][0])
    ensures p !in paths
  {
    P.ScanFindsWanted(o, tree, paths);
    assert forall d | d in tree[p] :: d == tree[p][0];
    assert p in paths ==> P.HasWanted(o, tree, p);
  }

  lemma ForeignQuotaNotInCommit(cfg: P.Config, history: seq<P.Commit>, base: nat, h: nat, paths: seq<Path>, p: Path)
    requires P.GenuineHistory(cfg, history) && P.SingleDocuments(cfg.initial) && base < |history| && h < |cfg.posted|
    requires p in cfg.initial && cfg.initial[p] != [] && cfg.initial[p][0].Document?
    requires !P.Wanted(cfg.posted[h], cfg.initial[p][0]) && P.MayReturn(cfg.posted[h], history[base].tree, paths)
    ensures p !in paths
  {
    PublishRuns.PrefixIsReplay(cfg, history, base + 1);
    HistoryKeepsObject(cfg, history, p, base);
    ForeignFileIsNotListed(cfg.posted[h], history[base].tree, paths, p);
  }

  /** Over single-document files a quota of another kind, name or namespace never touches this one, however
      often the file was rewritten since. */
  lemma ForeignQuotaNeverDelivers(cfg: P.Config, s: P.State, step: P.Step, p: Path)
    requires P.Reachable(cfg, s) && P.Enabled(cfg, s, step) && P.SingleDocuments(cfg.initial)
    requires p in cfg.initial && cfg.initial[p] != [] && cfg.initial[p][0].Document?
    requires !P.Wanted(cfg.posted[step.h], cfg.initial[p][0])
    ensures !Delivers(cfg, s, step, p)
  {
    P.ReachableInv(cfg, s);
    P.HistoryIsGenuine(cfg, s);
    if step.Push? {
      assert P.HandlerOk(cfg, s, step.h);
      var handler := s.handlers[step.h];
      ForeignQuotaNotInCommit(cfg, s.history, handler.base, step.h, handler.paths, p);
    }
  }

  /* ---------- both sides together ---------- */

  datatype Config = Config(server: P.Config, loop: Q.Config, file: Path)

  datatype State = State(server: P.State, loop: Q.State)

  /** `i` names the request that a delivering push carries. */
  datatype Step = Loop(inner: Q.Step) | Server(step: P.Step, i: nat)

  function Init(cfg: Config, start: int): State {
    State(P.Init(cfg.server), Q.Init(cfg.loop, start))
  }

  /** Each quota posted for this file comes from a trigger of the loop, and the loop has no other way to git. */
  ghost predicate Enabled(cfg: Config, s: State, step: Step) {
    match step
    case Loop(inner) => !inner.Deliver? && Q.Enabled(cfg.loop, s.loop, inner)
    case Server(inner, i) =>
      && P.Enabled(cfg.server, s.server, inner)
      && (Delivers(cfg.server, s.server, inner, cfg.file) ==>
            Q.Enabled(cfg.loop, s.loop, Q.Deliver(i)) && s.loop.requests[i].hard == cfg.server.posted[inner.h].hard)
  }

  /** What the loop sees of a step. */
  ghost predicate LoopMoves(cfg: Config, s: State, step: Step)
    requires Enabled(cfg, s, step)
  {
    step.Loop? || Delivers(cfg.server, s.server, step.step, cfg.file)
  }

  function LoopStep(step: Step): Q.Step {
    if step.Loop? then step.inner else Q.Deliver(step.i)
  }

  ghost function Apply(cfg: Config, s: State, step: Step): State
    requires Enabled(cfg, s, step)
  {
    State(
      if step.Server? then P.Apply(cfg.server, s.server, step.step) else s.server,
      if LoopMoves(cfg, s, step) then Q.Apply(cfg.loop, s.loop, LoopStep(step)) else s.loop)
  }

  ghost predicate Legal(cfg: Config, s: State, steps: seq<Step>)
    decreases |steps|
  {
    steps == [] || (Enabled(cfg, s, steps[0]) && Legal(cfg, Apply(cfg, s, steps[0]), steps[1..]))
  }

  ghost function After(cfg: Config, s: State, steps: seq<Step>): State
    requires Legal(cfg, s, steps)
    decreases |steps|
  {
    if steps == [] then s else After(cfg, Apply(cfg, s, steps[0]), steps[1..])
  }

  /** The branch and the loop agree on spec.hard of the file. */
  ghost predicate Linked(cfg: Config, s: State) {
    P.Inv(cfg.server, s.server) && HardOf(P.Tip(s.server), cfg.file) == Some(s.loop.git)
  }

  /** Step simulation: a delivering push is the loop's Deliver, any other step of the server is a stutter. */
  lemma StepKeepsLinked(cfg: Config, s: State, step: Step)
    requires Linked(cfg, s) && Enabled(cfg, s, step)
    ensures Linked(cfg, Apply(cfg, s, step))
  {
    if step.Server? {
      P.StepKeepsInv(cfg.server, s.server, step.step);
      StepOnHard(cfg.server, s.server, step.step, cfg.file);
    }
  }

  /* ---------- growth of the file in git ---------- */

  ghost predicate TipsLevelled(cfg: Config, s: State) {
    forall v | 0 <= v < |s.server.history| ::
      && HardOf(s.server.history[v].tree, cfg.file).Some?
      && Q.AtMostLevel(cfg.loop, HardOf(s.server.history[v].tree, cfg.file).value, Q.Used(s.loop))
  }

  ghost predicate Inv(cfg: Config, s: State) {
    Linked(cfg, s) && Q.Inv(cfg.loop, s.loop) && TipsLevelled(cfg, s)
  }

  lemma LoopStepKeepsInv(cfg: Config, s: State, step: Step)
    requires Q.Inv(cfg.loop, s.loop) && Enabled(cfg, s, step)
    ensures var s' := Apply(cfg, s, step); Q.Inv(cfg.loop, s'.loop) && Q.Used(s.loop) <= Q.Used(s'.loop)
  {
    if LoopMoves(cfg, s, step) {
      Q.UsedGrows(cfg.loop, s.loop, LoopStep(step));
      Q.KeepsLevelled(cfg.loop, s.loop, LoopStep(step));
      Q.KeepsPaced(cfg.loop, s.loop, LoopStep(step));
    }
  }

  lemma StepKeepsTipsLevelled(cfg: Config, s: State, step: Step)
    requires Inv(cfg, s) && Enabled(cfg, s, step)
    requires Linked(cfg, Apply(cfg, s, step)) && Q.Inv(cfg.loop, Apply(cfg, s, step).loop)
    requires Q.Used(s.loop) <= Q.Used(Apply(cfg, s, step).loop)
    ensures TipsLevelled(cfg, Apply(cfg, s, step))
  {
    var s' := Apply(cfg, s, step);
    if step.Server? {
      StepOnHard(cfg.server, s.server, step.step, cfg.file);
    }
    forall v | 0 <= v < |s'.server.history|
      ensures HardOf(s'.server.history[v].tree, cfg.file).Some?
      ensures Q.AtMostLevel(cfg.loop, HardOf(s'.server.history[v].tree, cfg.file).value, Q.Used(s'.loop))
    {
      if v < |s.server.history| {
        assert s'.server.history[v] == s.server.history[v];
        Q.Raise(cfg.loop, HardOf(s.server.history[v].tree, cfg.file).value, Q.Used(s.loop), Q.Used(s'.loop));
      }
    }
  }

  lemma {:induction false} RunKeepsInv(cfg: Config, s: State, steps: seq<Step>)
    requires Inv(cfg, s) && Legal(cfg, s, steps)
    ensures Inv(cfg, After(cfg, s, steps))
    decreases |steps|
  {
    if steps != [] {
      StepKeepsLinked(cfg, s, steps[0]);
      LoopStepKeepsInv(cfg, s, steps[0]);
      StepKeepsTipsLevelled(cfg, s, steps[0]);
      RunKeepsInv(cfg, Apply(cfg, s, steps[0]), steps[1..]);
    }
  }

  lemma InitInv(cfg: Config, start: int)
    requires HardOf(cfg.server.initial, cfg.file) == Some(cfg.loop.initial)
    ensures Inv(cfg, Init(cfg, start))
  {
    assert cfg.loop.initial == Q.Level(cfg.loop, 0);
  }

  /** End to end: whatever handlers, node scalings, quotas of other objects, triggers, delays and syncs do, every
      tip the branch ever had holds in this file the initial quota raised by at most as many steps as there
      were grants, of which there is at most one per minute started since the first. */
  lemma BranchGrowth(cfg: Config, start: int, steps: seq<Step>)
    requires HardOf(cfg.server.initial, cfg.file) == Some(cfg.loop.initial)
    requires Legal(cfg, Init(cfg, start), steps)
    ensures var s := After(cfg, Init(cfg, start), steps);
            && (forall v | 0 <= v < |s.server.history| ::
                  && HardOf(s.server.history[v].tree, cfg.file).Some?
                  && Q.AtMostLevel(cfg.loop, HardOf(s.server.history[v].tree, cfg.file).value, s.loop.grants))
            && (s.loop.grants > 0 ==> s.loop.grants <= 1 + (s.loop.now - s.loop.firstGrant) / Q.MINUTE)
  {
    InitInv(cfg, start);
    RunKeepsInv(cfg, Init(cfg, start), steps);
    var s := After(cfg, Init(cfg, start), steps);
    Q.InvBound(cfg.loop, s.loop);
    forall v | 0 <= v < |s.server.history|
      ensures Q.AtMostLevel(cfg.loop, HardOf(s.server.history[v].tree, cfg.file).value, s.loop.grants)
    {
      Q.Raise(cfg.loop, HardOf(s.server.history[v].tree, cfg.file).value, Q.Used(s.loop), s.loop.grants);
    }
  }

  /* ---------- timely runs: the file never falls ---------- */

  /** No request reaches the age `delay` before it is pushed or dropped, and no read lags more than `lag` versions. */
  ghost predicate TimelyRun(cfg: Config, s: State, steps: seq<Step>, delay: int, lag: nat)
    decreases |steps|
  {
    && QuotaLoopRuns.Timely(s.loop, delay)
    && (steps == [] || (&& Enabled(cfg, s, steps[0])
                        && (steps[0].Loop? ==> QuotaLoopRuns.Fresh(s.loop, steps[0].inner, lag))
                        && TimelyRun(cfg, Apply(cfg, s, steps[0]), steps[1..], delay, lag)))
  }

  function Limit(tree: Tree, p: Path, key: string): int {
    if HardOf(tree, p).Some? then Q.Get(HardOf(tree, p).value, key) else 0
  }

  /** No push so far lowered the limit in the file. */
  ghost predicate Rising(cfg: Config, s: State, key: string) {
    forall v | 1 <= v < |s.server.history| ::
      Limit(s.server.history[v - 1].tree, cfg.file, key) <= Limit(s.server.history[v].tree, cfg.file, key)
  }

  ghost predicate InStep(cfg: Config, s: State) {
    Linked(cfg, s) && Q.Paced(cfg.loop, s.loop) && QuotaLoopRuns.InStep(cfg.loop, s.loop)
  }

  /** One more commit, or none, that does not lower the limit. */
  lemma StaysRising(cfg: Config, s: State, s': State, key: string)
    requires Rising(cfg, s, key) && s.server.history != [] && s'.server.history != []
    requires s'.server.history == s.server.history
             || (|s'.server.history| == |s.server.history| + 1 && s.server.history <= s'.server.history)
    requires Limit(P.Tip(s.server), cfg.file, key) <= Limit(P.Tip(s'.server), cfg.file, key)
    ensures Rising(cfg, s', key)
  {
    forall v | 1 <= v < |s'.server.history|
      ensures Limit(s'.server.history[v - 1].tree, cfg.file, key) <= Limit(s'.server.history[v].tree, cfg.file, key)
    {
      assert s'.server.history[v - 1] == s.server.history[v - 1];
      if v < |s.server.history| {
        assert s'.server.history[v] == s.server.history[v];
      }
    }
  }

  lemma LoopStepInStep(cfg: Config, s: State, step: Step, key: string)
    requires InStep(cfg, s) && QuotaLoopRuns.Timely(s.loop, Q.MINUTE) && Enabled(cfg, s, step)
    requires step.Loop? ==> QuotaLoopRuns.Fresh(s.loop, step.inner, 0)
    requires QuotaLoopRuns.IsLimit(key) && QuotaLoopRuns.StepOf(cfg.loop, key) >= 0
    ensures InStep(cfg, Apply(cfg, s, step))
    ensures Q.Get(s.loop.git, key) <= Q.Get(Apply(cfg, s, step).loop.git, key)
  {
    StepKeepsLinked(cfg, s, step);
    if LoopMoves(cfg, s, step) {
      QuotaLoopRuns.TimelyStep(cfg.loop, s.loop, LoopStep(step));
      Q.BumpValues(cfg.loop, s.loop.git);
    }
  }

  lemma TimelyStep(cfg: Config, s: State, step: Step, key: string)
    requires InStep(cfg, s) && Rising(cfg, s, key) && QuotaLoopRuns.Timely(s.loop, Q.MINUTE) && Enabled(cfg, s, step)
    requires step.Loop? ==> QuotaLoopRuns.Fresh(s.loop, step.inner, 0)
    requires QuotaLoopRuns.IsLimit(key) && QuotaLoopRuns.StepOf(cfg.loop, key) >= 0
    ensures InStep(cfg, Apply(cfg, s, step)) && Rising(cfg, Apply(cfg, s, step), key)
  {
    LoopStepInStep(cfg, s, step, key);
    if step.Server? {
      StepOnHard(cfg.server, s.server, step.step, cfg.file);
    }
    StaysRising(cfg, s, Apply(cfg, s, step), key);
  }

  lemma {:induction false} TimelyRunRises(cfg: Config, s: State, steps: seq<Step>, key: string)
    requires InStep(cfg, s) && Rising(cfg, s, key) && TimelyRun(cfg, s, steps, Q.MINUTE, 0)
    requires QuotaLoopRuns.IsLimit(key) && QuotaLoopRuns.StepOf(cfg.loop, key) >= 0
    ensures Legal(cfg, s, steps) && Rising(cfg, After(cfg, s, steps), key)
    ensures InStep(cfg, After(cfg, s, steps))
    decreases |steps|
  {
    if steps != [] {
      TimelyStep(cfg, s, steps[0], key);
      TimelyRunRises(cfg, Apply(cfg, s, steps[0]), steps[1..], key);
    }
  }

  /** End to end, when every request is over within its minute and reads are current: no push ever lowers the
      limit in the file, and the tip is the workload's value or one step ahead of it. */
  lemma BranchNeverFalls(cfg: Config, start: int, steps: seq<Step>, key: string)
    requires HardOf(cfg.server.initial, cfg.file) == Some(cfg.loop.initial)
    requires TimelyRun(cfg, Init(cfg, start), steps, Q.MINUTE, 0)
    requires QuotaLoopRuns.IsLimit(key) && QuotaLoopRuns.StepOf(cfg.loop, key) >= 0
    ensures Legal(cfg, Init(cfg, start), steps) && Rising(cfg, After(cfg, Init(cfg, start), steps), key)
    ensures var s := After(cfg, Init(cfg, start), steps);
            && s.server.history != [] && s.loop.versions != [] && |s.loop.requests| <= 1
            && (HardOf(P.Tip(s.server), cfg.file) == Some(Q.Work(s.loop))
                || HardOf(P.Tip(s.server), cfg.file) == Some(Q.Bump(cfg.loop, Q.Work(s.loop))))
  {
    InitInv(cfg, start);
    TimelyRunRises(cfg, Init(cfg, start), steps, key);
  }
}
