/** What the feedback loop can do to the branch: every behaviour of the loop is realised by concurrent handlers, so
    what is true of git in the loop is true of the file on the branch, and what can go wrong there goes wrong
    here. */
module DeliveryReach {
  import opened Manifests
  import opened Options
  import FanOutRuns
  import P = Publish
  import R = PublishReach
  import Q = QuotaLoop
  import QuotaLoopRuns
  import ScannerRuns
  import opened Delivery

  /* ---------- one ResourceQuota in one file ---------- */

  datatype Object = Object(file: Path, name: string, namespace: string)

  function TreeOf(o: Object, hard: Q.Hard): Tree {
    map[o.file := [Document("ResourceQuota", o.name, o.namespace, Some(Spec(Missing, hard, 0)), 0)]]
  }

  function PostOf(o: Object, hard: Q.Hard): P.Posted {
    P.PostedQuota("ResourceQuota", o.name, o.namespace, hard)
  }

  lemma {:induction false} AllTheSame(paths: seq<Path>, p: Path)
    requires forall i | 0 <= i < |paths| :: paths[i] == p
    ensures multiset(paths)[p] == |paths|
  {
    if paths != [] {
      assert paths == [paths[0]] + paths[1..];
      AllTheSame(paths[1..], p);
    }
  }

  lemma OnlyOnce(paths: seq<Path>, p: Path)
    requires forall q :: multiset(paths)[q] == if q == p then 1 else 0
    ensures paths == [p]
  {
    forall i | 0 <= i < |paths| ensures paths[i] == p {
      assert paths[i] in multiset(paths);
    }
    AllTheSame(paths, p);
  }

  lemma SelectsIt(o: Object, hard: Q.Hard, posted: Q.Hard)
    ensures ScannerRuns.Selected(P.FilterOf(PostOf(o, posted)), TreeOf(o, hard)[o.file]) == 1
  {
    var docs := TreeOf(o, hard)[o.file];
    assert P.Wanted(PostOf(o, posted), docs[0]) && docs[1..] == [];
  }

  /** Its scan can return just the file. */
  lemma ScanOf(o: Object, hard: Q.Hard, posted: Q.Hard)
    requires P.IsYaml(o.file)
    ensures P.MayReturn(PostOf(o, posted), TreeOf(o, hard), [o.file])
  {
    var paths := R.WholeScanReturns(PostOf(o, posted), TreeOf(o, hard));
    SelectsIt(o, hard, posted);
    OnlyOnce(paths, o.file);
  }

  /** Its update replaces spec.hard. */
  lemma UpdateOf(o: Object, hard: Q.Hard, posted: Q.Hard)
    ensures ApplyAll(SetQuota(posted), [o.file], TreeOf(o, hard)) == TreeOf(o, posted)
    ensures AllUpdatableIn(SetQuota(posted), TreeOf(o, hard), [o.file])
  {
    ApplyAllLast(SetQuota(posted), [], o.file, TreeOf(o, hard));
    assert [] + [o.file] == [o.file];
  }

  /* ---------- timely runs of both sides ---------- */

  lemma TimelyCons(cfg: Config, s: State, step: Step, rest: seq<Step>, delay: int, lag: nat)
    requires QuotaLoopRuns.Timely(s.loop, delay) && Enabled(cfg, s, step)
    requires step.Loop? ==> QuotaLoopRuns.Fresh(s.loop, step.inner, lag)
    requires TimelyRun(cfg, Apply(cfg, s, step), rest, delay, lag) && Legal(cfg, Apply(cfg, s, step), rest)
    ensures TimelyRun(cfg, s, [step] + rest, delay, lag) && Legal(cfg, s, [step] + rest)
    ensures After(cfg, s, [step] + rest) == After(cfg, Apply(cfg, s, step), rest)
  {
    assert ([step] + rest)[1..] == rest;
  }

  lemma TimelyHead(cfg: Config, s: State, a: seq<Step>, b: seq<Step>, delay: int, lag: nat)
    requires a != [] && QuotaLoopRuns.Timely(s.loop, delay) && Enabled(cfg, s, a[0])
    requires a[0].Loop? ==> QuotaLoopRuns.Fresh(s.loop, a[0].inner, lag)
    requires var s1 := Apply(cfg, s, a[0]);
             TimelyRun(cfg, s1, a[1..] + b, delay, lag) && Legal(cfg, s1, a[1..] + b)
    ensures TimelyRun(cfg, s, a + b, delay, lag) && Legal(cfg, s, a + b)
    ensures After(cfg, s, a + b) == After(cfg, Apply(cfg, s, a[0]), a[1..] + b)
  {
    assert a + b == [a[0]] + (a[1..] + b);
    TimelyCons(cfg, s, a[0], a[1..] + b, delay, lag);
  }

  lemma {:induction false} TimelyThen(cfg: Config, s: State, a: seq<Step>, mid: State, b: seq<Step>,
                                      delay: int, lag: nat)
    requires TimelyRun(cfg, s, a, delay, lag) && Legal(cfg, s, a) && After(cfg, s, a) == mid
    requires TimelyRun(cfg, mid, b, delay, lag) && Legal(cfg, mid, b)
    ensures TimelyRun(cfg, s, a + b, delay, lag) && Legal(cfg, s, a + b)
    ensures After(cfg, s, a + b) == After(cfg, mid, b)
    decreases |a|
  {
    if a == [] {
      assert a + b == b;
    } else {
      TimelyThen(cfg, Apply(cfg, s, a[0]), a[1..], mid, b, delay, lag);
      TimelyHead(cfg, s, a, b, delay, lag);
    }
  }

  lemma QuietServerStep(cfg: Config, s: State, step: P.Step)
    requires P.Enabled(cfg.server, s.server, step) && !step.Push?
    ensures Enabled(cfg, s, Server(step, 0))
    ensures Apply(cfg, s, Server(step, 0)) == s.(server := P.Apply(cfg.server, s.server, step))
  {
  }

  /** A run of the server without a push takes no notice of the loop. */
  lemma {:induction false} QuietRun(cfg: Config, s: State, inner: seq<P.Step>, delay: int, lag: nat)
    returns (steps: seq<Step>)
    requires P.Legal(cfg.server, s.server, inner) && R.NoPush(inner) && QuotaLoopRuns.Timely(s.loop, delay)
    ensures TimelyRun(cfg, s, steps, delay, lag) && Legal(cfg, s, steps)
    ensures After(cfg, s, steps) == s.(server := P.After(cfg.server, s.server, inner))
    decreases |inner|
  {
    if inner == [] {
      steps := [];
    } else {
      var s1 := s.(server := P.Apply(cfg.server, s.server, inner[0]));
      QuietServerStep(cfg, s, inner[0]);
      var rest := QuietRun(cfg, s1, inner[1..], delay, lag);
      TimelyCons(cfg, s, Server(inner[0], 0), rest, delay, lag);
      steps := [Server(inner[0], 0)] + rest;
    }
  }

  /* ---------- realising the loop ---------- */

  /** The branch holds the one object as the loop sees git, and the handlers from `next` on are idle. */
  predicate Realised(cfg: Config, s: State, o: Object, next: nat) {
    && cfg.file == o.file && P.IsYaml(o.file)
    && |s.server.handlers| == |cfg.server.posted| && s.server.history != []
    && P.Tip(s.server) == TreeOf(o, s.loop.git)
    && forall k | next <= k < |s.server.handlers| :: s.server.handlers[k].Idle?
  }

  /** Handler h has carried request i into the branch. */
  function Delivered(cfg: Config, s: State, o: Object, h: nat, i: nat): State
    requires h < |s.server.handlers| && i < |s.loop.requests| && s.loop.requests[i].Sent?
  {
    State(R.Pushed(s.server, h, [o.file], TreeOf(o, s.loop.requests[i].hard)), Q.Apply(cfg.loop, s.loop, Q.Deliver(i)))
  }

  /** The handler gets ready to push. */
  lemma PrepareDelivery(cfg: Config, s: State, o: Object, h: nat, i: nat) returns (inner: seq<P.Step>)
    requires Realised(cfg, s, o, h) && h < |s.server.handlers|
    requires i < |s.loop.requests| && s.loop.requests[i].Sent?
    requires cfg.server.posted[h] == PostOf(o, s.loop.requests[i].hard)
    ensures P.Legal(cfg.server, s.server, inner) && R.NoPush(inner)
    ensures P.After(cfg.server, s.server, inner)
         == R.Ready(s.server, h, [o.file], TreeOf(o, s.loop.requests[i].hard))
  {
    var hard := s.loop.requests[i].hard;
    ScanOf(o, s.loop.git, hard);
    UpdateOf(o, s.loop.git, hard);
    var end := FanOutRuns.AllUpdatesCount(R.FanOf(cfg.server, s.server, h, [o.file]));
    inner := R.ReadyRun(cfg.server, s.server, h, [o.file], end);
  }

  lemma PushDelivers(cfg: Config, s: State, o: Object, h: nat, i: nat)
    requires Realised(cfg, s, o, h) && h < |s.server.handlers|
    requires i < |s.loop.requests| && s.loop.requests[i].Sent?
    requires cfg.server.posted[h] == PostOf(o, s.loop.requests[i].hard)
    ensures var ready := s.(server := R.Ready(s.server, h, [o.file], TreeOf(o, s.loop.requests[i].hard)));
            && Enabled(cfg, ready, Server(P.Push(h), i))
            && Apply(cfg, ready, Server(P.Push(h), i)) == Delivered(cfg, s, o, h, i)
  {
    R.PushStep(cfg.server, s.server, h, [o.file], TreeOf(o, s.loop.requests[i].hard));
  }

  lemma DeliverRun(cfg: Config, s: State, o: Object, h: nat, i: nat, delay: int, lag: nat) returns (steps: seq<Step>)
    requires Realised(cfg, s, o, h) && h < |s.server.handlers|
    requires i < |s.loop.requests| && s.loop.requests[i].Sent?
    requires cfg.server.posted[h] == PostOf(o, s.loop.requests[i].hard)
    requires QuotaLoopRuns.Timely(s.loop, delay)
    requires QuotaLoopRuns.Timely(Q.Apply(cfg.loop, s.loop, Q.Deliver(i)), delay)
    ensures TimelyRun(cfg, s, steps, delay, lag) && Legal(cfg, s, steps)
    ensures After(cfg, s, steps) == Delivered(cfg, s, o, h, i)
  {
    var inner := PrepareDelivery(cfg, s, o, h, i);
    var a := QuietRun(cfg, s, inner, delay, lag);
    var ready := After(cfg, s, a);
    PushDelivers(cfg, s, o, h, i);
    TimelyCons(cfg, ready, Server(P.Push(h), i), [], delay, lag);
    assert [Server(P.Push(h), i)] + [] == [Server(P.Push(h), i)];
    TimelyThen(cfg, s, a, ready, [Server(P.Push(h), i)], delay, lag);
    steps := a + [Server(P.Push(h), i)];
  }

  lemma DeliveredIsRealised(cfg: Config, s: State, o: Object, h: nat, i: nat)
    requires Realised(cfg, s, o, h) && h < |s.server.handlers|
    requires i < |s.loop.requests| && s.loop.requests[i].Sent?
    ensures Realised(cfg, Delivered(cfg, s, o, h, i), o, h + 1)
  {
  }

  /** The maps the loop delivers along a run, in order. */
  function Deliveries(loop: Q.Config, s: Q.State, steps: seq<Q.Step>): seq<Q.Hard>
    requires Q.Legal(loop, s, steps)
    decreases |steps|
  {
    if steps == [] then []
    else
      var first := if steps[0].Deliver? then [s.requests[steps[0].i].hard] else [];
      first + Deliveries(loop, Q.Apply(loop, s, steps[0]), steps[1..])
  }

  /** The handlers from `next` on are for these posts, in this order. */
  predicate Awaits(cfg: Config, o: Object, next: nat, hards: seq<Q.Hard>) {
    && next + |hards| <= |cfg.server.posted|
    && forall k | 0 <= k < |hards| :: cfg.server.posted[next + k] == PostOf(o, hards[k])
  }

  lemma LoopStepRun(cfg: Config, s: State, step: Q.Step, rest: seq<Step>, delay: int, lag: nat)
    requires Q.Enabled(cfg.loop, s.loop, step) && !step.Deliver? && QuotaLoopRuns.Fresh(s.loop, step, lag)
    requires QuotaLoopRuns.Timely(s.loop, delay)
    requires var s1 := s.(loop := Q.Apply(cfg.loop, s.loop, step));
             TimelyRun(cfg, s1, rest, delay, lag) && Legal(cfg, s1, rest)
    ensures TimelyRun(cfg, s, [Loop(step)] + rest, delay, lag) && Legal(cfg, s, [Loop(step)] + rest)
    ensures After(cfg, s, [Loop(step)] + rest) == After(cfg, s.(loop := Q.Apply(cfg.loop, s.loop, step)), rest)
  {
    assert Apply(cfg, s, Loop(step)) == s.(loop := Q.Apply(cfg.loop, s.loop, step));
    TimelyCons(cfg, s, Loop(step), rest, delay, lag);
  }

  /** Every timely run of the loop, realised by handlers that push what it delivers. */
  lemma {:induction false} Realise(cfg: Config, s: State, o: Object, next: nat, inner: seq<Q.Step>,
                                   delay: int, lag: nat)
    returns (steps: seq<Step>)
    requires Realised(cfg, s, o, next)
    requires QuotaLoopRuns.TimelyRun(cfg.loop, s.loop, inner, delay, lag) && Q.Legal(cfg.loop, s.loop, inner)
    requires Awaits(cfg, o, next, Deliveries(cfg.loop, s.loop, inner))
    ensures TimelyRun(cfg, s, steps, delay, lag) && Legal(cfg, s, steps)
    ensures After(cfg, s, steps).loop == Q.After(cfg.loop, s.loop, inner)
    ensures Realised(cfg, After(cfg, s, steps), o, next + |Deliveries(cfg.loop, s.loop, inner)|)
    decreases |inner|
  {
    if inner == [] {
      steps := [];
    } else if inner[0].Deliver? {
      var i, hards := inner[0].i, Deliveries(cfg.loop, s.loop, inner);
      assert hards[0] == s.loop.requests[i].hard;
      assert cfg.server.posted[next + 0] == PostOf(o, hards[0]);
      var a := DeliverRun(cfg, s, o, next, i, delay, lag);
      DeliveredIsRealised(cfg, s, o, next, i);
      var s1 := Delivered(cfg, s, o, next, i);
      AwaitsRest(cfg, o, next, hards);
      assert hards[1..] == Deliveries(cfg.loop, s1.loop, inner[1..]);
      var b := Realise(cfg, s1, o, next + 1, inner[1..], delay, lag);
      TimelyThen(cfg, s, a, s1, b, delay, lag);
      steps := a + b;
    } else {
      var s1 := s.(loop := Q.Apply(cfg.loop, s.loop, inner[0]));
      assert Deliveries(cfg.loop, s.loop, inner) == Deliveries(cfg.loop, s1.loop, inner[1..]);
      var b := Realise(cfg, s1, o, next, inner[1..], delay, lag);
      LoopStepRun(cfg, s, inner[0], b, delay, lag);
      steps := [Loop(inner[0])] + b;
    }
  }

  lemma AwaitsRest(cfg: Config, o: Object, next: nat, hards: seq<Q.Hard>)
    requires Awaits(cfg, o, next, hards) && hards != []
    ensures Awaits(cfg, o, next + 1, hards[1..])
  {
    forall k | 0 <= k < |hards[1..]| ensures cfg.server.posted[next + 1 + k] == PostOf(o, hards[1..][k]) {
      assert cfg.server.posted[next + (k + 1)] == PostOf(o, hards[k + 1]);
    }
  }

  /** A server with one handler for each of these posts. */
  function ServerFor(loop: Q.Config, o: Object, hards: seq<Q.Hard>): Config {
    Config(
      P.Config(TreeOf(o, loop.initial), seq(|hards|, k requires 0 <= k < |hards| => PostOf(o, hards[k]))),
      loop, o.file)
  }

  /** Nothing the loop may do is beyond the server: every timely run of the loop is what it sees of a timely run of
      both sides, whose last tip holds git as the loop ends with it. */
  lemma EveryLoopRunReachesBranch(loop: Q.Config, o: Object, start: int, inner: seq<Q.Step>, delay: int, lag: nat)
    returns (cfg: Config, steps: seq<Step>)
    requires P.IsYaml(o.file)
    requires QuotaLoopRuns.TimelyRun(loop, Q.Init(loop, start), inner, delay, lag)
    requires Q.Legal(loop, Q.Init(loop, start), inner)
    ensures cfg.loop == loop && cfg.file == o.file && HardOf(cfg.server.initial, o.file) == Some(loop.initial)
    ensures TimelyRun(cfg, Init(cfg, start), steps, delay, lag) && Legal(cfg, Init(cfg, start), steps)
    ensures var s := After(cfg, Init(cfg, start), steps);
            && s.loop == Q.After(loop, Q.Init(loop, start), inner)
            && s.server.history != [] && HardOf(P.Tip(s.server), o.file) == Some(s.loop.git)
  {
    cfg := ServerFor(loop, o, Deliveries(loop, Q.Init(loop, start), inner));
    steps := Realise(cfg, Init(cfg, start), o, 0, inner, delay, lag);
  }

  /* ---------- exactly when the branch can fall ---------- */

  ghost function End(cfg: Config, start: int, steps: seq<Step>): State
    requires Legal(cfg, Init(cfg, start), steps)
  {
    After(cfg, Init(cfg, start), steps)
  }

  /** In every timely run of any server together with the loop, no push lowers the limit in the file. */
  ghost predicate BranchNeverLowered(loop: Q.Config, p: Path, key: string, delay: int, lag: nat) {
    forall server: P.Config, start: int, steps: seq<Step> |
      && HardOf(server.initial, p) == Some(loop.initial)
      && TimelyRun(Config(server, loop, p), Init(Config(server, loop, p), start), steps, delay, lag)
      && Legal(Config(server, loop, p), Init(Config(server, loop, p), start), steps) ::
        Rising(Config(server, loop, p), End(Config(server, loop, p), start, steps), key)
  }

  lemma StepKeepsRising(cfg: Config, s: State, step: Step, key: string, delay: int, lag: nat)
    requires Linked(cfg, s) && Rising(cfg, s, key) && Enabled(cfg, s, step)
    requires QuotaLoopRuns.TimelyReachable(cfg.loop, s.loop, delay, lag)
    requires QuotaLoopRuns.NeverFalls(cfg.loop, key, delay, lag)
    requires step.Loop? ==> QuotaLoopRuns.Fresh(s.loop, step.inner, lag)
    requires QuotaLoopRuns.Timely(Apply(cfg, s, step).loop, delay)
    ensures Linked(cfg, Apply(cfg, s, step)) && Rising(cfg, Apply(cfg, s, step), key)
    ensures QuotaLoopRuns.TimelyReachable(cfg.loop, Apply(cfg, s, step).loop, delay, lag)
  {
    var s' := Apply(cfg, s, step);
    StepKeepsLinked(cfg, s, step);
    if LoopMoves(cfg, s, step) {
      var next := QuotaLoopRuns.Reach(cfg.loop, s.loop, LoopStep(step), delay, lag);
      assert Q.Get(s.loop.git, key) <= Q.Get(s'.loop.git, key);
    }
    if step.Server? {
      StepOnHard(cfg.server, s.server, step.step, cfg.file);
    }
    StaysRising(cfg, s, s', key);
  }

  lemma {:induction false} RunKeepsRising(cfg: Config, s: State, steps: seq<Step>, key: string, delay: int, lag: nat)
    requires Linked(cfg, s) && Rising(cfg, s, key) && TimelyRun(cfg, s, steps, delay, lag) && Legal(cfg, s, steps)
    requires QuotaLoopRuns.TimelyReachable(cfg.loop, s.loop, delay, lag)
    requires QuotaLoopRuns.NeverFalls(cfg.loop, key, delay, lag)
    ensures Rising(cfg, After(cfg, s, steps), key)
    decreases |steps|
  {
    if steps != [] {
      StepKeepsRising(cfg, s, steps[0], key, delay, lag);
      RunKeepsRising(cfg, Apply(cfg, s, steps[0]), steps[1..], key, delay, lag);
    }
  }

  lemma InitTimely(loop: Q.Config, start: int, delay: int, lag: nat)
    ensures QuotaLoopRuns.TimelyReachable(loop, Q.Init(loop, start), delay, lag)
  {
    var s := Q.Init(loop, start);
    assert QuotaLoopRuns.TimelyRun(loop, s, [], delay, lag) && Q.After(loop, s, []) == s;
  }

  lemma LoopRisesBranchRises(loop: Q.Config, p: Path, key: string, delay: int, lag: nat)
    requires QuotaLoopRuns.NeverFalls(loop, key, delay, lag)
    ensures BranchNeverLowered(loop, p, key, delay, lag)
  {
    forall server: P.Config, start: int, steps: seq<Step> |
      && HardOf(server.initial, p) == Some(loop.initial)
      && TimelyRun(Config(server, loop, p), Init(Config(server, loop, p), start), steps, delay, lag)
      && Legal(Config(server, loop, p), Init(Config(server, loop, p), start), steps)
      ensures Rising(Config(server, loop, p), End(Config(server, loop, p), start, steps), key)
    {
      var cfg := Config(server, loop, p);
      InitInv(cfg, start);
      InitTimely(loop, start, delay, lag);
      RunKeepsRising(cfg, Init(cfg, start), steps, key, delay, lag);
    }
  }

  lemma {:induction false} DeliveriesAppend(loop: Q.Config, s: Q.State, steps: seq<Q.Step>, i: nat)
    requires Q.Legal(loop, s, steps) && Q.Enabled(loop, Q.After(loop, s, steps), Q.Deliver(i))
    ensures Q.Legal(loop, s, steps + [Q.Deliver(i)])
    ensures Deliveries(loop, s, steps + [Q.Deliver(i)])
         == Deliveries(loop, s, steps) + [Q.After(loop, s, steps).requests[i].hard]
    decreases |steps|
  {
    if steps == [] {
      assert [Q.Deliver(i)][1..] == [];
    } else {
      DeliveriesAppend(loop, Q.Apply(loop, s, steps[0]), steps[1..], i);
      assert (steps + [Q.Deliver(i)])[1..] == steps[1..] + [Q.Deliver(i)];
    }
  }

  /** A delivery that lowers git in the loop, after a timely run, is a push that lowers the file. */
  lemma FallReachesBranch(loop: Q.Config, o: Object, start: int, inner: seq<Q.Step>, i: nat, key: string,
                          delay: int, lag: nat) returns (cfg: Config, steps: seq<Step>)
    requires P.IsYaml(o.file)
    requires QuotaLoopRuns.TimelyRun(loop, Q.Init(loop, start), inner, delay, lag)
    requires Q.Legal(loop, Q.Init(loop, start), inner)
    requires var s := Q.After(loop, Q.Init(loop, start), inner);
             && Q.Enabled(loop, s, Q.Deliver(i)) && QuotaLoopRuns.Timely(s, delay)
             && QuotaLoopRuns.Timely(Q.Apply(loop, s, Q.Deliver(i)), delay)
             && Q.Get(Q.Apply(loop, s, Q.Deliver(i)).git, key) < Q.Get(s.git, key)
    ensures cfg.loop == loop && cfg.file == o.file && HardOf(cfg.server.initial, o.file) == Some(loop.initial)
    ensures TimelyRun(cfg, Init(cfg, start), steps, delay, lag) && Legal(cfg, Init(cfg, start), steps)
    ensures !Rising(cfg, After(cfg, Init(cfg, start), steps), key)
  {
    var s0 := Q.Init(loop, start);
    var hards := Deliveries(loop, s0, inner);
    var last := Q.After(loop, s0, inner).requests[i].hard;
    cfg := ServerFor(loop, o, hards + [last]);
    var a := Realise(cfg, Init(cfg, start), o, 0, inner, delay, lag);
    var mid := After(cfg, Init(cfg, start), a);
    assert cfg.server.posted[|hards|] == PostOf(o, last);
    var b := DeliverRun(cfg, mid, o, |hards|, i, delay, lag);
    TimelyThen(cfg, Init(cfg, start), a, mid, b, delay, lag);
    steps := a + b;
    PushLowers(cfg, mid, o, |hards|, i, key);
  }

  lemma PushLowers(cfg: Config, s: State, o: Object, h: nat, i: nat, key: string)
    requires Realised(cfg, s, o, h) && h < |s.server.handlers|
    requires i < |s.loop.requests| && s.loop.requests[i].Sent?
    requires Q.Get(s.loop.requests[i].hard, key) < Q.Get(s.loop.git, key)
    ensures !Rising(cfg, Delivered(cfg, s, o, h, i), key)
  {
    var s', v := Delivered(cfg, s, o, h, i), |s.server.history|;
    assert s'.server.history[v - 1].tree == TreeOf(o, s.loop.git);
    assert s'.server.history[v].tree == TreeOf(o, s.loop.requests[i].hard);
    assert Limit(s'.server.history[v].tree, cfg.file, key) < Limit(s'.server.history[v - 1].tree, cfg.file, key);
  }

  lemma LoopFallsBranchFalls(loop: Q.Config, p: Path, key: string, delay: int, lag: nat)
    requires P.IsYaml(p) && !QuotaLoopRuns.NeverFalls(loop, key, delay, lag)
    ensures !BranchNeverLowered(loop, p, key, delay, lag)
  {
    var s: Q.State, step: Q.Step :|
      && QuotaLoopRuns.TimelyReachable(loop, s, delay, lag) && Q.Enabled(loop, s, step)
      && QuotaLoopRuns.Fresh(s, step, lag) && QuotaLoopRuns.Timely(Q.Apply(loop, s, step), delay)
      && Q.Get(Q.Apply(loop, s, step).git, key) < Q.Get(s.git, key);
    assert step.Deliver?;
    QuotaLoopRuns.ReachedInTime(loop, s, delay, lag);
    var start: int, inner: seq<Q.Step> :|
      && QuotaLoopRuns.TimelyRun(loop, Q.Init(loop, start), inner, delay, lag)
      && Q.Legal(loop, Q.Init(loop, start), inner) && Q.After(loop, Q.Init(loop, start), inner) == s;
    var cfg, steps := FallReachesBranch(loop, Object(p, "", ""), start, inner, step.i, key, delay, lag);
    assert cfg == Config(cfg.server, loop, p);
  }

  /** Exactly when no push ever lowers a limit in the file, over all servers and handlers: when the loop's step is
      zero, or no request can exist, or the step is positive, requests are over within their minute and reads are
      current. */
  lemma BranchNeverLoweredIff(loop: Q.Config, p: Path, key: string, delay: int, lag: nat)
    requires QuotaLoopRuns.IsLimit(key) && P.IsYaml(p)
    ensures BranchNeverLowered(loop, p, key, delay, lag)
            <==> || QuotaLoopRuns.StepOf(loop, key) == 0
                 || delay <= 0
                 || (QuotaLoopRuns.StepOf(loop, key) > 0 && delay <= 60_000_000_000 && lag == 0)
  {
    QuotaLoopRuns.GitNeverFallsIff(loop, key, delay, lag);
    if QuotaLoopRuns.NeverFalls(loop, key, delay, lag) {
      LoopRisesBranchRises(loop, p, key, delay, lag);
    } else {
      LoopFallsBranchFalls(loop, p, key, delay, lag);
    }
  }

  /* ---------- no upper bound on the branch ---------- */

  /** In every run of any server together with the loop, the limit on the tip stays within the bound. */
  ghost predicate BranchBounded(loop: Q.Config, p: Path, key: string, bound: int) {
    forall server: P.Config, start: int, steps: seq<Step> |
      && HardOf(server.initial, p) == Some(loop.initial)
      && Legal(Config(server, loop, p), Init(Config(server, loop, p), start), steps) ::
        var history := End(Config(server, loop, p), start, steps).server.history;
        history != [] && Limit(history[|history| - 1].tree, p, key) <= bound
  }

  lemma NoStepBranchBounded(loop: Q.Config, p: Path, key: string, bound: int)
    requires QuotaLoopRuns.IsLimit(key)
    requires Q.Get(loop.initial, key) <= bound && QuotaLoopRuns.StepOf(loop, key) <= 0
    ensures BranchBounded(loop, p, key, bound)
  {
    forall server: P.Config, start: int, steps: seq<Step> |
      && HardOf(server.initial, p) == Some(loop.initial)
      && Legal(Config(server, loop, p), Init(Config(server, loop, p), start), steps)
      ensures var history := End(Config(server, loop, p), start, steps).server.history;
              history != [] && Limit(history[|history| - 1].tree, p, key) <= bound
    {
      var cfg := Config(server, loop, p);
      InitInv(cfg, start);
      RunKeepsInv(cfg, Init(cfg, start), steps);
      var s := After(cfg, Init(cfg, start), steps);
      QuotaLoopRuns.LevelBounded(loop, key, bound, s.loop.git, Q.Used(s.loop));
    }
  }

  /** Whatever a timely run of the loop makes of git, some run of both sides makes of the file. */
  lemma BranchReaches(loop: Q.Config, p: Path, s: Q.State, delay: int, lag: nat)
    returns (cfg: Config, start: int, steps: seq<Step>)
    requires P.IsYaml(p) && QuotaLoopRuns.TimelyReachable(loop, s, delay, lag)
    ensures cfg == Config(cfg.server, loop, p) && HardOf(cfg.server.initial, p) == Some(loop.initial)
    ensures Legal(cfg, Init(cfg, start), steps)
    ensures var history := End(cfg, start, steps).server.history;
            history != [] && HardOf(history[|history| - 1].tree, p) == Some(s.git)
  {
    var inner: seq<Q.Step>;
    start, inner :|
      && QuotaLoopRuns.TimelyRun(loop, Q.Init(loop, start), inner, delay, lag)
      && Q.Legal(loop, Q.Init(loop, start), inner) && Q.After(loop, Q.Init(loop, start), inner) == s;
    cfg, steps := EveryLoopRunReachesBranch(loop, Object(p, "", ""), start, inner, delay, lag);
  }

  lemma BranchOutgrows(loop: Q.Config, p: Path, key: string, bound: int)
    requires QuotaLoopRuns.IsLimit(key) && P.IsYaml(p)
    requires Q.Get(loop.initial, key) > bound || QuotaLoopRuns.StepOf(loop, key) > 0
    ensures !BranchBounded(loop, p, key, bound)
  {
    var s := QuotaLoopRuns.Outgrows(loop, key, bound);
    var cfg, start, steps := BranchReaches(loop, p, s, 1, 0);
    assert HardOf(cfg.server.initial, p) == Some(loop.initial);
  }

  /** No maximum reaches the branch either: the file stays within a bound over all runs exactly when it starts there
      and the step does not raise the limit. */
  lemma BranchBoundedIff(loop: Q.Config, p: Path, key: string, bound: int)
    requires QuotaLoopRuns.IsLimit(key) && P.IsYaml(p)
    ensures BranchBounded(loop, p, key, bound)
            <==> Q.Get(loop.initial, key) <= bound && QuotaLoopRuns.StepOf(loop, key) <= 0
  {
    if Q.Get(loop.initial, key) <= bound && QuotaLoopRuns.StepOf(loop, key) <= 0 {
      NoStepBranchBounded(loop, p, key, bound);
    } else {
      BranchOutgrows(loop, p, key, bound);
    }
  }
}
