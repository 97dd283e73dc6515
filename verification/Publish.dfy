/** Many HTTP handlers at once. Each clones the tip of the branch, scans the clone, fans its updates out,
    and pushes only if none failed; the non-forced push succeeds only if the tip has not moved. */
module Publish {
  import opened Manifests
  import Text
  import Scanner
  import ScannerRuns
  import FanOut
  import opened FanOutRuns

  /** The two objects the server accepts. */
  datatype Posted =
    | PostedQuota(kind: string, name: string, namespace: string, hard: map<string, int>)
    | PostedNodeScaling(clusterName: string, maxNodes: int)

  function RequestOf(o: Posted): Request {
    match o
    case PostedQuota(_, _, _, hard) => SetQuota(hard)
    case PostedNodeScaling(_, maxNodes) => AddReplica(maxNodes)
  }

  predicate IsYaml(path: Path) {
    Text.HasSuffix(Text.ToLower(path), ".yaml") || Text.HasSuffix(Text.ToLower(path), ".yml")
  }

  function OrDefault(namespace: string): string {
    if namespace == "" then "default" else namespace
  }

  predicate Wanted(o: Posted, d: Document) {
    d.Document? &&
    match o
    case PostedQuota(kind, name, namespace, _) =>
      d.kind == kind && d.name == name && OrDefault(d.namespace) == OrDefault(namespace)
    case PostedNodeScaling(clusterName, _) =>
      d.kind == "MachineDeployment" && d.name == clusterName + "-md-0"
  }

  function FilterOf(o: Posted): Scanner.Filter {
    Scanner.Filter(IsYaml, d => Wanted(o, d))
  }

  /** A walk of the directory a tree was cloned into. Reads and the walk itself may still fail. */
  ghost predicate Lists(walk: seq<Scanner.WalkItem>, tree: Tree) {
    && ScannerRuns.DistinctPaths(walk)
    && forall i | 0 <= i < |walk| && walk[i].Regular? ::
         && walk[i].entry.path in tree
         && (walk[i].entry.reading.Readable? ==> walk[i].entry.reading.docs == tree[walk[i].entry.path])
  }

  /** Some run of the concurrent scanner over this tree succeeds with this list. */
  ghost predicate MayReturn(o: Posted, tree: Tree, paths: seq<Path>) {
    exists sc: Scanner.Config, end: Scanner.State ::
      && Scanner.Valid(sc) && sc.filter == FilterOf(o) && Lists(sc.walk, tree)
      && Scanner.Reachable(sc, end) && ScannerRuns.Succeeded(end) && end.collected == paths
  }

  datatype Commit = Commit(tree: Tree, author: nat, paths: seq<Path>)

  datatype Handler =
    | Idle
    | Cloned(base: nat)
    | Updating(base: nat, fan: FanOut.Config, state: FanOut.State)
    | ReadyToPush(base: nat, tree: Tree, paths: seq<Path>)
    | Published(version: nat)
    | GivenUp

  /** history[0] is the tip before the run; every push appends. */
  datatype State = State(history: seq<Commit>, handlers: seq<Handler>)

  datatype Config = Config(initial: Tree, posted: seq<Posted>)

  datatype Step =
    | Clone(h: nat)
    | Scan(h: nat, paths: seq<Path>)
    | Fan(h: nat, step: FanOut.Step)
    | Gate(h: nat)
    | Push(h: nat)
    | Abandon(h: nat)   // any error outside the model: credentials, clone, scan, commit or transport

  function Init(cfg: Config): State {
    State([Commit(cfg.initial, 0, [])], seq(|cfg.posted|, _ => Idle))
  }

  function Tip(s: State): Tree
    requires s.history != []
  {
    s.history[|s.history| - 1].tree
  }

  ghost predicate Enabled(cfg: Config, s: State, step: Step) {
    && step.h < |s.handlers| && |s.handlers| == |cfg.posted| && s.history != []
    && var handler := s.handlers[step.h];
       match step
       case Clone(_) => handler.Idle?
       case Scan(_, paths) =>
         && handler.Cloned? && handler.base < |s.history|
         && MayReturn(cfg.posted[step.h], s.history[handler.base].tree, paths)
       case Fan(_, inner) => handler.Updating? && FanOut.Enabled(handler.fan, handler.state, inner)
       case Gate(_) => handler.Updating? && !handler.state.verdict.Pending?
       case Push(_) => handler.ReadyToPush?
       case Abandon(_) => !handler.Published? && !handler.GivenUp?
  }

  function Move(s: State, h: nat, handler: Handler): State
    requires h < |s.handlers|
  {
    s.(handlers := s.handlers[h := handler])
  }

  ghost function Apply(cfg: Config, s: State, step: Step): State
    requires Enabled(cfg, s, step)
  {
    var h, handler := step.h, s.handlers[step.h];
    match step
    case Clone(_) => Move(s, h, Cloned(|s.history| - 1))
    case Scan(_, paths) =>
      if paths == [] then Move(s, h, GivenUp)
      else
        var fan := FanOut.Config(RequestOf(cfg.posted[h]), paths, s.history[handler.base].tree);
        Move(s, h, Updating(handler.base, fan, FanOut.Init(fan)))
    case Fan(_, inner) => Move(s, h, handler.(state := FanOut.Apply(handler.fan, handler.state, inner)))
    case Gate(_) =>
      if handler.state.verdict.Passed?
      then Move(s, h, ReadyToPush(handler.base, handler.state.files, handler.fan.paths))
      else Move(s, h, GivenUp)
    case Push(_) =>
      if handler.base == |s.history| - 1 then
        Move(s.(history := s.history + [Commit(handler.tree, h, handler.paths)]), h, Published(|s.history|))
      else Move(s, h, GivenUp)
    case Abandon(_) => Move(s, h, GivenUp)
  }

  ghost predicate Legal(cfg: Config, s: State, steps: seq<Step>)
    decreases |steps|
  {
    steps == [] || (Enabled(cfg, s, steps[0]) && Legal(cfg, Apply(cfg, s, steps[0]), steps[1..]))
  }

  ghost function After(cfg: Config, s: State, steps: seq<Step>): State
    requires Legal(cfg, s, steps)
    decreases |steps|
  {
    if steps == [] then s else After(cfg, Apply(cfg, s, steps[0]), steps[1..])
  }

  ghost predicate Reachable(cfg: Config, s: State) {
    exists steps :: Legal(cfg, Init(cfg), steps) && After(cfg, Init(cfg), steps) == s
  }

  /* ---------- the invariant ---------- */

  /** `after` is `before` with this handler's update applied to every path its scan returned. */
  ghost predicate Genuine(o: Posted, before: Tree, paths: seq<Path>, after: Tree) {
    paths != [] && MayReturn(o, before, paths) && Rewritten(RequestOf(o), paths, before, after)
  }

  ghost predicate HandlerOk(cfg: Config, s: State, h: nat)
    requires h < |s.handlers| && |s.handlers| == |cfg.posted|
  {
    match s.handlers[h]
    case Cloned(base) => base < |s.history|
    case Updating(base, fan, state) =>
      && base < |s.history|
      && fan.paths != [] && fan.original == s.history[base].tree && fan.req == RequestOf(cfg.posted[h])
      && MayReturn(cfg.posted[h], fan.original, fan.paths)
      && FanOut.Inv(fan, state)
    case ReadyToPush(base, tree, paths) =>
      base < |s.history| && Genuine(cfg.posted[h], s.history[base].tree, paths, tree)
    case Published(version) => 1 <= version < |s.history| && s.history[version].author == h
    case _ => true
  }

  ghost predicate CommitOk(cfg: Config, s: State, v: nat)
    requires 1 <= v < |s.history| && |s.handlers| == |cfg.posted|
  {
    var c := s.history[v];
    && c.author < |s.handlers| && s.handlers[c.author] == Published(v)
    && Genuine(cfg.posted[c.author], s.history[v - 1].tree, c.paths, c.tree)
  }

  ghost predicate Inv(cfg: Config, s: State) {
    && |s.handlers| == |cfg.posted|
    && s.history != [] && s.history[0].tree == cfg.initial
    && (forall h | 0 <= h < |s.handlers| :: HandlerOk(cfg, s, h))
    && (forall v | 1 <= v < |s.history| :: CommitOk(cfg, s, v))
  }

  /** Handlers that stand still stay right when the history only grows. */
  lemma HandlerStays(cfg: Config, s: State, s': State, k: nat)
    requires k < |s.handlers| == |s'.handlers| == |cfg.posted| && s'.handlers[k] == s.handlers[k]
    requires s.history <= s'.history && HandlerOk(cfg, s, k)
    ensures HandlerOk(cfg, s', k)
  {
    assert forall v | 0 <= v < |s.history| :: s'.history[v] == s.history[v];
  }

  /** So do commits whose author stands still. */
  lemma CommitStays(cfg: Config, s: State, s': State, v: nat)
    requires 1 <= v < |s.history| && |s.handlers| == |s'.handlers| == |cfg.posted| && s.history <= s'.history
    requires CommitOk(cfg, s, v) && s'.handlers[s.history[v].author] == s.handlers[s.history[v].author]
    ensures CommitOk(cfg, s', v)
  {
    assert s'.history[v] == s.history[v] && s'.history[v - 1] == s.history[v - 1];
  }

  /** A handler that moves without publishing disturbs nobody. */
  lemma MoveKeepsInv(cfg: Config, s: State, h: nat, handler: Handler)
    requires Inv(cfg, s) && h < |s.handlers| && !s.handlers[h].Published?
    requires HandlerOk(cfg, Move(s, h, handler), h)
    ensures Inv(cfg, Move(s, h, handler))
  {
    var s' := Move(s, h, handler);
    forall k | 0 <= k < |s'.handlers| ensures HandlerOk(cfg, s', k) {
      if k != h {
        HandlerStays(cfg, s, s', k);
      }
    }
    forall v | 1 <= v < |s'.history| ensures CommitOk(cfg, s', v) {
      assert CommitOk(cfg, s, v);
      CommitStays(cfg, s, s', v);
    }
  }

  lemma PushedCommitOk(cfg: Config, s: State, s': State, h: nat)
    requires |s.handlers| == |cfg.posted| && h < |s.handlers| && s.history != [] && HandlerOk(cfg, s, h)
    requires s.handlers[h].ReadyToPush? && s.handlers[h].base == |s.history| - 1
    requires s'.history == s.history + [Commit(s.handlers[h].tree, h, s.handlers[h].paths)]
    requires s'.handlers == s.handlers[h := Published(|s.history|)]
    ensures CommitOk(cfg, s', |s.history|) && HandlerOk(cfg, s', h)
  {
    assert s'.history[|s.history| - 1] == s.history[|s.history| - 1];
  }

  lemma PushKeepsInv(cfg: Config, s: State, s': State, h: nat)
    requires Inv(cfg, s) && h < |s.handlers| && s.handlers[h].ReadyToPush? && s.handlers[h].base == |s.history| - 1
    requires s'.history == s.history + [Commit(s.handlers[h].tree, h, s.handlers[h].paths)]
    requires s'.handlers == s.handlers[h := Published(|s.history|)]
    ensures Inv(cfg, s')
  {
    PushedCommitOk(cfg, s, s', h);
    forall k | 0 <= k < |s'.handlers| ensures HandlerOk(cfg, s', k) {
      if k != h {
        HandlerStays(cfg, s, s', k);
      }
    }
    assert s'.history[0] == s.history[0];
    forall v | 1 <= v < |s'.history| ensures CommitOk(cfg, s', v) {
      if v < |s.history| {
        assert CommitOk(cfg, s, v);
        CommitStays(cfg, s, s', v);
      }
    }
  }

  lemma ScanKeepsInv(cfg: Config, s: State, h: nat, paths: seq<Path>)
    requires Inv(cfg, s) && Enabled(cfg, s, Scan(h, paths))
    ensures Inv(cfg, Apply(cfg, s, Scan(h, paths)))
  {
    if paths == [] {
      MoveKeepsInv(cfg, s, h, GivenUp);
    } else {
      var base := s.handlers[h].base;
      var fan := FanOut.Config(RequestOf(cfg.posted[h]), paths, s.history[base].tree);
      FanOut.InitInv(fan);
      MoveKeepsInv(cfg, s, h, Updating(base, fan, FanOut.Init(fan)));
    }
  }

  lemma StepKeepsInv(cfg: Config, s: State, step: Step)
    requires Inv(cfg, s) && Enabled(cfg, s, step)
    ensures Inv(cfg, Apply(cfg, s, step))
  {
    var h, handler := step.h, s.handlers[step.h];
    assert HandlerOk(cfg, s, h);
    match step
    case Clone(_) => MoveKeepsInv(cfg, s, h, Cloned(|s.history| - 1));
    case Scan(_, paths) => ScanKeepsInv(cfg, s, h, paths);
    case Fan(_, inner) =>
      FanOut.StepKeepsInv(handler.fan, handler.state, inner);
      MoveKeepsInv(cfg, s, h, handler.(state := FanOut.Apply(handler.fan, handler.state, inner)));
    case Gate(_) =>
      if handler.state.verdict.Passed? {
        PassedMeansRewritten(handler.fan, handler.state);
        MoveKeepsInv(cfg, s, h, ReadyToPush(handler.base, handler.state.files, handler.fan.paths));
      } else {
        MoveKeepsInv(cfg, s, h, GivenUp);
      }
    case Push(_) =>
      if handler.base == |s.history| - 1 {
        PushKeepsInv(cfg, s, Apply(cfg, s, step), h);
      } else {
        MoveKeepsInv(cfg, s, h, GivenUp);
      }
    case Abandon(_) => MoveKeepsInv(cfg, s, h, GivenUp);
  }

  lemma {:induction false} RunKeepsInv(cfg: Config, s: State, steps: seq<Step>)
    requires Inv(cfg, s) && Legal(cfg, s, steps)
    ensures Inv(cfg, After(cfg, s, steps))
    decreases |steps|
  {
    if steps != [] {
      StepKeepsInv(cfg, s, steps[0]);
      RunKeepsInv(cfg, Apply(cfg, s, steps[0]), steps[1..]);
    }
  }

  lemma ReachableInv(cfg: Config, s: State)
    requires Reachable(cfg, s)
    ensures Inv(cfg, s)
  {
    var steps :| Legal(cfg, Init(cfg), steps) && After(cfg, Init(cfg), steps) == s;
    RunKeepsInv(cfg, Init(cfg), steps);
  }

  /* ---------- all or nothing ---------- */

  /** The history on its own, without the handlers that wrote it. */
  ghost predicate GenuineHistory(cfg: Config, history: seq<Commit>) {
    && history != [] && history[0].tree == cfg.initial
    && forall v | 1 <= v < |history| ::
         && history[v].author < |cfg.posted|
         && Genuine(cfg.posted[history[v].author], history[v - 1].tree, history[v].paths, history[v].tree)
  }

  lemma HistoryIsGenuine(cfg: Config, s: State)
    requires Inv(cfg, s)
    ensures GenuineHistory(cfg, s.history)
  {
    forall v | 1 <= v < |s.history|
      ensures s.history[v].author < |cfg.posted|
      ensures Genuine(cfg.posted[s.history[v].author], s.history[v - 1].tree, s.history[v].paths, s.history[v].tree)
    {
      assert CommitOk(cfg, s, v);
    }
  }

  /** Every tip is its parent with one handler's update applied to every path that handler's scan returned,
      and a handler that has not published appears nowhere in the history. */
  lemma AllOrNothing(cfg: Config, s: State)
    requires Reachable(cfg, s)
    ensures s.history != [] && s.history[0].tree == cfg.initial
    ensures forall v | 1 <= v < |s.history| ::
              && s.history[v].author < |cfg.posted|
              && Genuine(cfg.posted[s.history[v].author], s.history[v - 1].tree, s.history[v].paths, s.history[v].tree)
    ensures forall h, v | 0 <= h < |s.handlers| && 1 <= v < |s.history| ::
              s.history[v].author == h <==> s.handlers[h] == Published(v)
  {
    ReachableInv(cfg, s);
    HistoryIsGenuine(cfg, s);
    forall v | 1 <= v < |s.history| ensures s.handlers[s.history[v].author] == Published(v) {
      assert CommitOk(cfg, s, v);
    }
    forall h, v | 0 <= h < |s.handlers| && 1 <= v < |s.history| && s.handlers[h] == Published(v)
      ensures s.history[v].author == h
    {
      assert HandlerOk(cfg, s, h);
    }
  }

  /** The handler has a failed update, or has given up. */
  predicate Doomed(s: State, h: nat) {
    && h < |s.handlers|
    && match s.handlers[h]
       case GivenUp => true
       case Updating(_, _, state) => exists k | 0 <= k < |state.tasks| :: FanOut.HasFailed(state.tasks[k].phase)
       case _ => false
  }

  /** Its own steps never get it past the error gate. */
  lemma OwnStepKeepsDoomed(cfg: Config, s: State, step: Step)
    requires Inv(cfg, s) && Doomed(s, step.h) && Enabled(cfg, s, step)
    ensures Doomed(Apply(cfg, s, step), step.h)
  {
    var handler := s.handlers[step.h];
    assert HandlerOk(cfg, s, step.h);
    if handler.Updating? {
      var k :| 0 <= k < |handler.state.tasks| && FanOut.HasFailed(handler.state.tasks[k].phase);
      if step.Fan? {
        FanOut.FailureStays(handler.fan, handler.state, step.step, k);
        assert Apply(cfg, s, step).handlers[step.h].state == FanOut.Apply(handler.fan, handler.state, step.step);
      } else if step.Gate? {
        FanOut.FailureIsSeen(handler.state, k);
      }
    }
  }

  lemma {:induction false} RunKeepsDoomed(cfg: Config, s: State, steps: seq<Step>, h: nat)
    requires Inv(cfg, s) && Doomed(s, h) && Legal(cfg, s, steps)
    ensures Inv(cfg, After(cfg, s, steps)) && Doomed(After(cfg, s, steps), h)
    decreases |steps|
  {
    if steps != [] {
      StepKeepsInv(cfg, s, steps[0]);
      if steps[0].h == h {
        OwnStepKeepsDoomed(cfg, s, steps[0]);
      }
      RunKeepsDoomed(cfg, Apply(cfg, s, steps[0]), steps[1..], h);
    }
  }

  /** A handler with any failed update, whatever it and the others do from there on, is never the author of
      a commit: in every continuation of every run the remote is untouched by it. */
  lemma FailedUpdateLeavesBranch(cfg: Config, s: State, h: nat, k: nat, more: seq<Step>)
    requires Reachable(cfg, s) && h < |s.handlers| && s.handlers[h].Updating?
    requires k < |s.handlers[h].state.tasks| && FanOut.HasFailed(s.handlers[h].state.tasks[k].phase)
    requires Legal(cfg, s, more)
    ensures forall v | 1 <= v < |After(cfg, s, more).history| :: After(cfg, s, more).history[v].author != h
  {
    ReachableInv(cfg, s);
    RunKeepsDoomed(cfg, s, more, h);
    var later := After(cfg, s, more);
    forall v | 1 <= v < |later.history| ensures later.history[v].author != h {
      assert CommitOk(cfg, later, v);
    }
  }

  /** A push is refused only because another handler published after this one cloned. */
  lemma RefusedPushMeansOtherPublished(cfg: Config, s: State, h: nat)
    requires Reachable(cfg, s) && Enabled(cfg, s, Push(h)) && Apply(cfg, s, Push(h)).handlers[h] == GivenUp
    ensures exists v :: s.handlers[h].base < v < |s.history| && s.history[v].author != h
  {
    ReachableInv(cfg, s);
    assert HandlerOk(cfg, s, h);
    var v := |s.history| - 1;
    assert CommitOk(cfg, s, v);
  }

  /** A published quota is in git: every file its scan returned now carries exactly the posted spec.hard.
      This is the delivery step of the quota feedback loop. */
  lemma PublishedQuotaIsInGit(cfg: Config, s: State, v: nat, p: Path)
    requires Reachable(cfg, s) && 1 <= v < |s.history| && s.history[v].author < |cfg.posted|
    requires cfg.posted[s.history[v].author].PostedQuota? && p in s.history[v].paths
    ensures p in s.history[v].tree
    ensures var file := s.history[v].tree[p];
            && file != [] && file[0].Document? && file[0].spec.Some?
            && file[0].spec.value.hard == cfg.posted[s.history[v].author].hard
  {
    AllOrNothing(cfg, s);
    var c := s.history[v];
    QuotaRewriteIsApplied(cfg.posted[c.author].hard, c.paths, s.history[v - 1].tree, c.tree);
  }

  /* ---------- what a scan names ---------- */

  /** No file of the tree holds more than one document. */
  predicate SingleDocuments(tree: Tree) {
    forall p | p in tree :: |tree[p]| <= 1
  }

  /** The scanner's answer over single-document files names each file once. */
  lemma ScanIsDistinct(o: Posted, tree: Tree, paths: seq<Path>)
    requires MayReturn(o, tree, paths) && SingleDocuments(tree)
    ensures Distinct(paths)
  {
    var sc: Scanner.Config, end: Scanner.State :|
      && Scanner.Valid(sc) && sc.filter == FilterOf(o) && Lists(sc.walk, tree)
      && Scanner.Reachable(sc, end) && ScannerRuns.Succeeded(end) && end.collected == paths;
    forall i | 0 <= i < |sc.walk| ensures ScannerRuns.SingleMatchItem(sc.filter, sc.walk[i]) {
      if sc.walk[i].Regular? && sc.walk[i].entry.reading.Readable? {
        var docs := sc.walk[i].entry.reading.docs;
        assert |docs| <= 1;
        assert docs == [] || docs[1..] == [];
      }
    }
    ScannerRuns.CollectedAreMatches(sc, end);
  }

  /** A .yaml or .yml file of the tree with a wanted document. */
  ghost predicate HasWanted(o: Posted, tree: Tree, p: Path) {
    p in tree && IsYaml(p) && exists d | d in tree[p] :: Wanted(o, d)
  }

  /** The scanner's answer only names walked .yaml or .yml files of the clone with a wanted document. */
  lemma ScanFindsWanted(o: Posted, tree: Tree, paths: seq<Path>)
    requires MayReturn(o, tree, paths)
    ensures forall p | p in paths :: HasWanted(o, tree, p)
  {
    var sc: Scanner.Config, end: Scanner.State :|
      && Scanner.Valid(sc) && sc.filter == FilterOf(o) && Lists(sc.walk, tree)
      && Scanner.Reachable(sc, end) && ScannerRuns.Succeeded(end) && end.collected == paths;
    ScannerRuns.CollectedAreMatches(sc, end);
    forall p | p in paths ensures HasWanted(o, tree, p) {
      var i :| 0 <= i < |sc.walk| && ScannerRuns.Matching(sc.filter, sc.walk[i], p);
      var docs := tree[p];
      assert ScannerRuns.MatchesIn(sc.filter, docs);
      var k :| 0 <= k < |docs| && sc.filter.document(docs[k]) && forall j | 0 <= j <= k :: docs[j].Document?;
      assert Wanted(o, docs[k]);
    }
  }

  /** The walk reaches every file of the tree. */
  ghost predicate Covers(walk: seq<Scanner.WalkItem>, tree: Tree) {
    forall p | p in tree :: exists i | 0 <= i < |walk| :: walk[i].Regular? && walk[i].entry.path == p
  }

  lemma WantedIsMatch(o: Posted, docs: seq<Document>)
    requires Scanner.CleanDocs(docs) && exists d | d in docs :: Wanted(o, d)
    ensures ScannerRuns.MatchesIn(FilterOf(o), docs)
  {
    var k :| 0 <= k < |docs| && Wanted(o, docs[k]);
    assert FilterOf(o).document(docs[k]) && forall j | 0 <= j <= k :: docs[j].Document?;
  }

  lemma WantedIsDeclared(o: Posted, tree: Tree, sc: Scanner.Config, p: Path)
    requires sc.filter == FilterOf(o) && Lists(sc.walk, tree) && Covers(sc.walk, tree) && HasWanted(o, tree, p)
    requires Scanner.CleanWalk(sc.filter, sc.walk)
    ensures Scanner.Declared(sc, p) > 0
  {
    var i :| 0 <= i < |sc.walk| && sc.walk[i].Regular? && sc.walk[i].entry.path == p;
    assert Scanner.CleanItem(sc.filter, sc.walk[i]);
    WantedIsMatch(o, tree[p]);
    forall j | 0 <= j < i ensures !sc.walk[j].WalkError? {
      assert Scanner.CleanItem(sc.filter, sc.walk[j]);
    }
    ScannerRuns.MatchingIsDeclared(sc.filter, sc.walk, i, p);
  }

  /** A whole, fault-free and uncancelled scan that ends at the closed matchCh names exactly the files with a
      wanted document. */
  lemma WholeScanFindsAll(o: Posted, tree: Tree, sc: Scanner.Config, end: Scanner.State, p: Path)
    requires Scanner.Valid(sc) && sc.filter == FilterOf(o) && Lists(sc.walk, tree) && Covers(sc.walk, tree)
    requires Scanner.CleanWalk(sc.filter, sc.walk)
    requires Scanner.Reachable(sc, end) && !end.ctxDone && end.result.ByClosedChannel?
    ensures p in end.collected <==> HasWanted(o, tree, p)
  {
    ScannerRuns.ExactExit(sc, end);
    assert Scanner.Times(end.collected, p) == Scanner.Declared(sc, p);
    if p in end.collected {
      assert MayReturn(o, tree, end.collected);
      ScanFindsWanted(o, tree, end.collected);
    }
    if HasWanted(o, tree, p) {
      WantedIsDeclared(o, tree, sc, p);
    }
  }
}
