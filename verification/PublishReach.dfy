/** What the server can do: whole scans that succeed, handlers that publish, and a branch that loses a replica. */
module PublishReach {
  import opened Manifests
  import opened Numbers
  import Scanner
  import ScannerRuns
  import ScannerAnswers
  import FanOut
  import FanOutRuns
  import opened Publish

  /* ---------- the list a scan can return ---------- */

  /** How many documents of the file at p are wanted, if a scan looks at it at all. */
  function Hits(o: Posted, tree: Tree, p: Path): nat {
    if p in tree && IsYaml(p) then ScannerRuns.Selected(FilterOf(o), tree[p]) else 0
  }

  /** Every file a scan looks at can be decoded. */
  predicate Decodable(tree: Tree) {
    forall p | p in tree && IsYaml(p) :: Scanner.CleanDocs(tree[p])
  }

  function FileOf(tree: Tree, p: Path): Scanner.WalkItem
    requires p in tree
  {
    Scanner.Regular(Scanner.Entry(p, Scanner.Readable(tree[p])))
  }

  predicate Reads(tree: Tree, item: Scanner.WalkItem) {
    item.Regular? && item.entry.path in tree && item == FileOf(tree, item.entry.path)
  }

  /** The walk visits exactly these files of the tree, and reads them all. */
  ghost predicate Visits(walk: seq<Scanner.WalkItem>, tree: Tree, paths: set<Path>) {
    && (forall i | 0 <= i < |walk| :: Reads(tree, walk[i]) && walk[i].entry.path in paths)
    && (forall p | p in paths :: exists i | 0 <= i < |walk| :: walk[i].Regular? && walk[i].entry.path == p)
  }

  lemma VisitOneMore(rest: seq<Scanner.WalkItem>, tree: Tree, paths: set<Path>, p: Path)
    requires Visits(rest, tree, paths) && ScannerRuns.DistinctPaths(rest) && p in tree && p !in paths
    ensures Visits([FileOf(tree, p)] + rest, tree, paths + {p})
    ensures ScannerRuns.DistinctPaths([FileOf(tree, p)] + rest)
  {
    var walk := [FileOf(tree, p)] + rest;
    forall q | q in paths + {p} ensures exists i | 0 <= i < |walk| :: walk[i].Regular? && walk[i].entry.path == q {
      if q == p {
        assert walk[0].entry.path == q;
      } else {
        var i :| 0 <= i < |rest| && rest[i].Regular? && rest[i].entry.path == q;
        assert walk[i + 1] == rest[i];
      }
    }
  }

  lemma {:induction false} WalkExists(tree: Tree, paths: set<Path>) returns (walk: seq<Scanner.WalkItem>)
    requires paths <= tree.Keys
    ensures Visits(walk, tree, paths) && ScannerRuns.DistinctPaths(walk)
  {
    if paths == {} {
      walk := [];
    } else {
      var p :| p in paths;
      var rest := WalkExists(tree, paths - {p});
      VisitOneMore(rest, tree, paths - {p}, p);
      walk := [FileOf(tree, p)] + rest;
      assert paths - {p} + {p} == paths;
    }
  }

  lemma NotWalkedNotMatched(f: Scanner.Filter, walk: seq<Scanner.WalkItem>, p: Path)
    requires forall i | 0 <= i < |walk| && walk[i].Regular? :: walk[i].entry.path != p
    ensures Scanner.WalkMatches(f, walk, p) == 0
  {
    ScannerRuns.WalkMatchesMeaning(f, walk, p);
  }

  /** A walk that meets each file at most once declares at most its wanted documents. */
  lemma {:induction false} DeclaredAtMost(o: Posted, tree: Tree, walk: seq<Scanner.WalkItem>, p: Path)
    requires Lists(walk, tree)
    ensures Scanner.WalkMatches(FilterOf(o), walk, p) <= Hits(o, tree, p)
  {
    var f := FilterOf(o);
    if walk != [] && !walk[0].WalkError? {
      assert forall i | 0 <= i < |walk[1..]| :: walk[1..][i] == walk[i + 1];
      if walk[0].Regular? && walk[0].entry.path == p {
        NotWalkedNotMatched(f, walk[1..], p);
        if walk[0].entry.reading.Readable? {
          ScannerRuns.DocMatchesMeaning(f, p, tree[p], p);
        }
      } else {
        DeclaredAtMost(o, tree, walk[1..], p);
        if walk[0].Regular? && walk[0].entry.reading.Readable? {
          ScannerRuns.OtherDocMatches(f, walk[0].entry.path, walk[0].entry.reading.docs, p);
        }
      }
    }
  }

  /** Whatever the schedule, the list names no file more often than it has wanted documents. */
  lemma ScanNamesAtMost(o: Posted, tree: Tree, paths: seq<Path>, p: Path)
    requires MayReturn(o, tree, paths)
    ensures multiset(paths)[p] <= Hits(o, tree, p)
  {
    var sc: Scanner.Config, end: Scanner.State :|
      && Scanner.Valid(sc) && sc.filter == FilterOf(o) && Lists(sc.walk, tree)
      && Scanner.Reachable(sc, end) && ScannerRuns.Succeeded(end) && end.collected == paths;
    ScannerRuns.Conservation(sc, end, p);
    DeclaredAtMost(o, tree, sc.walk, p);
  }

  lemma FirstFileDeclared(o: Posted, tree: Tree, walk: seq<Scanner.WalkItem>)
    requires walk != [] && ScannerRuns.DistinctPaths(walk) && Decodable(tree) && Reads(tree, walk[0])
    ensures Scanner.WalkMatches(FilterOf(o), walk, walk[0].entry.path) == Hits(o, tree, walk[0].entry.path)
  {
    var p := walk[0].entry.path;
    forall k | 0 <= k < |walk[1..]| && walk[1..][k].Regular? ensures walk[1..][k].entry.path != p {
      assert walk[1..][k] == walk[k + 1];
    }
    NotWalkedNotMatched(FilterOf(o), walk[1..], p);
    if IsYaml(p) {
      ScannerRuns.CleanDocMatches(FilterOf(o), p, tree[p]);
    }
  }

  /** The first item of a walk adds nothing to the matches of another file. */
  lemma FirstFileSkipped(f: Scanner.Filter, walk: seq<Scanner.WalkItem>, p: Path)
    requires walk != [] && walk[0].Regular? && walk[0].entry.path != p
    ensures Scanner.WalkMatches(f, walk, p) == Scanner.WalkMatches(f, walk[1..], p)
  {
    if walk[0].entry.reading.Readable? {
      ScannerRuns.OtherDocMatches(f, walk[0].entry.path, walk[0].entry.reading.docs, p);
    }
  }

  predicate AllRead(tree: Tree, walk: seq<Scanner.WalkItem>) {
    forall k | 0 <= k < |walk| :: Reads(tree, walk[k])
  }

  lemma RestOfWalk(tree: Tree, walk: seq<Scanner.WalkItem>)
    requires walk != [] && AllRead(tree, walk) && ScannerRuns.DistinctPaths(walk)
    ensures AllRead(tree, walk[1..]) && ScannerRuns.DistinctPaths(walk[1..])
  {
    assert forall k | 0 <= k < |walk[1..]| :: walk[1..][k] == walk[k + 1];
  }

  /** A walk that meets a file once declares all its wanted documents. */
  lemma {:induction false} FileDeclared(o: Posted, tree: Tree, walk: seq<Scanner.WalkItem>, i: nat, p: Path)
    requires i < |walk| && AllRead(tree, walk) && ScannerRuns.DistinctPaths(walk) && Decodable(tree)
    requires walk[i].Regular? && walk[i].entry.path == p
    ensures Scanner.WalkMatches(FilterOf(o), walk, p) == Hits(o, tree, p)
  {
    assert Reads(tree, walk[0]);
    if i == 0 {
      FirstFileDeclared(o, tree, walk);
    } else {
      RestOfWalk(tree, walk);
      assert walk[0].entry.path != walk[i].entry.path;
      FirstFileSkipped(FilterOf(o), walk, p);
      FileDeclared(o, tree, walk[1..], i - 1, p);
    }
  }

  /** Every decodable tree has a scan that names each file exactly as often as it has wanted documents. */
  lemma WholeScanReturns(o: Posted, tree: Tree) returns (paths: seq<Path>)
    requires Decodable(tree)
    ensures MayReturn(o, tree, paths)
    ensures forall p :: multiset(paths)[p] == Hits(o, tree, p)
  {
    var walk := WalkExists(tree, tree.Keys);
    var sc := Scanner.Config(walk, FilterOf(o), 1, 1);
    forall i | 0 <= i < |walk| ensures Scanner.CleanItem(sc.filter, walk[i]) {
      assert Reads(tree, walk[i]);
    }
    var end := ScannerAnswers.CompleteScanExists(sc);
    paths := end.collected;
    forall p ensures multiset(paths)[p] == Hits(o, tree, p) {
      assert Scanner.Times(end.collected, p) == Scanner.Declared(sc, p);
      if p in tree {
        var i :| 0 <= i < |walk| && walk[i].Regular? && walk[i].entry.path == p;
        FileDeclared(o, tree, walk, i, p);
      } else {
        NotWalkedNotMatched(sc.filter, walk, p);
      }
    }
  }

  /* ---------- a handler that publishes ---------- */

  lemma LegalCons(cfg: Config, s: State, step: Step, rest: seq<Step>)
    requires Enabled(cfg, s, step) && Legal(cfg, Apply(cfg, s, step), rest)
    ensures Legal(cfg, s, [step] + rest) && After(cfg, s, [step] + rest) == After(cfg, Apply(cfg, s, step), rest)
  {
    assert ([step] + rest)[1..] == rest;
  }

  lemma LegalHead(cfg: Config, s: State, a: seq<Step>, b: seq<Step>)
    requires a != [] && Enabled(cfg, s, a[0]) && Legal(cfg, Apply(cfg, s, a[0]), a[1..] + b)
    ensures Legal(cfg, s, a + b) && After(cfg, s, a + b) == After(cfg, Apply(cfg, s, a[0]), a[1..] + b)
  {
    assert a + b == [a[0]] + (a[1..] + b);
    LegalCons(cfg, s, a[0], a[1..] + b);
  }

  lemma {:induction false} RunThen(cfg: Config, s: State, a: seq<Step>, mid: State, b: seq<Step>)
    requires Legal(cfg, s, a) && After(cfg, s, a) == mid && Legal(cfg, mid, b)
    ensures Legal(cfg, s, a + b) && After(cfg, s, a + b) == After(cfg, mid, b)
    decreases |a|
  {
    if a == [] {
      assert a + b == b;
    } else {
      RunThen(cfg, Apply(cfg, s, a[0]), a[1..], mid, b);
      LegalHead(cfg, s, a, b);
    }
  }

  predicate NoPush(steps: seq<Step>) {
    forall i | 0 <= i < |steps| :: !steps[i].Push?
  }

  /** The handler has cloned the tip and its fan-out over these files is in this state. */
  function InFan(cfg: Config, s: State, h: nat, paths: seq<Path>, fan: FanOut.State): State
    requires h < |s.handlers| == |cfg.posted| && s.history != []
  {
    Move(s, h, Updating(|s.history| - 1, FanOf(cfg, s, h, paths), fan))
  }

  function FanOf(cfg: Config, s: State, h: nat, paths: seq<Path>): FanOut.Config
    requires h < |cfg.posted| && s.history != []
  {
    FanOut.Config(RequestOf(cfg.posted[h]), paths, Tip(s))
  }

  /** A fan-out on its own runs inside its handler. */
  lemma {:induction false} FanRun(cfg: Config, s: State, h: nat, paths: seq<Path>, fan: FanOut.State,
                                  inner: seq<FanOut.Step>) returns (steps: seq<Step>)
    requires h < |s.handlers| == |cfg.posted| && s.history != []
    requires FanOutRuns.Legal(FanOf(cfg, s, h, paths), fan, inner)
    ensures Legal(cfg, InFan(cfg, s, h, paths, fan), steps) && NoPush(steps)
    ensures var end := FanOutRuns.After(FanOf(cfg, s, h, paths), fan, inner);
            After(cfg, InFan(cfg, s, h, paths, fan), steps) == InFan(cfg, s, h, paths, end)
    decreases |inner|
  {
    if inner == [] {
      steps := [];
    } else {
      var fc, at := FanOf(cfg, s, h, paths), InFan(cfg, s, h, paths, fan);
      var fan1 := FanOut.Apply(fc, fan, inner[0]);
      FanStep(cfg, s, h, paths, fan, inner[0]);
      var rest := FanRun(cfg, s, h, paths, fan1, inner[1..]);
      LegalCons(cfg, at, Fan(h, inner[0]), rest);
      steps := [Fan(h, inner[0])] + rest;
    }
  }

  lemma FanStep(cfg: Config, s: State, h: nat, paths: seq<Path>, fan: FanOut.State, step: FanOut.Step)
    requires h < |s.handlers| == |cfg.posted| && s.history != []
    requires FanOut.Enabled(FanOf(cfg, s, h, paths), fan, step)
    ensures Enabled(cfg, InFan(cfg, s, h, paths, fan), Fan(h, step))
    ensures Apply(cfg, InFan(cfg, s, h, paths, fan), Fan(h, step))
         == InFan(cfg, s, h, paths, FanOut.Apply(FanOf(cfg, s, h, paths), fan, step))
  {
    var at := InFan(cfg, s, h, paths, fan);
    var fan' := FanOut.Apply(FanOf(cfg, s, h, paths), fan, step);
    assert at.handlers[h := at.handlers[h].(state := fan')] == InFan(cfg, s, h, paths, fan').handlers;
  }

  /** Clone and scan. */
  lemma ScanRun(cfg: Config, s: State, h: nat, paths: seq<Path>) returns (steps: seq<Step>)
    requires h < |s.handlers| == |cfg.posted| && s.history != [] && s.handlers[h].Idle?
    requires paths != [] && MayReturn(cfg.posted[h], Tip(s), paths)
    ensures Legal(cfg, s, steps) && NoPush(steps)
    ensures After(cfg, s, steps) == InFan(cfg, s, h, paths, FanOut.Init(FanOf(cfg, s, h, paths)))
  {
    var s1 := Apply(cfg, s, Clone(h));
    assert s1.handlers[h] == Cloned(|s.history| - 1);
    var s2 := Apply(cfg, s1, Scan(h, paths));
    var goal := InFan(cfg, s, h, paths, FanOut.Init(FanOf(cfg, s, h, paths)));
    assert s2.handlers == goal.handlers;
    LegalCons(cfg, s1, Scan(h, paths), []);
    LegalCons(cfg, s, Clone(h), [Scan(h, paths)]);
    steps := [Clone(h)] + [Scan(h, paths)];
    assert After(cfg, s2, []) == s2;
  }

  function Ready(s: State, h: nat, paths: seq<Path>, tree: Tree): State
    requires h < |s.handlers| && s.history != []
  {
    Move(s, h, ReadyToPush(|s.history| - 1, tree, paths))
  }

  function Pushed(s: State, h: nat, paths: seq<Path>, tree: Tree): State
    requires h < |s.handlers|
  {
    State(s.history + [Commit(tree, h, paths)], s.handlers[h := Published(|s.history|)])
  }

  /** A handler with a list its scan may return, and a fan-out over it that passes, gets as far as its push. */
  lemma ReadyRun(cfg: Config, s: State, h: nat, paths: seq<Path>, end: FanOut.State) returns (steps: seq<Step>)
    requires h < |s.handlers| == |cfg.posted| && s.history != [] && s.handlers[h].Idle?
    requires paths != [] && MayReturn(cfg.posted[h], Tip(s), paths)
    requires FanOutRuns.Reachable(FanOf(cfg, s, h, paths), end) && end.verdict.Passed?
    ensures Legal(cfg, s, steps) && NoPush(steps) && After(cfg, s, steps) == Ready(s, h, paths, end.files)
  {
    var fc := FanOf(cfg, s, h, paths);
    var inner :| FanOutRuns.Legal(fc, FanOut.Init(fc), inner) && FanOutRuns.After(fc, FanOut.Init(fc), inner) == end;
    var a := ScanRun(cfg, s, h, paths);
    var b := FanRun(cfg, s, h, paths, FanOut.Init(fc), inner);
    var mid := InFan(cfg, s, h, paths, end);
    GateStep(cfg, s, h, paths, end);
    LegalCons(cfg, mid, Gate(h), []);
    RunThen(cfg, InFan(cfg, s, h, paths, FanOut.Init(fc)), b, mid, [Gate(h)]);
    RunThen(cfg, s, a, InFan(cfg, s, h, paths, FanOut.Init(fc)), b + [Gate(h)]);
    assert [Gate(h)] + [] == [Gate(h)];
    steps := a + (b + [Gate(h)]);
  }

  lemma GateStep(cfg: Config, s: State, h: nat, paths: seq<Path>, end: FanOut.State)
    requires h < |s.handlers| == |cfg.posted| && s.history != [] && end.verdict.Passed?
    ensures Enabled(cfg, InFan(cfg, s, h, paths, end), Gate(h))
    ensures Apply(cfg, InFan(cfg, s, h, paths, end), Gate(h)) == Ready(s, h, paths, end.files)
  {
    var at := InFan(cfg, s, h, paths, end);
    assert at.handlers[h := ReadyToPush(|s.history| - 1, end.files, paths)] == Ready(s, h, paths, end.files).handlers;
  }

  /** If nobody pushed since, the push is accepted. */
  lemma PushStep(cfg: Config, s: State, h: nat, paths: seq<Path>, tree: Tree)
    requires h < |s.handlers| == |cfg.posted| && s.history != []
    ensures Enabled(cfg, Ready(s, h, paths, tree), Push(h))
    ensures Apply(cfg, Ready(s, h, paths, tree), Push(h)) == Pushed(s, h, paths, tree)
  {
    var at := Ready(s, h, paths, tree);
    assert at.handlers[h := Published(|s.history|)] == Pushed(s, h, paths, tree).handlers;
  }

  /** So whatever a fan-out over the tip may end in can become the next tip. */
  lemma PublishRun(cfg: Config, s: State, h: nat, paths: seq<Path>, end: FanOut.State) returns (s': State)
    requires Reachable(cfg, s) && h < |s.handlers| == |cfg.posted| && s.history != [] && s.handlers[h].Idle?
    requires paths != [] && MayReturn(cfg.posted[h], Tip(s), paths)
    requires FanOutRuns.Reachable(FanOf(cfg, s, h, paths), end) && end.verdict.Passed?
    ensures Reachable(cfg, s') && s' == Pushed(s, h, paths, end.files)
  {
    var before :| Legal(cfg, Init(cfg), before) && After(cfg, Init(cfg), before) == s;
    var steps := ReadyRun(cfg, s, h, paths, end);
    var ready := Ready(s, h, paths, end.files);
    PushStep(cfg, s, h, paths, end.files);
    LegalCons(cfg, ready, Push(h), []);
    assert [Push(h)] + [] == [Push(h)];
    RunThen(cfg, s, steps, ready, [Push(h)]);
    RunThen(cfg, Init(cfg), before, s, steps + [Push(h)]);
    s' := Pushed(s, h, paths, end.files);
  }

  /** Every file with a wanted document can be updated. */
  ghost predicate WantedUpdatable(o: Posted, tree: Tree) {
    forall p | HasWanted(o, tree, p) :: UpdatableIn(RequestOf(o), tree, p)
  }

  lemma ListedUpdatable(o: Posted, tree: Tree, paths: seq<Path>)
    requires MayReturn(o, tree, paths) && WantedUpdatable(o, tree)
    ensures AllUpdatableIn(RequestOf(o), tree, paths)
  {
    ScanFindsWanted(o, tree, paths);
  }

  lemma {:induction false} WantedIsSelected(o: Posted, docs: seq<Document>)
    ensures ScannerRuns.Selected(FilterOf(o), docs) > 0 <==> exists d | d in docs :: Wanted(o, d)
  {
    if docs != [] {
      WantedIsSelected(o, docs[1..]);
      assert docs == [docs[0]] + docs[1..];
    }
  }

  /** A post can do its work: from every state whose tip is decodable and has files with a wanted document, all
      of them updatable, an idle handler may publish the update of every one of them. */
  lemma PostCanBePublished(cfg: Config, s: State, h: nat, p: Path) returns (s': State, paths: seq<Path>)
    requires Reachable(cfg, s) && h < |s.handlers| == |cfg.posted| && s.history != [] && s.handlers[h].Idle?
    requires Decodable(Tip(s)) && WantedUpdatable(cfg.posted[h], Tip(s)) && HasWanted(cfg.posted[h], Tip(s), p)
    ensures Reachable(cfg, s') && MayReturn(cfg.posted[h], Tip(s), paths)
    ensures s'.history == s.history + [Commit(ApplyAll(RequestOf(cfg.posted[h]), paths, Tip(s)), h, paths)]
    ensures forall q :: q in paths <==> HasWanted(cfg.posted[h], Tip(s), q)
  {
    var o := cfg.posted[h];
    paths := WholeScanReturns(o, Tip(s));
    forall q ensures q in paths <==> HasWanted(o, Tip(s), q) {
      assert q in paths <==> multiset(paths)[q] > 0;
      if q in Tip(s) {
        WantedIsSelected(o, Tip(s)[q]);
      }
    }
    ListedUpdatable(o, Tip(s), paths);
    assert p in paths;
    var end := FanOutRuns.AllUpdatesCount(FanOf(cfg, s, h, paths));
    s' := PublishRun(cfg, s, h, paths, end);
  }

  /* ---------- a branch that loses a replica ---------- */

  lemma InitReachable(cfg: Config)
    ensures Reachable(cfg, Init(cfg))
  {
    assert Legal(cfg, Init(cfg), []) && After(cfg, Init(cfg), []) == Init(cfg);
  }

  /** Every first commit of this handler that lists p adds one replica for each time it lists it, up to the
      maximum, as updates one after the other would. */
  ghost predicate EveryMatchCounts(cfg: Config, h: nat, p: Path, r: int, maxNodes: int) {
    forall s | Reachable(cfg, s) && |s.history| >= 2 && s.history[1].author == h && p in s.history[1].paths ::
      var c := s.history[1];
      p in c.tree && HasReplicas(c.tree[p], Min(r + multiset(c.paths)[p], maxNodes))
  }

  lemma GenuineCommitCounts(o: Posted, before: Tree, paths: seq<Path>, after: Tree, p: Path, r: int)
    requires Genuine(o, before, paths, after) && o.PostedNodeScaling? && p in paths
    requires p in before && HasReplicas(before[p], r) && 1 <= r <= o.maxNodes
    requires Hits(o, before, p) <= 1 || r + 1 >= o.maxNodes
    ensures p in after && HasReplicas(after[p], Min(r + multiset(paths)[p], o.maxNodes))
  {
    ScanNamesAtMost(o, before, paths, p);
    assert p in multiset(paths);
    FanOutRuns.RewriteCountsAll(o.maxNodes, paths, before, after, p, r);
  }

  lemma FirstCommitIsGenuine(cfg: Config, s: State)
    requires Reachable(cfg, s) && |s.history| >= 2
    ensures var c := s.history[1];
            c.author < |cfg.posted| && Genuine(cfg.posted[c.author], cfg.initial, c.paths, c.tree)
  {
    ReachableInv(cfg, s);
    HistoryIsGenuine(cfg, s);
  }

  lemma SingleMatchCounts(cfg: Config, h: nat, p: Path, r: int, maxNodes: int)
    requires h < |cfg.posted| && cfg.posted[h].PostedNodeScaling? && cfg.posted[h].maxNodes == maxNodes
    requires p in cfg.initial && HasReplicas(cfg.initial[p], r) && 1 <= r <= maxNodes
    requires Hits(cfg.posted[h], cfg.initial, p) <= 1 || r + 1 >= maxNodes
    ensures EveryMatchCounts(cfg, h, p, r, maxNodes)
  {
    forall s | Reachable(cfg, s) && |s.history| >= 2 && s.history[1].author == h && p in s.history[1].paths
      ensures p in s.history[1].tree
      ensures HasReplicas(s.history[1].tree[p], Min(r + multiset(s.history[1].paths)[p], maxNodes))
    {
      FirstCommitIsGenuine(cfg, s);
      GenuineCommitCounts(cfg.posted[h], cfg.initial, s.history[1].paths, s.history[1].tree, p, r);
    }
  }

  lemma RepeatedMatchLost(cfg: Config, h: nat, p: Path, r: int, maxNodes: int)
    requires h < |cfg.posted| && cfg.posted[h].PostedNodeScaling? && cfg.posted[h].maxNodes == maxNodes
    requires p in cfg.initial && HasReplicas(cfg.initial[p], r) && 1 <= r && r + 1 < maxNodes
    requires Decodable(cfg.initial) && WantedUpdatable(cfg.posted[h], cfg.initial)
    requires Hits(cfg.posted[h], cfg.initial, p) > 1
    ensures !EveryMatchCounts(cfg, h, p, r, maxNodes)
  {
    var o, s := cfg.posted[h], Init(cfg);
    InitReachable(cfg);
    var paths := WholeScanReturns(o, cfg.initial);
    assert multiset(paths)[p] > 1 && p in paths;
    ListedUpdatable(o, cfg.initial, paths);
    var end := FanOutRuns.SomeScheduleFallsShort(FanOf(cfg, s, h, paths), maxNodes, p, r);
    var s' := PublishRun(cfg, s, h, paths, end);
    assert s'.history[1] == Commit(end.files, h, paths);
  }

  /** On the branch itself: over a decodable tree whose wanted files can all be updated, every match of the file
      counts in every run of the concurrent server exactly when the file has at most one wanted document, or
      the first update already reaches maxNodes. */
  lemma EveryMatchCountsIff(cfg: Config, h: nat, p: Path, r: int, maxNodes: int)
    requires h < |cfg.posted| && cfg.posted[h].PostedNodeScaling? && cfg.posted[h].maxNodes == maxNodes
    requires p in cfg.initial && HasReplicas(cfg.initial[p], r) && 1 <= r <= maxNodes
    requires Decodable(cfg.initial) && WantedUpdatable(cfg.posted[h], cfg.initial)
    ensures EveryMatchCounts(cfg, h, p, r, maxNodes)
            <==> Hits(cfg.posted[h], cfg.initial, p) <= 1 || r + 1 >= maxNodes
  {
    if Hits(cfg.posted[h], cfg.initial, p) <= 1 || r + 1 >= maxNodes {
      SingleMatchCounts(cfg, h, p, r, maxNodes);
    } else {
      RepeatedMatchLost(cfg, h, p, r, maxNodes);
    }
  }
}
