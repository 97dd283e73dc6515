/** Whole runs of the scanner: safety, deadlock freedom, termination, and exactly what its answer is worth. */
module ScannerRuns {
  import opened Manifests
  import opened Scanner

  /* ---------- every reachable state ---------- */

  lemma {:induction false} RunKeepsInv(cfg: Config, s: State, steps: seq<Step>)
    requires Inv(cfg, s) && Legal(cfg, s, steps)
    ensures Inv(cfg, After(cfg, s, steps))
    decreases |steps|
  {
    if steps != [] {
      StepKeepsInv(cfg, s, steps[0]);
      RunKeepsInv(cfg, Apply(cfg, s, steps[0]), steps[1..]);
    }
  }

  lemma ReachableInv(cfg: Config, s: State)
    requires Valid(cfg) && Reachable(cfg, s)
    ensures Inv(cfg, s)
  {
    InitInv(cfg);
    var steps :| Legal(cfg, Init(cfg), steps) && After(cfg, Init(cfg), steps) == s;
    RunKeepsInv(cfg, Init(cfg), steps);
  }

  /** No channel overflows, and whoever is about to send sends on an open channel. */
  lemma ChannelSafety(cfg: Config, s: State)
    requires Valid(cfg) && Reachable(cfg, s)
    ensures |s.fileCh| <= cfg.capacity && |s.matchCh| <= cfg.capacity
    ensures s.unwalked != [] ==> !s.fileClosed
    ensures forall i | 0 <= i < |s.workers| && s.workers[i].Sending? :: !s.matchClosed
  {
    ReachableInv(cfg, s);
  }

  /** Conservation: without a cancellation nothing is lost or invented on the way through the channels,
      whatever faults the tree holds. */
  lemma Conservation(cfg: Config, s: State, p: Path)
    requires Valid(cfg) && Reachable(cfg, s)
    ensures Times(s.collected, p) + Times(s.matchCh, p) + ToEmit(cfg.filter, s, p) <= Declared(cfg, p)
    ensures !s.ctxDone ==> Times(s.collected, p) + Times(s.matchCh, p) + ToEmit(cfg.filter, s, p) == Declared(cfg, p)
  {
    ReachableInv(cfg, s);
    assert Accounted(cfg.filter, s, p) <= Declared(cfg, p);
  }

  /* ---------- custody ---------- */

  function Unwalked(walk: seq<WalkItem>, path: Path): nat {
    if walk == [] then 0
    else (if walk[0].Regular? && walk[0].entry.path == path then 1 else 0) + Unwalked(walk[1..], path)
  }

  function Queued(q: seq<Entry>, path: Path): nat {
    if q == [] then 0 else (if q[0].path == path then 1 else 0) + Queued(q[1..], path)
  }

  function Holding(w: Worker, path: Path): nat {
    match w
    case Opening(e) => if e.path == path then 1 else 0
    case Decoding(p, _) => if p == path then 1 else 0
    case Sending(p, _) => if p == path then 1 else 0
    case _ => 0
  }

  function InHand(ws: seq<Worker>, path: Path): nat {
    if ws == [] then 0 else Holding(ws[0], path) + InHand(ws[1..], path)
  }

  /** In how many places a file is: ahead of the walker, in the queue, in a worker's hands. */
  function Places(s: State, path: Path): nat {
    Unwalked(s.unwalked, path) + Queued(s.fileCh, path) + InHand(s.workers, path)
  }

  lemma {:induction false} InHandUpdate(ws: seq<Worker>, i: nat, w: Worker, path: Path)
    requires i < |ws|
    ensures InHand(ws[i := w], path) + Holding(ws[i], path) == InHand(ws, path) + Holding(w, path)
  {
    if i == 0 {
      assert ws[0 := w][1..] == ws[1..];
    } else {
      InHandUpdate(ws[1..], i - 1, w, path);
      assert ws[i := w][1..] == ws[1..][i - 1 := w];
    }
  }

  lemma {:induction false} QueuedAppend(q: seq<Entry>, e: Entry, path: Path)
    ensures Queued(q + [e], path) == Queued(q, path) + Queued([e], path)
  {
    if q == [] {
      assert q + [e] == [e];
    } else {
      QueuedAppend(q[1..], e, path);
      assert (q + [e])[1..] == q[1..] + [e];
    }
  }

  lemma MoveHandsOver(f: Filter, w: Worker, fileCh: seq<Entry>, ctxDone: bool, path: Path)
    ensures var m := WorkerMove(f, w, fileCh, ctxDone);
            && (m.takes ==> fileCh != [])
            && Holding(m.next, path)
               <= Holding(w, path) + if m.takes && fileCh[0].path == path then 1 else 0
  {
  }

  lemma MoveKeepsPlaces(s: State, i: nat, m: Move, path: Path)
    requires i < |s.workers| && (m.takes ==> s.fileCh != [])
    requires Holding(m.next, path)
          <= Holding(s.workers[i], path) + if m.takes && s.fileCh[0].path == path then 1 else 0
    ensures Places(ApplyMove(s, i, m), path) <= Places(s, path)
  {
    InHandUpdate(s.workers, i, m.next, path);
  }

  lemma WorkKeepsPlaces(f: Filter, s: State, i: nat, path: Path)
    requires i < |s.workers|
    ensures Places(ApplyWork(f, s, i), path) <= Places(s, path)
  {
    MoveHandsOver(f, s.workers[i], s.fileCh, s.ctxDone, path);
    MoveKeepsPlaces(s, i, WorkerMove(f, s.workers[i], s.fileCh, s.ctxDone), path);
  }

  lemma WalkedToQueue(q: seq<Entry>, walk: seq<WalkItem>, path: Path)
    requires walk != [] && walk[0].Regular?
    ensures Queued(q + [walk[0].entry], path) + Unwalked(walk[1..], path) == Queued(q, path) + Unwalked(walk, path)
  {
    QueuedAppend(q, walk[0].entry, path);
    assert Queued([walk[0].entry], path) == if walk[0].entry.path == path then 1 else 0;
  }

  lemma UnwalkedHead(walk: seq<WalkItem>, path: Path)
    requires walk != []
    ensures Unwalked(walk[1..], path) <= Unwalked(walk, path)
  {
  }

  /** How often the file is still to be received. */
  function Ahead(s: State, path: Path): nat {
    Unwalked(s.unwalked, path) + Queued(s.fileCh, path)
  }

  lemma WalkKeepsAhead(f: Filter, s: State, path: Path)
    requires s.unwalked != []
    ensures Ahead(ApplyWalk(f, s), path) <= Ahead(s, path)
  {
    UnwalkedHead(s.unwalked, path);
    if s.unwalked[0].Regular? {
      WalkedToQueue(s.fileCh, s.unwalked, path);
    }
  }

  lemma WalkKeepsPlaces(f: Filter, s: State, path: Path)
    requires s.unwalked != []
    ensures Places(ApplyWalk(f, s), path) <= Places(s, path)
  {
    WalkKeepsAhead(f, s, path);
  }

  lemma StepKeepsPlaces(cfg: Config, s: State, step: Step, path: Path)
    requires Enabled(cfg, s, step)
    ensures Places(Apply(cfg, s, step), path) <= Places(s, path)
  {
    if step.Work? {
      WorkKeepsPlaces(cfg.filter, s, step.i, path);
    } else if step.Walk? {
      WalkKeepsPlaces(cfg.filter, s, path);
    }
  }

  lemma {:induction false} RunKeepsPlaces(cfg: Config, s: State, steps: seq<Step>, path: Path)
    requires Legal(cfg, s, steps)
    ensures Places(After(cfg, s, steps), path) <= Places(s, path)
    decreases |steps|
  {
    if steps != [] {
      StepKeepsPlaces(cfg, s, steps[0], path);
      RunKeepsPlaces(cfg, Apply(cfg, s, steps[0]), steps[1..], path);
    }
  }

  lemma {:induction false} DistinctWalkedOnce(walk: seq<WalkItem>, path: Path)
    requires DistinctPaths(walk)
    ensures Unwalked(walk, path) <= 1
    ensures Unwalked(walk, path) == 1 ==> exists i | 0 <= i < |walk| :: walk[i].Regular? && walk[i].entry.path == path
  {
    if walk != [] {
      DistinctWalkedOnce(walk[1..], path);
      if Unwalked(walk[1..], path) == 1 {
        var i :| 0 <= i < |walk[1..]| && walk[1..][i].Regular? && walk[1..][i].entry.path == path;
        assert walk[i + 1].entry.path == path;
      }
    }
  }

  lemma {:induction false} NobodyHolds(ws: seq<Worker>, path: Path)
    requires forall i | 0 <= i < |ws| :: ws[i].Idle?
    ensures InHand(ws, path) == 0
  {
    if ws != [] {
      NobodyHolds(ws[1..], path);
    }
  }

  /** Every file is in at most one place in every reachable state. */
  lemma OnePlacePerFile(cfg: Config, s: State, path: Path)
    requires DistinctPaths(cfg.walk) && Reachable(cfg, s)
    ensures Places(s, path) <= 1
  {
    var steps :| Legal(cfg, Init(cfg), steps) && After(cfg, Init(cfg), steps) == s;
    RunKeepsPlaces(cfg, Init(cfg), steps, path);
    DistinctWalkedOnce(cfg.walk, path);
    NobodyHolds(Init(cfg).workers, path);
  }

  /** In this step some worker receives the file from fileCh. */
  predicate Receives(s: State, step: Step, path: Path) {
    && step.Work? && step.i < |s.workers| && s.workers[step.i].Idle?
    && s.fileCh != [] && s.fileCh[0].path == path
  }

  /** How often workers, whichever they are, receive the file along a run. */
  function Receipts(cfg: Config, s: State, steps: seq<Step>, path: Path): nat
    requires Legal(cfg, s, steps)
    decreases |steps|
  {
    if steps == [] then 0
    else (if Receives(s, steps[0], path) then 1 else 0) + Receipts(cfg, Apply(cfg, s, steps[0]), steps[1..], path)
  }

  lemma WorkUsesUp(f: Filter, s: State, i: nat, path: Path)
    requires i < |s.workers|
    ensures Ahead(ApplyWork(f, s, i), path) + (if Receives(s, Work(i), path) then 1 else 0) <= Ahead(s, path)
  {
  }

  lemma ReceiptUsesUp(cfg: Config, s: State, step: Step, path: Path)
    requires Enabled(cfg, s, step)
    ensures Ahead(Apply(cfg, s, step), path) + (if Receives(s, step, path) then 1 else 0) <= Ahead(s, path)
  {
    if step.Walk? {
      WalkKeepsAhead(cfg.filter, s, path);
    } else if step.Work? {
      WorkUsesUp(cfg.filter, s, step.i, path);
    }
  }

  lemma {:induction false} ReceiptsAreBounded(cfg: Config, s: State, steps: seq<Step>, path: Path)
    requires Legal(cfg, s, steps)
    ensures Receipts(cfg, s, steps, path) + Ahead(After(cfg, s, steps), path) <= Ahead(s, path)
    decreases |steps|
  {
    if steps != [] {
      ReceiptUsesUp(cfg, s, steps[0], path);
      ReceiptsAreBounded(cfg, Apply(cfg, s, steps[0]), steps[1..], path);
    }
  }

  /** Along every run of the scanner a file is received at most once, so by at most one worker. */
  lemma OneWorkerPerFile(cfg: Config, steps: seq<Step>, path: Path)
    requires DistinctPaths(cfg.walk) && Legal(cfg, Init(cfg), steps)
    ensures Receipts(cfg, Init(cfg), steps, path) <= 1
  {
    ReceiptsAreBounded(cfg, Init(cfg), steps, path);
    DistinctWalkedOnce(cfg.walk, path);
  }

  /* ---------- the two successful exits ---------- */

  predicate Succeeded(s: State) {
    s.result.ByClosedChannel? || s.result.ByDone?
  }

  /** Fault-free and not cancelled: the exit through the closed matchCh returns every declared match, the
      exit through done returns them all but what is left in matchCh; the scan never fails. */
  lemma ExactExit(cfg: Config, s: State)
    requires Valid(cfg) && Reachable(cfg, s) && CleanWalk(cfg.filter, cfg.walk) && !s.ctxDone
    ensures !s.result.Failed? && !s.result.Cancelled?
    ensures s.result.ByClosedChannel? ==> forall p :: Times(s.collected, p) == Declared(cfg, p)
    ensures s.result.ByDone? ==> forall p :: Times(s.collected, p) + Times(s.matchCh, p) == Declared(cfg, p)
  {
    ReachableInv(cfg, s);
    if Succeeded(s) {
      assert s.workers[0].Exited?;
      forall p ensures Times(s.collected, p) + Times(s.matchCh, p) == Declared(cfg, p) {
        IdleWorkersHoldNothing(cfg.filter, s.workers, p);
        assert Accounted(cfg.filter, s, p) == Declared(cfg, p);
      }
    }
  }

  /** Bounded loss: fault-free and not cancelled, a scan that succeeds misses at most what matchCh has room for. */
  lemma LossIsBounded(cfg: Config, s: State)
    requires Valid(cfg) && Reachable(cfg, s) && CleanWalk(cfg.filter, cfg.walk) && !s.ctxDone && Succeeded(s)
    ensures exists missed: seq<Path> :: |missed| <= cfg.capacity
              && forall p :: Times(s.collected, p) + Times(missed, p) == Declared(cfg, p)
  {
    ReachableInv(cfg, s);
    ExactExit(cfg, s);
    var missed := if s.result.ByDone? then s.matchCh else [];
    assert |missed| <= cfg.capacity;
    assert forall p :: Times(s.collected, p) + Times(missed, p) == Declared(cfg, p);
  }

  /* ---------- what the declared matches are ---------- */

  /** Some document of the list, before any undecodable one, passes the filter. */
  ghost predicate MatchesIn(f: Filter, docs: seq<Document>) {
    exists i | 0 <= i < |docs| :: f.document(docs[i]) && forall j | 0 <= j <= i :: docs[j].Document?
  }

  function Selected(f: Filter, docs: seq<Document>): nat {
    if docs == [] then 0 else (if f.document(docs[0]) then 1 else 0) + Selected(f, docs[1..])
  }

  lemma {:induction false} DocMatchesMeaning(f: Filter, path: Path, docs: seq<Document>, p: Path)
    ensures DocMatches(f, path, docs, p) <= Selected(f, docs)
    ensures DocMatches(f, path, docs, p) > 0 <==> path == p && MatchesIn(f, docs)
  {
    if docs != [] && docs[0].Document? {
      DocMatchesMeaning(f, path, docs[1..], p);
      if MatchesIn(f, docs[1..]) {
        var i :| 0 <= i < |docs[1..]| && f.document(docs[1..][i]) && forall j | 0 <= j <= i :: docs[1..][j].Document?;
        assert f.document(docs[i + 1]) && forall j | 0 <= j <= i + 1 :: docs[j].Document? by {
          forall j | 0 <= j <= i + 1 ensures docs[j].Document? {
            if j > 0 {
              assert docs[1..][j - 1].Document?;
            }
          }
        }
      }
      if MatchesIn(f, docs) && !f.document(docs[0]) {
        var i :| 0 <= i < |docs| && f.document(docs[i]) && forall j | 0 <= j <= i :: docs[j].Document?;
        assert f.document(docs[1..][i - 1]) && forall j | 0 <= j <= i - 1 :: docs[1..][j].Document?;
      }
    }
  }

  lemma {:induction false} CleanDocMatches(f: Filter, p: Path, docs: seq<Document>)
    requires CleanDocs(docs)
    ensures DocMatches(f, p, docs, p) == Selected(f, docs)
  {
    if docs != [] {
      CleanDocMatches(f, p, docs[1..]);
    }
  }

  lemma {:induction false} OtherDocMatches(f: Filter, path: Path, docs: seq<Document>, p: Path)
    requires path != p
    ensures DocMatches(f, path, docs, p) == 0
  {
    if docs != [] {
      OtherDocMatches(f, path, docs[1..], p);
    }
  }

  /** The walk reports this file, and its content holds a match. */
  ghost predicate Matching(f: Filter, item: WalkItem, p: Path) {
    && item.Regular? && item.entry.path == p && f.file(p)
    && item.entry.reading.Readable? && MatchesIn(f, item.entry.reading.docs)
  }

  lemma {:induction false} WalkMatchesMeaning(f: Filter, walk: seq<WalkItem>, p: Path)
    ensures WalkMatches(f, walk, p) > 0 ==> exists i | 0 <= i < |walk| :: Matching(f, walk[i], p)
  {
    if walk != [] && !walk[0].WalkError? {
      if walk[0].Regular? && walk[0].entry.reading.Readable? {
        DocMatchesMeaning(f, walk[0].entry.path, walk[0].entry.reading.docs, p);
      }
      if WalkMatches(f, walk[1..], p) > 0 {
        WalkMatchesMeaning(f, walk[1..], p);
        var i :| 0 <= i < |walk[1..]| && Matching(f, walk[1..][i], p);
        assert Matching(f, walk[i + 1], p);
      } else if WalkMatches(f, walk, p) > 0 {
        assert Matching(f, walk[0], p);
      }
    }
  }

  /** The converse, for a walk that meets no error: a matching file is declared. */
  lemma {:induction false} MatchingIsDeclared(f: Filter, walk: seq<WalkItem>, i: nat, p: Path)
    requires i < |walk| && Matching(f, walk[i], p) && forall j | 0 <= j < i :: !walk[j].WalkError?
    ensures WalkMatches(f, walk, p) > 0
  {
    if i == 0 {
      DocMatchesMeaning(f, p, walk[0].entry.reading.docs, p);
    } else {
      assert !walk[0].WalkError?;
      MatchingIsDeclared(f, walk[1..], i - 1, p);
    }
  }

  predicate DistinctPaths(walk: seq<WalkItem>) {
    forall i, j | 0 <= i < j < |walk| && walk[i].Regular? && walk[j].Regular? ::
      walk[i].entry.path != walk[j].entry.path
  }

  predicate SingleMatchItem(f: Filter, item: WalkItem) {
    item.Regular? && item.entry.reading.Readable? ==> Selected(f, item.entry.reading.docs) <= 1
  }

  predicate SingleMatchFiles(f: Filter, walk: seq<WalkItem>) {
    forall i | 0 <= i < |walk| :: SingleMatchItem(f, walk[i])
  }

  lemma {:induction false} SingleMatchesDeclaredOnce(f: Filter, walk: seq<WalkItem>, p: Path)
    requires DistinctPaths(walk) && SingleMatchFiles(f, walk)
    ensures WalkMatches(f, walk, p) <= 1
  {
    if walk != [] && !walk[0].WalkError? {
      SingleMatchesDeclaredOnce(f, walk[1..], p);
      assert SingleMatchItem(f, walk[0]);
      if walk[0].Regular? && walk[0].entry.reading.Readable? {
        DocMatchesMeaning(f, walk[0].entry.path, walk[0].entry.reading.docs, p);
      }
      if WalkMatches(f, walk[1..], p) > 0 {
        WalkMatchesMeaning(f, walk[1..], p);
        var i :| 0 <= i < |walk[1..]| && Matching(f, walk[1..][i], p);
        assert walk[i + 1].entry.path == p;
      }
    }
  }

  lemma CountAtMostOneIsDistinct(paths: seq<Path>)
    requires forall p :: Times(paths, p) <= 1
    ensures Distinct(paths)
  {
    forall i, j | 0 <= i < j < |paths| ensures paths[i] != paths[j] {
      assert paths == paths[..j] + paths[j..];
      assert paths[i] == paths[..j][i] && paths[j] == paths[j..][0];
      assert paths[i] in multiset(paths[..j]) && paths[j] in multiset(paths[j..]);
      assert multiset(paths) == multiset(paths[..j]) + multiset(paths[j..]);
      assert Times(paths, paths[i]) <= 1;
    }
  }

  /** Every path the collector holds was walked, passes the file filter and has a matching document;
      and when each file has at most one match, no path is held twice. This needs neither luck nor the
      absence of faults or cancellation. */
  lemma CollectedAreMatches(cfg: Config, s: State)
    requires Valid(cfg) && Reachable(cfg, s)
    ensures forall p | p in s.collected :: exists i | 0 <= i < |cfg.walk| :: Matching(cfg.filter, cfg.walk[i], p)
    ensures DistinctPaths(cfg.walk) && SingleMatchFiles(cfg.filter, cfg.walk) ==> Distinct(s.collected)
  {
    forall p ensures Times(s.collected, p) <= Declared(cfg, p) {
      Conservation(cfg, s, p);
    }
    forall p | p in s.collected ensures exists i | 0 <= i < |cfg.walk| :: Matching(cfg.filter, cfg.walk[i], p) {
      assert Times(s.collected, p) > 0;
      WalkMatchesMeaning(cfg.filter, cfg.walk, p);
    }
    if DistinctPaths(cfg.walk) && SingleMatchFiles(cfg.filter, cfg.walk) {
      forall p ensures Times(s.collected, p) <= 1 {
        SingleMatchesDeclaredOnce(cfg.filter, cfg.walk, p);
      }
      CountAtMostOneIsDistinct(s.collected);
    }
  }

  /* ---------- termination ---------- */

  function EntryCost(e: Entry): nat {
    if e.reading.Unreadable? then 3 else 3 * |e.reading.docs| + 3
  }

  function QueueCost(q: seq<Entry>): nat {
    if q == [] then 0 else EntryCost(q[0]) + QueueCost(q[1..])
  }

  function WalkCost(walk: seq<WalkItem>): nat {
    if walk == [] then 0 else 1 + (if walk[0].Regular? then EntryCost(walk[0].entry) else 0) + WalkCost(walk[1..])
  }

  function WorkerCost(w: Worker): nat {
    match w
    case Idle => 1
    case Opening(e) => EntryCost(e)
    case Decoding(_, rest) => 3 * |rest| + 2
    case Sending(_, rest) => 3 * |rest| + 4
    case Exited => 0
  }

  function WorkersCost(ws: seq<Worker>): nat {
    if ws == [] then 0 else WorkerCost(ws[0]) + WorkersCost(ws[1..])
  }

  function Flag(open: bool): nat {
    if open then 1 else 0
  }

  /** An upper bound on the number of steps a state still admits. */
  function Measure(s: State): nat {
    WalkCost(s.unwalked) + QueueCost(s.fileCh) + WorkersCost(s.workers) + |s.matchCh|
    + Flag(!s.fileClosed) + Flag(!s.matchClosed) + Flag(!s.doneClosed) + Flag(!s.ctxDone) + Flag(s.result.Running?)
  }

  lemma {:induction false} WorkersCostUpdate(ws: seq<Worker>, i: nat, w: Worker)
    requires i < |ws|
    ensures WorkersCost(ws[i := w]) + WorkerCost(ws[i]) == WorkersCost(ws) + WorkerCost(w)
  {
    if i == 0 {
      assert ws[0 := w][1..] == ws[1..];
    } else {
      WorkersCostUpdate(ws[1..], i - 1, w);
      assert ws[i := w][1..] == ws[1..][i - 1 := w];
    }
  }

  lemma {:induction false} QueueCostAppend(q: seq<Entry>, e: Entry)
    ensures QueueCost(q + [e]) == QueueCost(q) + EntryCost(e)
  {
    if q == [] {
      assert [e][1..] == [];
    } else {
      QueueCostAppend(q[1..], e);
      assert (q + [e])[1..] == q[1..] + [e];
    }
  }

  lemma MoveLowersCost(f: Filter, w: Worker, fileCh: seq<Entry>, ctxDone: bool)
    requires !w.Exited?
    ensures var m := WorkerMove(f, w, fileCh, ctxDone);
            WorkerCost(m.next) + |m.sends| < WorkerCost(w) + (if m.takes then EntryCost(fileCh[0]) else 0)
  {
  }

  lemma CheaperMove(s: State, i: nat, m: Move)
    requires i < |s.workers| && (m.takes ==> s.fileCh != [])
    requires WorkerCost(m.next) + |m.sends|
           < WorkerCost(s.workers[i]) + (if m.takes then EntryCost(s.fileCh[0]) else 0)
    ensures Measure(ApplyMove(s, i, m)) < Measure(s)
  {
    WorkersCostUpdate(s.workers, i, m.next);
  }

  lemma WorkLowersMeasure(cfg: Config, s: State, i: nat)
    requires WorkEnabled(cfg, s, i)
    ensures Measure(ApplyWork(cfg.filter, s, i)) < Measure(s)
  {
    MoveLowersCost(cfg.filter, s.workers[i], s.fileCh, s.ctxDone);
    CheaperMove(s, i, WorkerMove(cfg.filter, s.workers[i], s.fileCh, s.ctxDone));
  }

  lemma WalkedCost(f: Filter, q: seq<Entry>, walk: seq<WalkItem>)
    requires walk != []
    ensures var q' := if walk[0].Regular? && f.file(walk[0].entry.path) then q + [walk[0].entry] else q;
            var walk' := if walk[0].WalkError? then [] else walk[1..];
            QueueCost(q') + WalkCost(walk') < QueueCost(q) + WalkCost(walk)
  {
    if walk[0].Regular? {
      QueueCostAppend(q, walk[0].entry);
    }
  }

  lemma WalkLowersMeasure(f: Filter, s: State)
    requires s.unwalked != []
    ensures Measure(ApplyWalk(f, s)) < Measure(s)
  {
    WalkedCost(f, s.fileCh, s.unwalked);
  }

  lemma StepLowersMeasure(cfg: Config, s: State, step: Step)
    requires Enabled(cfg, s, step)
    ensures Measure(Apply(cfg, s, step)) < Measure(s)
  {
    if step.Work? {
      WorkLowersMeasure(cfg, s, step.i);
    } else if step.Walk? {
      WalkLowersMeasure(cfg.filter, s);
    }
  }

  /** Every run is finite: its length is bounded by a number read off the tree. */
  lemma {:induction false} RunsAreBounded(cfg: Config, s: State, steps: seq<Step>)
    requires Legal(cfg, s, steps)
    ensures |steps| + Measure(After(cfg, s, steps)) <= Measure(s)
    decreases |steps|
  {
    if steps != [] {
      StepLowersMeasure(cfg, s, steps[0]);
      RunsAreBounded(cfg, Apply(cfg, s, steps[0]), steps[1..]);
    }
  }

  /* ---------- deadlock freedom ---------- */

  /** While done is open some goroutine other than the collector can move, unless all of them wait for
      room in a full matchCh. */
  lemma SomeGoroutineMoves(cfg: Config, s: State) returns (step: Step)
    requires Valid(cfg) && ChannelsSafe(cfg, s) && !s.doneClosed
    requires |s.matchCh| < cfg.capacity || forall i | 0 <= i < |s.workers| :: !s.workers[i].Sending?
    ensures Enabled(cfg, s, step)
    ensures step.Walk? || step.CloseFiles? || step.Work? || step.CloseMatches? || step.CloseDone?
  {
    if AllExited(s.workers) {
      step := if s.matchClosed then CloseDone else CloseMatches;
    } else {
      var i :| 0 <= i < |s.workers| && !s.workers[i].Exited?;
      if !s.workers[i].Idle? || s.fileCh != [] || s.fileClosed {
        step := Work(i);
      } else {
        step := if s.unwalked == [] then CloseFiles else Walk;
      }
    }
  }

  /** Deadlock freedom: as long as the collector has not returned, some step other than an outside
      cancellation is enabled, with or without faults. */
  lemma Progress(cfg: Config, s: State) returns (step: Step)
    requires Valid(cfg) && Reachable(cfg, s) && s.result.Running?
    ensures Enabled(cfg, s, step) && !step.CancelContext?
  {
    ReachableInv(cfg, s);
    if s.doneClosed {
      step := CollectDone;
    } else if s.matchCh != [] {
      step := CollectMatch;
    } else {
      step := SomeGoroutineMoves(cfg, s);
    }
  }

  /** A scheduler names an enabled step whenever the collector is still running. */
  ghost predicate Schedules(cfg: Config, sched: (nat, State) -> Step) {
    forall n: nat, s: State :: Inv(cfg, s) && s.result.Running? ==> Enabled(cfg, s, sched(n, s))
  }

  /** Running the system under any scheduler returns, and the answer obeys the conservation law. */
  method Scan(cfg: Config, sched: (nat, State) -> Step) returns (s: State)
    requires Valid(cfg) && Schedules(cfg, sched)
    ensures !s.result.Running? && Inv(cfg, s)
    ensures forall p :: Times(s.collected, p) <= Declared(cfg, p)
    ensures CleanWalk(cfg.filter, cfg.walk) && !s.ctxDone ==>
              forall p ::
                Times(s.collected, p) + (if s.result.ByDone? then Times(s.matchCh, p) else 0) == Declared(cfg, p)
  {
    s := Init(cfg);
    InitInv(cfg);
    var n := 0;
    ghost var steps: seq<Step> := [];
    while s.result.Running?
      invariant Inv(cfg, s)
      invariant Legal(cfg, Init(cfg), steps) && After(cfg, Init(cfg), steps) == s
      decreases Measure(s)
    {
      var step := sched(n, s);
      StepKeepsInv(cfg, s, step);
      StepLowersMeasure(cfg, s, step);
      LegalAppend(cfg, Init(cfg), steps, step);
      steps := steps + [step];
      s := Apply(cfg, s, step);
      n := n + 1;
    }
    forall p ensures Times(s.collected, p) <= Declared(cfg, p) {
      Conservation(cfg, s, p);
    }
    if CleanWalk(cfg.filter, cfg.walk) && !s.ctxDone {
      ExactExit(cfg, s);
    }
  }

  lemma {:induction false} LegalAppend(cfg: Config, s: State, steps: seq<Step>, step: Step)
    requires Legal(cfg, s, steps) && Enabled(cfg, After(cfg, s, steps), step)
    ensures Legal(cfg, s, steps + [step]) && After(cfg, s, steps + [step]) == Apply(cfg, After(cfg, s, steps), step)
    decreases |steps|
  {
    if steps == [] {
      assert [step][1..] == [];
    } else {
      LegalAppend(cfg, Apply(cfg, s, steps[0]), steps[1..], step);
      assert (steps + [step])[1..] == steps[1..] + [step];
    }
  }
}
