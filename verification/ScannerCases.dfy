/** The corners of the scanner: where a file and a walk are cut short, and what a cancellation does. */
module ScannerCases {
  import opened Manifests
  import opened Scanner
  import opened ScannerRuns

  /* ---------- cut short ---------- */

  /** A file reports every match before its first undecodable document, and none behind it. */
  lemma {:induction false} UndecodableCutsFile(f: Filter, path: Path, good: seq<Document>, rest: seq<Document>)
    requires CleanDocs(good)
    ensures DocMatches(f, path, good + [Undecodable] + rest, path) == Selected(f, good)
  {
    var docs := good + [Undecodable] + rest;
    if good == [] {
      assert docs[0] == Undecodable;
    } else {
      UndecodableCutsFile(f, path, good[1..], rest);
      assert docs[1..] == good[1..] + [Undecodable] + rest && docs[0] == good[0];
    }
  }

  /** A walk error cuts the walk: files before it count, files behind it do not. */
  lemma {:induction false} WalkErrorCutsWalk(f: Filter, before: seq<WalkItem>, rest: seq<WalkItem>, p: Path)
    requires forall i | 0 <= i < |before| :: !before[i].WalkError?
    ensures WalkMatches(f, before + [WalkError] + rest, p) == WalkMatches(f, before, p)
  {
    var walk := before + [WalkError] + rest;
    if before == [] {
      assert walk[0] == WalkError;
    } else {
      WalkErrorCutsWalk(f, before[1..], rest, p);
      assert walk[1..] == before[1..] + [WalkError] + rest && walk[0] == before[0];
    }
  }

  /** A readable file that passes the test counts all its matches, one that does not pass none. */
  lemma OneFileWalk(f: Filter, p: Path, docs: seq<Document>)
    requires CleanDocs(docs)
    ensures WalkMatches(f, [Regular(Entry(p, Readable(docs)))], p) == if f.file(p) then Selected(f, docs) else 0
    ensures WalkMatches(f, [Directory, Regular(Entry(p, Unreadable))], p) == 0
  {
    CleanDocMatches(f, p, docs);
    assert [Regular(Entry(p, Readable(docs)))][1..] == [];
    assert [Directory, Regular(Entry(p, Unreadable))][1..] == [Regular(Entry(p, Unreadable))];
    assert [Regular(Entry(p, Unreadable))][1..] == [];
  }

  /* ---------- cancellation ---------- */

  /** Whatever else goes on, a cancelled context lets a running collector return with the cancellation. */
  lemma CancellationReturns(cfg: Config, s: State)
    requires s.result.Running?
    ensures !s.ctxDone ==> Enabled(cfg, s, CancelContext) && Apply(cfg, s, CancelContext) == s.(ctxDone := true)
    ensures var cancelled := s.(ctxDone := true);
            && Enabled(cfg, cancelled, CollectCancel)
            && Apply(cfg, cancelled, CollectCancel) == cancelled.(result := Cancelled)
  {
  }

  /** The file a worker is decoding. */
  predicate Decodes(w: Worker, path: Path) {
    (w.Decoding? || w.Sending?) && w.path == path
  }

  lemma MoveOpensNoFile(f: Filter, w: Worker, fileCh: seq<Entry>, path: Path)
    ensures Decodes(WorkerMove(f, w, fileCh, true).next, path) ==> Decodes(w, path)
  {
  }

  lemma NoNewFile(cfg: Config, s: State, step: Step, i: nat, path: Path)
    requires s.ctxDone && Enabled(cfg, s, step) && i < |s.workers|
    ensures |Apply(cfg, s, step).workers| == |s.workers| && Apply(cfg, s, step).ctxDone
    ensures Decodes(Apply(cfg, s, step).workers[i], path) ==> Decodes(s.workers[i], path)
  {
    if step.Work? {
      MoveOpensNoFile(cfg.filter, s.workers[step.i], s.fileCh, path);
    }
  }

  /** Once the context is cancelled no worker starts on another file, however the run goes on: what it decodes
      later it was decoding then. */
  lemma {:induction false} CancelledWorkersFinish(cfg: Config, s: State, steps: seq<Step>, i: nat, path: Path)
    requires s.ctxDone && Legal(cfg, s, steps) && i < |s.workers|
    ensures |After(cfg, s, steps).workers| == |s.workers|
    ensures Decodes(After(cfg, s, steps).workers[i], path) ==> Decodes(s.workers[i], path)
    decreases |steps|
  {
    if steps != [] {
      NoNewFile(cfg, s, steps[0], i, path);
      CancelledWorkersFinish(cfg, Apply(cfg, s, steps[0]), steps[1..], i, path);
    }
  }

  /* ---------- the walker runs ahead ---------- */

  /** The walker has queued the first n files and nobody has received one. */
  function WalkedAhead(cfg: Config, n: nat): State
    requires n <= |cfg.walk| && forall i | 0 <= i < n :: cfg.walk[i].Regular?
  {
    Init(cfg).(unwalked := cfg.walk[n..], fileCh := seq(n, i requires 0 <= i < n => cfg.walk[i].entry))
  }

  /** The walker fills fileCh up to its capacity while no worker receives. */
  lemma {:induction false} WalkerFillsQueue(cfg: Config, n: nat) returns (steps: seq<Step>)
    requires n <= |cfg.walk| && n <= cfg.capacity
    requires forall i | 0 <= i < n :: cfg.walk[i].Regular? && cfg.filter.file(cfg.walk[i].entry.path)
    ensures Legal(cfg, Init(cfg), steps) && After(cfg, Init(cfg), steps) == WalkedAhead(cfg, n)
  {
    if n == 0 {
      steps := [];
      assert WalkedAhead(cfg, 0).fileCh == [] && cfg.walk[0..] == cfg.walk;
    } else {
      var before := WalkerFillsQueue(cfg, n - 1);
      var s := WalkedAhead(cfg, n - 1);
      assert s.unwalked[0] == cfg.walk[n - 1] && s.unwalked[1..] == cfg.walk[n..];
      assert s.fileCh + [cfg.walk[n - 1].entry] == WalkedAhead(cfg, n).fileCh;
      LegalAppend(cfg, Init(cfg), before, Walk);
      steps := before + [Walk];
    }
  }
}
