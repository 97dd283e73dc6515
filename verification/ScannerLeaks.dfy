/** What becomes of the scanner's goroutines once the collector has returned: nobody receives from matchCh any more,
    so whoever still has matches to send may wait for good. */
module ScannerLeaks {
  import opened Manifests
  import opened Scanner
  import opened ScannerRuns

  /* ---------- how many matches are still to be sent ---------- */

  function EntryLeft(f: Filter, e: Entry): nat {
    EntryMatches(f, e, e.path)
  }

  function QueueLeft(f: Filter, q: seq<Entry>): nat {
    if q == [] then 0 else EntryLeft(f, q[0]) + QueueLeft(f, q[1..])
  }

  function ItemLeft(f: Filter, item: WalkItem): nat {
    if item.Regular? && f.file(item.entry.path) then EntryLeft(f, item.entry) else 0
  }

  function WalkLeft(f: Filter, walk: seq<WalkItem>): nat {
    if walk == [] then 0 else ItemLeft(f, walk[0]) + WalkLeft(f, walk[1..])
  }

  function WorkerLeft(f: Filter, w: Worker): nat {
    match w
    case Opening(e) => EntryLeft(f, e)
    case Decoding(path, rest) => DocMatches(f, path, rest, path)
    case Sending(path, rest) => 1 + DocMatches(f, path, rest, path)
    case _ => 0
  }

  function WorkersLeft(f: Filter, ws: seq<Worker>): nat {
    if ws == [] then 0 else WorkerLeft(f, ws[0]) + WorkersLeft(f, ws[1..])
  }

  /** Matches in matchCh, in the workers' hands, in the queue and in files not walked yet. */
  function Outstanding(f: Filter, s: State): nat {
    |s.matchCh| + WorkersLeft(f, s.workers) + QueueLeft(f, s.fileCh) + WalkLeft(f, s.unwalked)
  }

  lemma {:induction false} WorkersLeftUpdate(f: Filter, ws: seq<Worker>, i: nat, w: Worker)
    requires i < |ws|
    ensures WorkersLeft(f, ws[i := w]) + WorkerLeft(f, ws[i]) == WorkersLeft(f, ws) + WorkerLeft(f, w)
  {
    if i == 0 {
      assert ws[0 := w][1..] == ws[1..];
    } else {
      WorkersLeftUpdate(f, ws[1..], i - 1, w);
      assert ws[i := w][1..] == ws[1..][i - 1 := w];
    }
  }

  lemma {:induction false} QueueLeftAppend(f: Filter, q: seq<Entry>, e: Entry)
    ensures QueueLeft(f, q + [e]) == QueueLeft(f, q) + EntryLeft(f, e)
  {
    if q == [] {
      assert [e][1..] == [];
    } else {
      QueueLeftAppend(f, q[1..], e);
      assert (q + [e])[1..] == q[1..] + [e];
    }
  }

  lemma {:induction false} WorkersLeftAtLeast(f: Filter, ws: seq<Worker>, i: nat)
    requires i < |ws|
    ensures WorkersLeft(f, ws) >= WorkerLeft(f, ws[i])
  {
    if i > 0 {
      WorkersLeftAtLeast(f, ws[1..], i - 1);
    }
  }

  lemma {:induction false} NothingLeft(f: Filter, ws: seq<Worker>)
    requires forall i | 0 <= i < |ws| :: WorkerLeft(f, ws[i]) == 0
    ensures WorkersLeft(f, ws) == 0
  {
    if ws != [] {
      NothingLeft(f, ws[1..]);
    }
  }

  /* ---------- steps after the return ---------- */

  /** The collector has returned; nothing left to scan is faulty, and nobody has left the queue unread. */
  predicate Abandoned(cfg: Config, s: State) {
    && ChannelsSafe(cfg, s) && !s.result.Running? && !s.ctxDone && CleanState(cfg.filter, s)
    && (AllExited(s.workers) ==> s.fileClosed && s.fileCh == [])
  }

  lemma MoveKeepsLeft(f: Filter, w: Worker, fileCh: seq<Entry>)
    requires CleanWorker(w) && (w.Idle? && fileCh != [] ==> CleanEntry(fileCh[0]))
    ensures var m := WorkerMove(f, w, fileCh, false);
            && !m.fault && CleanWorker(m.next) && (m.takes ==> fileCh != [])
            && WorkerLeft(f, m.next) + |m.sends| == WorkerLeft(f, w) + (if m.takes then EntryLeft(f, fileCh[0]) else 0)
            && (m.next.Exited? ==> w.Exited? || fileCh == [])
  {
    MoveTracesFaults(f, w, fileCh, false);
  }

  lemma ApplyMoveKeepsOutstanding(f: Filter, s: State, i: nat, m: Move)
    requires i < |s.workers| && (m.takes ==> s.fileCh != [])
    requires WorkerLeft(f, m.next) + |m.sends|
          == WorkerLeft(f, s.workers[i]) + (if m.takes then EntryLeft(f, s.fileCh[0]) else 0)
    ensures Outstanding(f, ApplyMove(s, i, m)) == Outstanding(f, s)
  {
    WorkersLeftUpdate(f, s.workers, i, m.next);
  }

  lemma ApplyMoveKeepsClean(f: Filter, s: State, i: nat, m: Move)
    requires i < |s.workers| && (m.takes ==> s.fileCh != []) && CleanState(f, s) && CleanWorker(m.next)
    ensures CleanState(f, ApplyMove(s, i, m))
  {
  }

  lemma WorkKeepsAbandoned(cfg: Config, s: State, i: nat)
    requires Abandoned(cfg, s) && WorkEnabled(cfg, s, i)
    ensures Abandoned(cfg, ApplyWork(cfg.filter, s, i))
    ensures Outstanding(cfg.filter, ApplyWork(cfg.filter, s, i)) == Outstanding(cfg.filter, s)
  {
    var m := WorkerMove(cfg.filter, s.workers[i], s.fileCh, s.ctxDone);
    MoveKeepsLeft(cfg.filter, s.workers[i], s.fileCh);
    ApplyMoveKeepsOutstanding(cfg.filter, s, i, m);
    ApplyMoveKeepsClean(cfg.filter, s, i, m);
    StepKeepsChannelsSafe(cfg, s, Work(i));
    var s' := ApplyWork(cfg.filter, s, i);
    if AllExited(s'.workers) {
      assert s'.workers[i] == m.next;
    }
  }

  lemma WalkKeepsAbandoned(cfg: Config, s: State)
    requires Abandoned(cfg, s) && WalkEnabled(cfg, s)
    ensures Abandoned(cfg, ApplyWalk(cfg.filter, s))
    ensures Outstanding(cfg.filter, ApplyWalk(cfg.filter, s)) == Outstanding(cfg.filter, s)
  {
    assert CleanItem(cfg.filter, s.unwalked[0]);
    WalkMovesFaults(cfg.filter, s);
    StepKeepsChannelsSafe(cfg, s, Walk);
    if s.unwalked[0].Regular? {
      QueueLeftAppend(cfg.filter, s.fileCh, s.unwalked[0].entry);
    }
  }

  lemma StepKeepsAbandoned(cfg: Config, s: State, step: Step)
    requires Abandoned(cfg, s) && Enabled(cfg, s, step) && !step.CancelContext?
    ensures Abandoned(cfg, Apply(cfg, s, step))
    ensures Outstanding(cfg.filter, Apply(cfg, s, step)) == Outstanding(cfg.filter, s)
  {
    if step.Work? {
      WorkKeepsAbandoned(cfg, s, step.i);
    } else if step.Walk? {
      WalkKeepsAbandoned(cfg, s);
    } else {
      StepKeepsChannelsSafe(cfg, s, step);
    }
  }

  predicate Undisturbed(steps: seq<Step>) {
    forall i | 0 <= i < |steps| :: !steps[i].CancelContext?
  }

  lemma {:induction false} RunKeepsAbandoned(cfg: Config, s: State, steps: seq<Step>)
    requires Abandoned(cfg, s) && Legal(cfg, s, steps) && Undisturbed(steps)
    ensures Abandoned(cfg, After(cfg, s, steps))
    ensures Outstanding(cfg.filter, After(cfg, s, steps)) == Outstanding(cfg.filter, s)
    decreases |steps|
  {
    if steps != [] {
      StepKeepsAbandoned(cfg, s, steps[0]);
      RunKeepsAbandoned(cfg, Apply(cfg, s, steps[0]), steps[1..]);
    }
  }

  /* ---------- the end ---------- */

  /** Nothing can happen any more but a cancellation. */
  ghost predicate AtRest(cfg: Config, s: State) {
    forall step :: Enabled(cfg, s, step) ==> step.CancelContext?
  }

  /** Some worker waits at its send on a matchCh that nobody empties. */
  predicate Leaks(cfg: Config, s: State) {
    |s.matchCh| == cfg.capacity && exists i | 0 <= i < |s.workers| :: s.workers[i].Sending?
  }

  /** Without a leak the goroutines go on until the last one has closed done. */
  lemma NoRestBeforeDone(cfg: Config, s: State)
    requires Valid(cfg) && ChannelsSafe(cfg, s) && !s.doneClosed && !Leaks(cfg, s)
    ensures !AtRest(cfg, s)
  {
    var step := SomeGoroutineMoves(cfg, s);
    assert Enabled(cfg, s, step);
  }

  /** Exactly when a worker is left behind: once the collector has returned, on every schedule that is not
      cancelled and has come to rest, when more matches are outstanding than matchCh has room for. Otherwise
      every goroutine ends. */
  lemma LeaksIff(cfg: Config, s: State, steps: seq<Step>)
    requires Valid(cfg) && Abandoned(cfg, s)
    requires Legal(cfg, s, steps) && Undisturbed(steps) && AtRest(cfg, After(cfg, s, steps))
    ensures Leaks(cfg, After(cfg, s, steps)) <==> Outstanding(cfg.filter, s) > cfg.capacity
    ensures !Leaks(cfg, After(cfg, s, steps)) ==>
              AllExited(After(cfg, s, steps).workers) && After(cfg, s, steps).doneClosed
  {
    RunKeepsAbandoned(cfg, s, steps);
    var end := After(cfg, s, steps);
    if !end.doneClosed && !Leaks(cfg, end) {
      NoRestBeforeDone(cfg, end);
    }
    if Leaks(cfg, end) {
      var i :| 0 <= i < |end.workers| && end.workers[i].Sending?;
      WorkersLeftAtLeast(cfg.filter, end.workers, i);
    } else {
      NothingLeft(cfg.filter, end.workers);
    }
  }

  lemma Reach(cfg: Config, s: State, step: Step, s': State)
    requires Reachable(cfg, s) && Enabled(cfg, s, step) && Apply(cfg, s, step) == s'
    ensures Reachable(cfg, s')
  {
    var steps :| Legal(cfg, Init(cfg), steps) && After(cfg, Init(cfg), steps) == s;
    LegalAppend(cfg, Init(cfg), steps, step);
  }

  /** An unreadable file and a readable one, for two workers. */
  function TwoFiles(f: Filter, bad: Path, good: Path, docs: seq<Document>, capacity: nat): Config {
    Config([Regular(Entry(bad, Unreadable)), Regular(Entry(good, Readable(docs)))], f, 2, capacity)
  }

  /** The first worker has failed on the first file, the scan has returned, the second file is still ahead. */
  function FailedEarly(good: Path, docs: seq<Document>): State {
    State([Regular(Entry(good, Readable(docs)))], [], false, [Exited, Idle], [], false, false, false, false, [], Failed)
  }

  lemma FailedEarlyReachable(f: Filter, bad: Path, good: Path, docs: seq<Document>, capacity: nat)
    requires f.file(bad) && 1 <= capacity
    ensures Reachable(TwoFiles(f, bad, good, docs, capacity), FailedEarly(good, docs))
  {
    var cfg, e := TwoFiles(f, bad, good, docs, capacity), Entry(bad, Unreadable);
    var s0 := Init(cfg);
    assert Legal(cfg, s0, []) && After(cfg, s0, []) == s0;
    var s1 := s0.(unwalked := cfg.walk[1..], fileCh := [e]);
    assert [] + [e] == [e];
    Reach(cfg, s0, Walk, s1);
    var s2 := s1.(fileCh := [], workers := [Opening(e), Idle]);
    assert [e][1..] == [] && s1.workers[0 := Opening(e)] == [Opening(e), Idle] && s1.matchCh + [] == s1.matchCh;
    Reach(cfg, s1, Work(0), s2);
    var s3 := s2.(workers := [Exited, Idle], errPending := true);
    assert s2.workers[0 := Exited] == [Exited, Idle] && s2.matchCh + [] == s2.matchCh;
    Reach(cfg, s2, Work(0), s3);
    Reach(cfg, s3, CollectError, FailedEarly(good, docs));
  }

  lemma FailedEarlyOutstanding(f: Filter, good: Path, docs: seq<Document>)
    requires f.file(good) && CleanDocs(docs)
    ensures Outstanding(f, FailedEarly(good, docs)) == Selected(f, docs)
  {
    CleanDocMatches(f, good, docs);
    var s := FailedEarly(good, docs);
    assert ItemLeft(f, s.unwalked[0]) == Selected(f, docs) && s.unwalked[1..] == [];
    assert WalkLeft(f, s.unwalked) == ItemLeft(f, s.unwalked[0]) + WalkLeft(f, s.unwalked[1..]);
    NothingLeft(f, s.workers);
    assert QueueLeft(f, s.fileCh) == 0 && |s.matchCh| == 0;
  }

  /** And it does happen, whatever the capacity: one unreadable file, and one with more matches than matchCh holds.
      The scan can fail at once, and every run from there leaves a worker behind. */
  lemma LeakHappens(f: Filter, bad: Path, good: Path, docs: seq<Document>, capacity: nat)
    requires f.file(bad) && f.file(good) && CleanDocs(docs) && 1 <= capacity < Selected(f, docs)
    ensures var cfg, s := TwoFiles(f, bad, good, docs, capacity), FailedEarly(good, docs);
            && Reachable(cfg, s) && Abandoned(cfg, s)
            && forall steps | Legal(cfg, s, steps) && Undisturbed(steps) && AtRest(cfg, After(cfg, s, steps)) ::
                 Leaks(cfg, After(cfg, s, steps))
  {
    var cfg, s := TwoFiles(f, bad, good, docs, capacity), FailedEarly(good, docs);
    FailedEarlyReachable(f, bad, good, docs, capacity);
    FailedEarlyOutstanding(f, good, docs);
    assert !s.workers[1].Exited?;
    forall steps | Legal(cfg, s, steps) && Undisturbed(steps) && AtRest(cfg, After(cfg, s, steps))
      ensures Leaks(cfg, After(cfg, s, steps))
    {
      LeaksIff(cfg, s, steps);
    }
  }
}
