/** What the scanner's answer is worth: how much of the tree a scan that succeeds may miss, and which faults it may
    swallow. */
module ScannerAnswers {
  import opened Scanner
  import opened ScannerRuns

  /* ---------- what a successful answer does not promise ---------- */

  /** Nothing is collected unless matchCh is full. */
  predicate Lagging(cfg: Config, s: State) {
    |s.matchCh| < cfg.capacity ==> s.collected == []
  }

  lemma LegalCons(cfg: Config, s: State, step: Step, rest: seq<Step>)
    requires Enabled(cfg, s, step) && Legal(cfg, Apply(cfg, s, step), rest)
    ensures Legal(cfg, s, [step] + rest) && After(cfg, s, [step] + rest) == After(cfg, Apply(cfg, s, step), rest)
  {
    assert ([step] + rest)[1..] == rest;
  }

  /** With matchCh full and worker i sending, one receive lets the send through. */
  lemma MakeRoom(cfg: Config, s: State, i: nat) returns (end: State)
    requires Valid(cfg) && Inv(cfg, s) && s.result.Running? && !s.ctxDone
    requires |s.matchCh| == cfg.capacity && i < |s.workers| && s.workers[i].Sending?
    ensures Enabled(cfg, s, CollectMatch) && Enabled(cfg, Apply(cfg, s, CollectMatch), Work(i))
    ensures end == Apply(cfg, Apply(cfg, s, CollectMatch), Work(i))
    ensures Inv(cfg, end) && end.result.Running? && Lagging(cfg, end) && !end.ctxDone && Measure(end) < Measure(s)
  {
    var s1 := Apply(cfg, s, CollectMatch);
    end := Apply(cfg, s1, Work(i));
    StepKeepsInv(cfg, s, CollectMatch);
    StepKeepsInv(cfg, s1, Work(i));
    StepLowersMeasure(cfg, s, CollectMatch);
    StepLowersMeasure(cfg, s1, Work(i));
  }

  /** While matchCh has room, or nobody wants to send, a goroutine other than the collector can move. */
  lemma LaggingMove(cfg: Config, s: State) returns (step: Step, s': State)
    requires Valid(cfg) && Inv(cfg, s) && s.result.Running? && Lagging(cfg, s) && !s.ctxDone && !s.doneClosed
    requires |s.matchCh| < cfg.capacity || forall i | 0 <= i < |s.workers| :: !s.workers[i].Sending?
    ensures Enabled(cfg, s, step) && s' == Apply(cfg, s, step)
    ensures Inv(cfg, s') && s'.result.Running? && Lagging(cfg, s') && !s'.ctxDone && Measure(s') < Measure(s)
  {
    step := SomeGoroutineMoves(cfg, s);
    s' := Apply(cfg, s, step);
    StepKeepsInv(cfg, s, step);
    StepLowersMeasure(cfg, s, step);
  }

  /** The collector can be scheduled so late that it only makes room, never reads errCh, and leaves through
      done with matchCh full, or with nothing collected. */
  lemma LateCollectorRun(cfg: Config, s: State) returns (steps: seq<Step>)
    requires Valid(cfg) && Inv(cfg, s) && s.result.Running? && Lagging(cfg, s) && !s.ctxDone
    ensures Legal(cfg, s, steps)
    ensures var end := After(cfg, s, steps); end.result.ByDone? && Lagging(cfg, end) && !end.ctxDone
    decreases Measure(s)
  {
    if s.doneClosed {
      LegalCons(cfg, s, CollectDone, []);
      return [CollectDone];
    }
    if |s.matchCh| == cfg.capacity && exists i | 0 <= i < |s.workers| :: s.workers[i].Sending? {
      var i :| 0 <= i < |s.workers| && s.workers[i].Sending?;
      var s2 := MakeRoom(cfg, s, i);
      var rest := LateCollectorRun(cfg, s2);
      LegalCons(cfg, Apply(cfg, s, CollectMatch), Work(i), rest);
      LegalCons(cfg, s, CollectMatch, [Work(i)] + rest);
      return [CollectMatch] + ([Work(i)] + rest);
    }
    var step, s1 := LaggingMove(cfg, s);
    var rest := LateCollectorRun(cfg, s1);
    LegalCons(cfg, s, step, rest);
    return [step] + rest;
  }

  /** Or so eagerly that it never reads errCh and leaves only when matchCh is closed and empty. */
  lemma EagerCollectorRun(cfg: Config, s: State) returns (steps: seq<Step>)
    requires Valid(cfg) && Inv(cfg, s) && s.result.Running? && !s.ctxDone
    ensures Legal(cfg, s, steps)
    ensures After(cfg, s, steps).result.ByClosedChannel? && !After(cfg, s, steps).ctxDone
    decreases Measure(s)
  {
    if s.matchClosed && s.matchCh == [] {
      LegalCons(cfg, s, CollectClosed, []);
      return [CollectClosed];
    }
    var step, s1 := EagerMove(cfg, s);
    var rest := EagerCollectorRun(cfg, s1);
    LegalCons(cfg, s, step, rest);
    return [step] + rest;
  }

  lemma EagerMove(cfg: Config, s: State) returns (step: Step, s': State)
    requires Valid(cfg) && Inv(cfg, s) && s.result.Running? && !s.ctxDone && !(s.matchClosed && s.matchCh == [])
    ensures Enabled(cfg, s, step) && s' == Apply(cfg, s, step)
    ensures Inv(cfg, s') && s'.result.Running? && !s'.ctxDone && Measure(s') < Measure(s)
  {
    if s.matchCh != [] {
      step := CollectMatch;
    } else {
      step := SomeGoroutineMoves(cfg, s);
    }
    s' := Apply(cfg, s, step);
    StepKeepsInv(cfg, s, step);
    StepLowersMeasure(cfg, s, step);
  }

  ghost predicate Complete(cfg: Config, s: State) {
    forall p :: Times(s.collected, p) == Declared(cfg, p)
  }

  /** Every fault-free tree has a scan that reports all of it. */
  lemma CompleteScanExists(cfg: Config) returns (s: State)
    requires Valid(cfg) && CleanWalk(cfg.filter, cfg.walk)
    ensures Reachable(cfg, s) && s.result.ByClosedChannel? && !s.ctxDone && Complete(cfg, s)
  {
    InitInv(cfg);
    var steps := EagerCollectorRun(cfg, Init(cfg));
    s := After(cfg, Init(cfg), steps);
    ExactExit(cfg, s);
  }

  /** The bound of LossIsBounded is reached by every fault-free tree: some scan that succeeds fills matchCh with
      matches it misses, or misses all there are. */
  lemma LossIsReached(cfg: Config) returns (s: State)
    requires Valid(cfg) && CleanWalk(cfg.filter, cfg.walk)
    ensures Reachable(cfg, s) && s.result.ByDone? && !s.ctxDone
    ensures forall p :: Times(s.collected, p) + Times(s.matchCh, p) == Declared(cfg, p)
    ensures |s.matchCh| == cfg.capacity || (s.collected == [] && |s.matchCh| < cfg.capacity)
  {
    InitInv(cfg);
    var steps := LateCollectorRun(cfg, Init(cfg));
    s := After(cfg, Init(cfg), steps);
    assert Reachable(cfg, s);
    ReachableInv(cfg, s);
    ExactExit(cfg, s);
  }

  /** A nil error does not mean that the list is complete. For any tree, faulty or not, all successful uncancelled scans
      are complete exactly when the tree declares no match at all: otherwise the exit through done can
      drop one. */
  lemma SuccessIsCompleteIffNothingMatches(cfg: Config)
    requires Valid(cfg)
    ensures (forall s | Reachable(cfg, s) && Succeeded(s) && !s.ctxDone :: Complete(cfg, s))
            <==> (forall p :: Declared(cfg, p) == 0)
  {
    if forall p :: Declared(cfg, p) == 0 {
      forall s, p | Reachable(cfg, s) ensures Times(s.collected, p) == Declared(cfg, p) {
        Conservation(cfg, s, p);
      }
    } else {
      InitInv(cfg);
      var steps := LateCollectorRun(cfg, Init(cfg));
      var s := After(cfg, Init(cfg), steps);
      assert Reachable(cfg, s);
      var p :| Declared(cfg, p) > 0;
      var q := if s.matchCh == [] then p else s.matchCh[0];
      Conservation(cfg, s, q);
      assert Times(s.collected, q) < Declared(cfg, q);
    }
  }

  /** A fault of the tree can be reported, and can always be swallowed: an uncancelled scan may fail exactly when
      the tree has a fault, yet every tree also admits a scan that succeeds. */
  lemma FaultsMayBeSwallowed(cfg: Config)
    requires Valid(cfg)
    ensures exists s :: Reachable(cfg, s) && Succeeded(s) && !s.ctxDone
    ensures (exists s :: Reachable(cfg, s) && s.result.Failed? && !s.ctxDone) <==> !CleanWalk(cfg.filter, cfg.walk)
  {
    InitInv(cfg);
    var steps := LateCollectorRun(cfg, Init(cfg));
    var s := After(cfg, Init(cfg), steps);
    assert Reachable(cfg, s) && Succeeded(s) && !s.ctxDone;
    if !CleanWalk(cfg.filter, cfg.walk) {
      var failing := FailingRun(cfg, Init(cfg));
      var end := After(cfg, Init(cfg), failing);
      assert Reachable(cfg, end) && end.result.Failed? && !end.ctxDone;
    }
    forall s | Reachable(cfg, s) && s.result.Failed? && !s.ctxDone ensures !CleanWalk(cfg.filter, cfg.walk) {
      ReachableInv(cfg, s);
    }
  }

  /** When the workers are gone and nothing was offered to errCh, the tree had no fault. */
  lemma QuietScanIsClean(cfg: Config, s: State)
    requires Valid(cfg) && Inv(cfg, s) && !s.errPending && !s.result.Failed? && !s.ctxDone
    ensures s.doneClosed ==> CleanWalk(cfg.filter, cfg.walk)
  {
    if s.doneClosed {
      assert s.workers[0].Exited?;
      assert CleanState(cfg.filter, s);
    }
  }

  /** From a state that still has its faults ahead, the collector can end up reading errCh. */
  lemma FailingRun(cfg: Config, s: State) returns (steps: seq<Step>)
    requires Valid(cfg) && Inv(cfg, s) && s.result.Running? && !s.ctxDone && !CleanWalk(cfg.filter, cfg.walk)
    ensures Legal(cfg, s, steps)
    ensures var end := After(cfg, s, steps); end.result.Failed? && !end.ctxDone
    decreases Measure(s)
  {
    if s.errPending {
      LegalCons(cfg, s, CollectError, []);
      return [CollectError];
    }
    var step: Step;
    if s.matchCh != [] {
      step := CollectMatch;
    } else {
      QuietScanIsClean(cfg, s);
      step := SomeGoroutineMoves(cfg, s);
    }
    StepKeepsInv(cfg, s, step);
    StepLowersMeasure(cfg, s, step);
    var rest := FailingRun(cfg, Apply(cfg, s, step));
    LegalCons(cfg, s, step, rest);
    return [step] + rest;
  }
}
