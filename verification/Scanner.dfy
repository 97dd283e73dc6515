/** The concurrent manifest scanner: a walker, N workers, a closer and the collector's select loop,
    joined by two bounded channels, a one-slot lossy error channel and a done channel. */
module Scanner {
  import opened Manifests

  /** The two tests a scan applies: to the path of a walked file and to a decoded document. */
  datatype Filter = Filter(file: Path -> bool, document: Document -> bool)

  datatype Reading = Unreadable | Readable(docs: seq<Document>)

  datatype Entry = Entry(path: Path, reading: Reading)

  /** The calls WalkDir makes, in order. A walk error ends the walk. */
  datatype WalkItem = Directory | Regular(entry: Entry) | WalkError

  datatype Config = Config(walk: seq<WalkItem>, filter: Filter, workers: nat, capacity: nat)

  predicate Valid(cfg: Config) {
    cfg.workers >= 1 && cfg.capacity >= 1
  }

  /* ---------- what the tree declares ---------- */

  /** How often scanning these documents of file `path` reports path p: once per matching document
      before the first undecodable one. */
  function DocMatches(f: Filter, path: Path, docs: seq<Document>, p: Path): nat {
    if docs == [] || docs[0].Undecodable? then 0
    else (if f.document(docs[0]) && path == p then 1 else 0) + DocMatches(f, path, docs[1..], p)
  }

  function EntryMatches(f: Filter, e: Entry, p: Path): nat {
    if e.reading.Unreadable? then 0 else DocMatches(f, e.path, e.reading.docs, p)
  }

  function QueueMatches(f: Filter, q: seq<Entry>, p: Path): nat {
    if q == [] then 0 else EntryMatches(f, q[0], p) + QueueMatches(f, q[1..], p)
  }

  function WalkMatches(f: Filter, walk: seq<WalkItem>, p: Path): nat {
    if walk == [] || walk[0].WalkError? then 0
    else (if walk[0].Regular? && f.file(walk[0].entry.path) then EntryMatches(f, walk[0].entry, p) else 0)
         + WalkMatches(f, walk[1..], p)
  }

  /** How often p occurs in the declarative multiset of matches of the tree. */
  function Declared(cfg: Config, p: Path): nat {
    WalkMatches(cfg.filter, cfg.walk, p)
  }

  function Times(paths: seq<Path>, p: Path): nat {
    multiset(paths)[p]
  }

  predicate CleanDocs(docs: seq<Document>) {
    forall i | 0 <= i < |docs| :: docs[i].Document?
  }

  predicate CleanEntry(e: Entry) {
    e.reading.Readable? && CleanDocs(e.reading.docs)
  }

  predicate CleanItem(f: Filter, item: WalkItem) {
    !item.WalkError? && (item.Regular? && f.file(item.entry.path) ==> CleanEntry(item.entry))
  }

  predicate CleanWalk(f: Filter, walk: seq<WalkItem>) {
    forall i | 0 <= i < |walk| :: CleanItem(f, walk[i])
  }

  /* ---------- the state ---------- */

  datatype Worker =
    | Idle                                        // at the receive of fileCh
    | Opening(entry: Entry)                       // holds a path, about to check ctx and read the file
    | Decoding(path: Path, rest: seq<Document>)
    | Sending(path: Path, rest: seq<Document>)    // at the send on matchCh
    | Exited

  datatype Result = Running | Cancelled | Failed | ByClosedChannel | ByDone

  datatype State = State(
    unwalked: seq<WalkItem>,
    fileCh: seq<Entry>,
    fileClosed: bool,
    workers: seq<Worker>,
    matchCh: seq<Path>,
    matchClosed: bool,
    doneClosed: bool,
    errPending: bool,
    ctxDone: bool,
    collected: seq<Path>,
    result: Result)

  datatype Step =
    | CancelContext
    | Walk
    | CloseFiles
    | Work(i: nat)
    | CloseMatches
    | CloseDone
    | CollectCancel
    | CollectError
    | CollectMatch
    | CollectClosed
    | CollectDone

  function Init(cfg: Config): State {
    State(cfg.walk, [], false, seq(cfg.workers, _ => Idle), [], false, false, false, false, [], Running)
  }

  predicate AllExited(ws: seq<Worker>) {
    forall i | 0 <= i < |ws| :: ws[i].Exited?
  }

  predicate WalkEnabled(cfg: Config, s: State) {
    s.unwalked != [] &&
    (s.unwalked[0].Regular? && cfg.filter.file(s.unwalked[0].entry.path) ==> |s.fileCh| < cfg.capacity)
  }

  predicate WorkEnabled(cfg: Config, s: State, i: nat) {
    i < |s.workers| &&
    match s.workers[i]
    case Idle => s.fileCh != [] || s.fileClosed
    case Sending(_, _) => |s.matchCh| < cfg.capacity
    case Exited => false
    case _ => true
  }

  predicate Enabled(cfg: Config, s: State, step: Step) {
    match step
    case CancelContext => !s.ctxDone
    case Walk => WalkEnabled(cfg, s)
    case CloseFiles => s.unwalked == [] && !s.fileClosed
    case Work(i) => WorkEnabled(cfg, s, i)
    case CloseMatches => AllExited(s.workers) && !s.matchClosed
    case CloseDone => s.matchClosed && !s.doneClosed
    case CollectCancel => s.result.Running? && s.ctxDone
    case CollectError => s.result.Running? && s.errPending
    case CollectMatch => s.result.Running? && s.matchCh != []
    case CollectClosed => s.result.Running? && s.matchCh == [] && s.matchClosed
    case CollectDone => s.result.Running? && s.doneClosed
  }

  /** The walker's callback for one item. A walk error stops the walk. */
  function ApplyWalk(f: Filter, s: State): State
    requires s.unwalked != []
  {
    match s.unwalked[0]
    case WalkError => s.(unwalked := [], errPending := true)
    case Directory => s.(unwalked := s.unwalked[1..])
    case Regular(e) => s.(unwalked := s.unwalked[1..], fileCh := if f.file(e.path) then s.fileCh + [e] else s.fileCh)
  }

  /** What a worker does next: its new local state, whether it takes the head of fileCh, what it sends
      on matchCh, and whether it offers an error to errCh. */
  datatype Move = Move(next: Worker, takes: bool, sends: seq<Path>, fault: bool)

  function WorkerMove(f: Filter, w: Worker, fileCh: seq<Entry>, ctxDone: bool): Move {
    match w
    case Idle =>
      if fileCh != [] then Move(Opening(fileCh[0]), true, [], false) else Move(Exited, false, [], false)
    case Opening(e) =>
      if ctxDone then Move(Exited, false, [], false)
      else if e.reading.Unreadable? then Move(Exited, false, [], true)
      else Move(Decoding(e.path, e.reading.docs), false, [], false)
    case Decoding(path, rest) =>
      if rest == [] then Move(Idle, false, [], false)
      else if rest[0].Undecodable? then Move(Exited, false, [], true)
      else if f.document(rest[0]) then Move(Sending(path, rest[1..]), false, [], false)
      else Move(Decoding(path, rest[1..]), false, [], false)
    case Sending(path, rest) => Move(Decoding(path, rest), false, [path], false)
    case Exited => Move(Exited, false, [], false)
  }

  /** A send on errCh is dropped when its one slot is taken, so it only raises the flag. */
  function ApplyMove(s: State, i: nat, m: Move): State
    requires i < |s.workers| && (m.takes ==> s.fileCh != [])
  {
    s.(workers := s.workers[i := m.next],
       fileCh := if m.takes then s.fileCh[1..] else s.fileCh,
       matchCh := s.matchCh + m.sends,
       errPending := s.errPending || m.fault)
  }

  function ApplyWork(f: Filter, s: State, i: nat): State
    requires i < |s.workers|
  {
    ApplyMove(s, i, WorkerMove(f, s.workers[i], s.fileCh, s.ctxDone))
  }

  function Apply(cfg: Config, s: State, step: Step): State
    requires Enabled(cfg, s, step)
  {
    match step
    case CancelContext => s.(ctxDone := true)
    case Walk => ApplyWalk(cfg.filter, s)
    case CloseFiles => s.(fileClosed := true)
    case Work(i) => ApplyWork(cfg.filter, s, i)
    case CloseMatches => s.(matchClosed := true)
    case CloseDone => s.(doneClosed := true)
    case CollectCancel => s.(result := Cancelled)
    case CollectError => s.(errPending := false, result := Failed)
    case CollectMatch => s.(matchCh := s.matchCh[1..], collected := s.collected + [s.matchCh[0]])
    case CollectClosed => s.(result := ByClosedChannel)
    case CollectDone => s.(result := ByDone)
  }

  /* ---------- runs ---------- */

  predicate Legal(cfg: Config, s: State, steps: seq<Step>)
    decreases |steps|
  {
    steps == [] || (Enabled(cfg, s, steps[0]) && Legal(cfg, Apply(cfg, s, steps[0]), steps[1..]))
  }

  function After(cfg: Config, s: State, steps: seq<Step>): State
    requires Legal(cfg, s, steps)
    decreases |steps|
  {
    if steps == [] then s else After(cfg, Apply(cfg, s, steps[0]), steps[1..])
  }

  ghost predicate Reachable(cfg: Config, s: State) {
    exists steps :: Legal(cfg, Init(cfg), steps) && After(cfg, Init(cfg), steps) == s
  }

  /* ---------- the invariant ---------- */

  function Held(f: Filter, w: Worker, p: Path): nat {
    match w
    case Opening(e) => EntryMatches(f, e, p)
    case Decoding(path, rest) => DocMatches(f, path, rest, p)
    case Sending(path, rest) => (if path == p then 1 else 0) + DocMatches(f, path, rest, p)
    case _ => 0
  }

  function InProgress(f: Filter, ws: seq<Worker>, p: Path): nat {
    if ws == [] then 0 else Held(f, ws[0], p) + InProgress(f, ws[1..], p)
  }

  /** Reports of p still to be sent: from files in progress, queued and unwalked. */
  function ToEmit(f: Filter, s: State, p: Path): nat {
    InProgress(f, s.workers, p) + QueueMatches(f, s.fileCh, p) + WalkMatches(f, s.unwalked, p)
  }

  /** Every report of p the state accounts for. */
  function Accounted(f: Filter, s: State, p: Path): nat {
    Times(s.collected, p) + Times(s.matchCh, p) + ToEmit(f, s, p)
  }

  predicate ChannelsSafe(cfg: Config, s: State) {
    && |s.workers| == cfg.workers
    && |s.fileCh| <= cfg.capacity
    && |s.matchCh| <= cfg.capacity
    && (s.fileClosed ==> s.unwalked == [])
    && (s.matchClosed ==> AllExited(s.workers))
    && (s.doneClosed ==> s.matchClosed)
    && (s.result.ByClosedChannel? ==> s.matchClosed && s.matchCh == [])
    && (s.result.ByDone? ==> s.doneClosed)
    && (s.result.Cancelled? ==> s.ctxDone)
  }

  ghost predicate Conserved(cfg: Config, s: State) {
    && (forall p :: Accounted(cfg.filter, s, p) <= Declared(cfg, p))
    && (!s.ctxDone ==> forall p :: Accounted(cfg.filter, s, p) == Declared(cfg, p))
  }

  predicate CleanWorker(w: Worker) {
    match w
    case Opening(e) => CleanEntry(e)
    case Decoding(_, rest) => CleanDocs(rest)
    case Sending(_, rest) => CleanDocs(rest)
    case _ => true
  }

  predicate CleanQueue(q: seq<Entry>) {
    forall i | 0 <= i < |q| :: CleanEntry(q[i])
  }

  predicate CleanState(f: Filter, s: State) {
    && CleanWalk(f, s.unwalked)
    && CleanQueue(s.fileCh)
    && (forall i | 0 <= i < |s.workers| :: CleanWorker(s.workers[i]))
  }

  predicate Drained(s: State) {
    forall i | 0 <= i < |s.workers| && s.workers[i].Exited? :: s.fileClosed && s.fileCh == []
  }

  /** A fault leaves a trace: as long as none was reported, the faults of the tree are all still ahead. */
  predicate FaultsTraced(cfg: Config, s: State) {
    && (CleanWalk(cfg.filter, cfg.walk) ==> CleanState(cfg.filter, s) && !s.errPending && !s.result.Failed?)
    && (!s.errPending && !s.result.Failed? && !s.ctxDone ==>
          (CleanState(cfg.filter, s) ==> CleanWalk(cfg.filter, cfg.walk)) && Drained(s))
  }

  ghost predicate Inv(cfg: Config, s: State) {
    ChannelsSafe(cfg, s) && Conserved(cfg, s) && FaultsTraced(cfg, s)
  }

  lemma {:induction false} InProgressUpdate(f: Filter, ws: seq<Worker>, i: nat, w: Worker, p: Path)
    requires i < |ws|
    ensures InProgress(f, ws[i := w], p) + Held(f, ws[i], p) == InProgress(f, ws, p) + Held(f, w, p)
  {
    if i == 0 {
      assert ws[0 := w][1..] == ws[1..];
    } else {
      InProgressUpdate(f, ws[1..], i - 1, w, p);
      assert ws[i := w][1..] == ws[1..][i - 1 := w];
    }
  }

  lemma {:induction false} QueueAppend(f: Filter, q: seq<Entry>, e: Entry, p: Path)
    ensures QueueMatches(f, q + [e], p) == QueueMatches(f, q, p) + EntryMatches(f, e, p)
  {
    if q == [] {
      assert [e][1..] == [];
    } else {
      QueueAppend(f, q[1..], e, p);
      assert (q + [e])[1..] == q[1..] + [e];
    }
  }

  lemma {:induction false} IdleWorkersHoldNothing(f: Filter, ws: seq<Worker>, p: Path)
    requires forall i | 0 <= i < |ws| :: Held(f, ws[i], p) == 0
    ensures InProgress(f, ws, p) == 0
  {
    if ws != [] {
      IdleWorkersHoldNothing(f, ws[1..], p);
    }
  }

  lemma InitInv(cfg: Config)
    requires Valid(cfg)
    ensures Inv(cfg, Init(cfg))
  {
    forall p {
      IdleWorkersHoldNothing(cfg.filter, Init(cfg).workers, p);
    }
  }

  /** A worker's step moves matches along; only a worker that leaves on a cancelled context drops some. */
  lemma MoveKeepsMatches(f: Filter, w: Worker, fileCh: seq<Entry>, ctxDone: bool, p: Path)
    ensures var m := WorkerMove(f, w, fileCh, ctxDone);
            var before := Held(f, w, p) + (if m.takes then EntryMatches(f, fileCh[0], p) else 0);
            var after := Held(f, m.next, p) + Times(m.sends, p);
            after <= before && (!ctxDone ==> after == before)
  {
  }

  /** So does the state, whatever the move. */
  lemma MoveKeepsAccount(f: Filter, s: State, i: nat, m: Move, p: Path)
    requires i < |s.workers| && (m.takes ==> s.fileCh != [])
    ensures Accounted(f, ApplyMove(s, i, m), p)
            + Held(f, s.workers[i], p) + (if m.takes then EntryMatches(f, s.fileCh[0], p) else 0)
         == Accounted(f, s, p) + Held(f, m.next, p) + Times(m.sends, p)
  {
    InProgressUpdate(f, s.workers, i, m.next, p);
    assert Times(s.matchCh + m.sends, p) == Times(s.matchCh, p) + Times(m.sends, p);
  }

  lemma WorkKeepsAccount(f: Filter, s: State, i: nat, p: Path)
    requires i < |s.workers|
    ensures var after := Accounted(f, ApplyWork(f, s, i), p);
            after <= Accounted(f, s, p) && (!s.ctxDone ==> after == Accounted(f, s, p))
  {
    MoveKeepsMatches(f, s.workers[i], s.fileCh, s.ctxDone, p);
    MoveKeepsAccount(f, s, i, WorkerMove(f, s.workers[i], s.fileCh, s.ctxDone), p);
  }

  /** A walked file moves its matches from the walk to the queue; a walk error declared none behind it. */
  lemma QueueOrWalk(f: Filter, queue: seq<Entry>, walk: seq<WalkItem>, p: Path)
    requires walk != []
    ensures walk[0].WalkError? ==> WalkMatches(f, walk, p) == 0
    ensures !walk[0].WalkError? ==>
              var queue' := if walk[0].Regular? && f.file(walk[0].entry.path) then queue + [walk[0].entry] else queue;
              QueueMatches(f, queue', p) + WalkMatches(f, walk[1..], p)
              == QueueMatches(f, queue, p) + WalkMatches(f, walk, p)
  {
    if walk[0].Regular? {
      QueueAppend(f, queue, walk[0].entry, p);
    }
  }

  lemma WalkKeepsAccount(f: Filter, s: State, p: Path)
    requires s.unwalked != []
    ensures Accounted(f, ApplyWalk(f, s), p) == Accounted(f, s, p)
  {
    QueueOrWalk(f, s.fileCh, s.unwalked, p);
  }

  lemma ReceiveKeepsAccount(f: Filter, s: State, p: Path)
    requires s.matchCh != []
    ensures Accounted(f, s.(matchCh := s.matchCh[1..], collected := s.collected + [s.matchCh[0]]), p)
         == Accounted(f, s, p)
  {
    assert s.matchCh == [s.matchCh[0]] + s.matchCh[1..];
  }

  lemma StepKeepsAccount(cfg: Config, s: State, step: Step, p: Path)
    requires Enabled(cfg, s, step)
    ensures var after := Accounted(cfg.filter, Apply(cfg, s, step), p);
            after <= Accounted(cfg.filter, s, p) && (!s.ctxDone ==> after == Accounted(cfg.filter, s, p))
  {
    if step.Work? {
      WorkKeepsAccount(cfg.filter, s, step.i, p);
    } else if step.Walk? {
      WalkKeepsAccount(cfg.filter, s, p);
    } else if step.CollectMatch? {
      ReceiveKeepsAccount(cfg.filter, s, p);
    }
  }

  lemma StepKeepsConserved(cfg: Config, s: State, step: Step)
    requires Conserved(cfg, s) && Enabled(cfg, s, step)
    ensures Conserved(cfg, Apply(cfg, s, step))
  {
    var s' := Apply(cfg, s, step);
    assert s.ctxDone ==> s'.ctxDone;
    forall p
      ensures Accounted(cfg.filter, s', p) <= Declared(cfg, p)
      ensures !s'.ctxDone ==> Accounted(cfg.filter, s', p) == Declared(cfg, p)
    {
      StepKeepsAccount(cfg, s, step, p);
    }
  }

  /** A move sends only when there is room, and ends no worker that could still be waited for. */
  lemma MoveKeepsChannelsSafe(cfg: Config, s: State, i: nat, m: Move)
    requires ChannelsSafe(cfg, s) && i < |s.workers| && !s.workers[i].Exited? && (m.takes ==> s.fileCh != [])
    requires |m.sends| + |s.matchCh| <= cfg.capacity || m.sends == []
    ensures ChannelsSafe(cfg, ApplyMove(s, i, m))
  {
    assert !s.matchClosed;
  }

  lemma WalkKeepsChannelsSafe(cfg: Config, s: State)
    requires ChannelsSafe(cfg, s) && WalkEnabled(cfg, s)
    ensures ChannelsSafe(cfg, ApplyWalk(cfg.filter, s))
  {
  }

  lemma StepKeepsChannelsSafe(cfg: Config, s: State, step: Step)
    requires ChannelsSafe(cfg, s) && Enabled(cfg, s, step)
    ensures ChannelsSafe(cfg, Apply(cfg, s, step))
  {
    if step.Work? {
      MoveKeepsChannelsSafe(cfg, s, step.i, WorkerMove(cfg.filter, s.workers[step.i], s.fileCh, s.ctxDone));
    } else if step.Walk? {
      WalkKeepsChannelsSafe(cfg, s);
    }
  }

  lemma MoveTracesFaults(f: Filter, w: Worker, fileCh: seq<Entry>, ctxDone: bool)
    ensures var m := WorkerMove(f, w, fileCh, ctxDone);
            var before := CleanWorker(w) && (m.takes ==> CleanEntry(fileCh[0]));
            && (before ==> CleanWorker(m.next) && !m.fault)
            && (!ctxDone && !m.fault && CleanWorker(m.next) ==> before)
            && (!ctxDone && !m.fault && m.next.Exited? ==> w.Exited? || (w.Idle? && fileCh == []))
  {
    var m := WorkerMove(f, w, fileCh, ctxDone);
    if w.Decoding? && w.rest != [] {
      assert w.rest == [w.rest[0]] + w.rest[1..];
    }
  }

  lemma WorkTracesFaults(cfg: Config, s: State, i: nat)
    requires ChannelsSafe(cfg, s) && FaultsTraced(cfg, s) && WorkEnabled(cfg, s, i)
    ensures FaultsTraced(cfg, ApplyWork(cfg.filter, s, i))
  {
    var m := WorkerMove(cfg.filter, s.workers[i], s.fileCh, s.ctxDone);
    var s' := ApplyMove(s, i, m);
    MoveTracesFaults(cfg.filter, s.workers[i], s.fileCh, s.ctxDone);
    if m.takes {
      assert s.fileCh == [s.fileCh[0]] + s'.fileCh;
    }
    assert forall j | 0 <= j < |s.workers| && j != i :: s'.workers[j] == s.workers[j];
    assert s'.workers[i] == m.next;
  }

  lemma CleanQueueAppend(q: seq<Entry>, e: Entry)
    ensures CleanQueue(q + [e]) <==> CleanQueue(q) && CleanEntry(e)
  {
    assert (q + [e])[|q|] == e;
    assert forall j | 0 <= j < |q| :: (q + [e])[j] == q[j];
  }

  lemma CleanWalkHead(f: Filter, walk: seq<WalkItem>)
    requires walk != []
    ensures CleanWalk(f, walk) <==> CleanItem(f, walk[0]) && CleanWalk(f, walk[1..])
  {
    assert walk == [walk[0]] + walk[1..];
  }

  /** Walking an item moves its fault, if any, to the queue. */
  lemma WalkMovesFaults(f: Filter, s: State)
    requires s.unwalked != [] && !s.unwalked[0].WalkError?
    ensures CleanState(f, ApplyWalk(f, s)) <==> CleanState(f, s)
  {
    CleanWalkHead(f, s.unwalked);
    if s.unwalked[0].Regular? {
      CleanQueueAppend(s.fileCh, s.unwalked[0].entry);
    }
  }

  lemma WalkTracesFaults(cfg: Config, s: State)
    requires ChannelsSafe(cfg, s) && FaultsTraced(cfg, s) && WalkEnabled(cfg, s)
    ensures FaultsTraced(cfg, ApplyWalk(cfg.filter, s))
  {
    assert !s.fileClosed;
    if s.unwalked[0].WalkError? {
      assert !CleanItem(cfg.filter, s.unwalked[0]);
    } else {
      WalkMovesFaults(cfg.filter, s);
    }
  }

  lemma StepTracesFaults(cfg: Config, s: State, step: Step)
    requires ChannelsSafe(cfg, s) && FaultsTraced(cfg, s) && Enabled(cfg, s, step)
    ensures FaultsTraced(cfg, Apply(cfg, s, step))
  {
    match step
    case Work(i) => WorkTracesFaults(cfg, s, i);
    case Walk => WalkTracesFaults(cfg, s);
    case _ =>
  }

  lemma StepKeepsInv(cfg: Config, s: State, step: Step)
    requires Inv(cfg, s) && Enabled(cfg, s, step)
    ensures Inv(cfg, Apply(cfg, s, step))
  {
    StepKeepsChannelsSafe(cfg, s, step);
    StepKeepsConserved(cfg, s, step);
    StepTracesFaults(cfg, s, step);
  }
}
