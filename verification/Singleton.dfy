/** The shared git client: a check-lock-check singleton, called by any number of handlers at once under
    sequentially consistent memory. */
module Singleton {
  import opened Options

  /** The instance: which caller built it, and whether its Start could initialise it. */
  datatype Client = Client(builder: nat, initialized: bool)

  datatype Pc =
    | Entry
    | WantLock                        // saw nil without the lock
    | Locked                          // about to check again
    | Starting                        // saw nil under the lock, about to call Start
    | Publishing(initialized: bool)   // Start is over, about to set singleInstance
    | Reading(locked: bool)           // about to read singleInstance for the return
    | Unlocking(result: Option<Client>)
    | Returned(result: Option<Client>)
    | Rejected                        // nil ctx or nil client

  datatype State = State(instance: Option<Client>, lock: Option<nat>, starts: nat, pcs: seq<Pc>)

  /** Caller `i` moves; `succeeds` is what Start's environment answers, and matters only there. */
  datatype Step = Step(i: nat, succeeds: bool)

  /** valid[i]: caller i passes a ctx and a client. */
  function Init(valid: seq<bool>): State {
    State(None, None, 0, seq(|valid|, _ => Entry))
  }

  predicate Enabled(valid: seq<bool>, s: State, step: Step) {
    && step.i < |s.pcs| == |valid|
    && !s.pcs[step.i].Returned? && !s.pcs[step.i].Rejected?
    && (s.pcs[step.i].WantLock? ==> s.lock.None?)
  }

  function Goto(s: State, i: nat, pc: Pc): State
    requires i < |s.pcs|
  {
    s.(pcs := s.pcs[i := pc])
  }

  function Apply(valid: seq<bool>, s: State, step: Step): State
    requires Enabled(valid, s, step)
  {
    var i := step.i;
    match s.pcs[i]
    case Entry => Goto(s, i, if !valid[i] then Rejected else if s.instance.None? then WantLock else Reading(false))
    case WantLock => Goto(s, i, Locked).(lock := Some(i))
    case Locked => Goto(s, i, if s.instance.None? then Starting else Reading(true))
    case Starting => Goto(s, i, Publishing(step.succeeds)).(starts := s.starts + 1)
    case Publishing(initialized) => Goto(s, i, Reading(true)).(instance := Some(Client(i, initialized)))
    case Reading(locked) => Goto(s, i, if locked then Unlocking(s.instance) else Returned(s.instance))
    case Unlocking(result) => Goto(s, i, Returned(result)).(lock := None)
    case _ => s
  }

  predicate Legal(valid: seq<bool>, s: State, steps: seq<Step>)
    decreases |steps|
  {
    steps == [] || (Enabled(valid, s, steps[0]) && Legal(valid, Apply(valid, s, steps[0]), steps[1..]))
  }

  function After(valid: seq<bool>, s: State, steps: seq<Step>): State
    requires Legal(valid, s, steps)
    decreases |steps|
  {
    if steps == [] then s else After(valid, Apply(valid, s, steps[0]), steps[1..])
  }

  predicate Holds(pc: Pc) {
    pc.Locked? || pc.Starting? || pc.Publishing? || (pc.Reading? && pc.locked) || pc.Unlocking?
  }

  predicate PcOk(s: State, pc: Pc) {
    && (pc.Starting? ==> s.instance.None? && s.starts == 0)
    && (pc.Publishing? ==> s.instance.None? && s.starts == 1)
    && (pc.Reading? ==> s.instance.Some?)
    && (pc.Unlocking? || pc.Returned? ==> s.instance.Some? && pc.result == s.instance)
  }

  predicate Inv(valid: seq<bool>, s: State) {
    && |s.pcs| == |valid|
    && (forall i | 0 <= i < |s.pcs| :: Holds(s.pcs[i]) <==> s.lock == Some(i))
    && (forall i | 0 <= i < |s.pcs| :: PcOk(s, s.pcs[i]))
    && (s.lock.Some? ==> s.lock.value < |s.pcs|)
    && s.starts <= 1
    && (s.instance.Some? ==> s.starts == 1)
    && (s.instance.None? && s.starts == 1 ==> exists i | 0 <= i < |s.pcs| :: s.pcs[i].Publishing?)
  }

  lemma StepKeepsInv(valid: seq<bool>, s: State, step: Step)
    requires Inv(valid, s) && Enabled(valid, s, step)
    ensures Inv(valid, Apply(valid, s, step))
    ensures s.instance.Some? ==> Apply(valid, s, step).instance == s.instance
    ensures s.starts <= Apply(valid, s, step).starts
  {
    var s' := Apply(valid, s, step);
    assert forall j | 0 <= j < |s.pcs| && j != step.i :: s'.pcs[j] == s.pcs[j];
    if s'.instance.None? && s'.starts == 1 {
      if s.starts == 1 {
        var k :| 0 <= k < |s.pcs| && s.pcs[k].Publishing?;
        assert s'.pcs[k].Publishing?;
      } else {
        assert s'.pcs[step.i].Publishing?;
      }
    }
  }

  lemma {:induction false} RunKeepsInv(valid: seq<bool>, s: State, steps: seq<Step>)
    requires Inv(valid, s) && Legal(valid, s, steps)
    ensures Inv(valid, After(valid, s, steps))
    ensures s.instance.Some? ==> After(valid, s, steps).instance == s.instance
    decreases |steps|
  {
    if steps != [] {
      StepKeepsInv(valid, s, steps[0]);
      RunKeepsInv(valid, Apply(valid, s, steps[0]), steps[1..]);
    }
  }

  /** Start runs at most once; every caller that has returned holds the one instance, whose Start is over; and
      whoever returns later in the run holds the same, so IsInitialized never changes its answer. */
  lemma OneStartedInstance(valid: seq<bool>, steps: seq<Step>, more: seq<Step>)
    requires Legal(valid, Init(valid), steps) && Legal(valid, After(valid, Init(valid), steps), more)
    ensures var s, later := After(valid, Init(valid), steps), After(valid, After(valid, Init(valid), steps), more);
            && later.starts <= 1
            && (forall i | 0 <= i < |s.pcs| && s.pcs[i].Returned? ::
                  && s.starts == 1 && s.pcs[i].result.Some?
                  && forall j | 0 <= j < |later.pcs| && later.pcs[j].Returned? ::
                       later.pcs[j].result == s.pcs[i].result)
  {
    RunKeepsInv(valid, Init(valid), steps);
    var s := After(valid, Init(valid), steps);
    RunKeepsInv(valid, s, more);
    var later := After(valid, s, more);
    forall i, j | 0 <= i < |s.pcs| && s.pcs[i].Returned? && 0 <= j < |later.pcs| && later.pcs[j].Returned?
      ensures later.pcs[j].result == s.pcs[i].result
    {
      assert PcOk(s, s.pcs[i]) && PcOk(later, later.pcs[j]);
    }
    assert forall i | 0 <= i < |s.pcs| :: PcOk(s, s.pcs[i]);
  }

  /** Nobody is turned away but callers without a ctx or a client, and those always are. */
  predicate Admitted(valid: seq<bool>, s: State) {
    && |s.pcs| == |valid|
    && forall i | 0 <= i < |s.pcs| && !s.pcs[i].Entry? :: s.pcs[i].Rejected? <==> !valid[i]
  }

  lemma {:induction false} RunAdmits(valid: seq<bool>, s: State, steps: seq<Step>)
    requires Admitted(valid, s) && Legal(valid, s, steps)
    ensures Admitted(valid, After(valid, s, steps))
    decreases |steps|
  {
    if steps != [] {
      RunAdmits(valid, Apply(valid, s, steps[0]), steps[1..]);
    }
  }

  /** A caller that is through was rejected exactly when its arguments were not valid. */
  lemma OnlyInvalidCallersRejected(valid: seq<bool>, steps: seq<Step>, i: nat)
    requires Legal(valid, Init(valid), steps) && i < |valid|
    ensures var s := After(valid, Init(valid), steps);
            && |s.pcs| == |valid|
            && (s.pcs[i].Rejected? ==> !valid[i])
            && (s.pcs[i].Returned? ==> valid[i])
  {
    RunAdmits(valid, Init(valid), steps);
  }

  /** The instance is, or is about to be, the one that caller i has built and whose Start answered so. */
  predicate BuiltBy(s: State, i: nat, initialized: bool) {
    && i < |s.pcs|
    && (s.pcs[i] == Publishing(initialized) || s.instance == Some(Client(i, initialized)))
  }

  lemma {:induction false} RunKeepsBuilder(valid: seq<bool>, s: State, steps: seq<Step>, i: nat, initialized: bool)
    requires Inv(valid, s) && BuiltBy(s, i, initialized) && Legal(valid, s, steps)
    ensures Inv(valid, After(valid, s, steps)) && BuiltBy(After(valid, s, steps), i, initialized)
    decreases |steps|
  {
    if steps != [] {
      StepKeepsInv(valid, s, steps[0]);
      RunKeepsBuilder(valid, Apply(valid, s, steps[0]), steps[1..], i, initialized);
    }
  }

  /** Start decides: whether its environment let it initialise the client is what every caller that ever returns
      sees. */
  lemma StartDecides(valid: seq<bool>, steps: seq<Step>, start: Step, more: seq<Step>)
    requires Legal(valid, Init(valid), steps)
    requires var s := After(valid, Init(valid), steps);
             && Enabled(valid, s, start) && s.pcs[start.i].Starting? && Legal(valid, Apply(valid, s, start), more)
    ensures var end := After(valid, Apply(valid, After(valid, Init(valid), steps), start), more);
            forall j | 0 <= j < |end.pcs| && end.pcs[j].Returned? ::
              end.pcs[j].result == Some(Client(start.i, start.succeeds))
  {
    RunKeepsInv(valid, Init(valid), steps);
    var s := After(valid, Init(valid), steps);
    StepKeepsInv(valid, s, start);
    RunKeepsBuilder(valid, Apply(valid, s, start), more, start.i, start.succeeds);
    var end := After(valid, Apply(valid, s, start), more);
    forall j | 0 <= j < |end.pcs| && end.pcs[j].Returned?
      ensures end.pcs[j].result == Some(Client(start.i, start.succeeds))
    {
      assert PcOk(end, end.pcs[j]) && PcOk(end, end.pcs[start.i]);
    }
  }

  /* ---------- every caller returns ---------- */

  function Rank(pc: Pc): nat {
    match pc
    case Entry => 7
    case WantLock => 6
    case Locked => 5
    case Starting => 4
    case Publishing(_) => 3
    case Reading(_) => 2
    case Unlocking(_) => 1
    case _ => 0
  }

  function Measure(pcs: seq<Pc>): nat {
    if pcs == [] then 0 else Rank(pcs[0]) + Measure(pcs[1..])
  }

  lemma {:induction false} MeasureUpdate(pcs: seq<Pc>, i: nat, pc: Pc)
    requires i < |pcs|
    ensures Measure(pcs[i := pc]) + Rank(pcs[i]) == Measure(pcs) + Rank(pc)
  {
    if i == 0 {
      assert pcs[0 := pc][1..] == pcs[1..];
    } else {
      MeasureUpdate(pcs[1..], i - 1, pc);
      assert pcs[i := pc][1..] == pcs[1..][i - 1 := pc];
    }
  }

  /** No deadlock and no endless run: while a caller is inside, somebody can move, and every move counts down. */
  lemma CallersReturn(valid: seq<bool>, s: State, step: Step, i: nat) returns (next: Step)
    requires Inv(valid, s) && i < |s.pcs| && !s.pcs[i].Returned? && !s.pcs[i].Rejected?
    ensures Enabled(valid, s, next)
    ensures Enabled(valid, s, step) ==> Measure(Apply(valid, s, step).pcs) < Measure(s.pcs)
  {
    if Enabled(valid, s, step) {
      MeasureUpdate(s.pcs, step.i, Apply(valid, s, step).pcs[step.i]);
    }
    next := if s.lock.Some? then Step(s.lock.value, true) else Step(i, true);
  }
}
