/** The quota feedback loop of one namespace: triggers on the workload side, posts in flight, handlers that
    write the posted value to git, and syncs that copy git back to the workload. */
module QuotaLoop {
  import opened Options
  import Limiter

  /** spec.hard of a ResourceQuota. */
  type Hard = map<string, int>

  const LIMITS_CPU := "limits.cpu"
  const LIMITS_MEMORY := "limits.memory"

  /** time.Minute in nanoseconds. */
  const MINUTE := 60_000_000_000

  datatype Config = Config(namespace: string, initial: Hard, stepCpu: int, stepMemory: int)

  function Get(hard: Hard, key: string): int {
    GetOr(hard, key, 0)
  }

  /** The object a trigger posts: both limits raised by one step, every other key as read. */
  function Bump(cfg: Config, hard: Hard): Hard {
    hard[LIMITS_CPU := Get(hard, LIMITS_CPU) + cfg.stepCpu][LIMITS_MEMORY := Get(hard, LIMITS_MEMORY) + cfg.stepMemory]
  }

  /** A granted trigger that has yet to read the quota, or its post on the way to git. */
  datatype Request = Started(grantedAt: int) | Sent(grantedAt: int, hard: Hard)

  /** `versions` are the values the workload cluster has held, the last one current; reads go through a
      cache and may see an older one. `firstGrant` and `grants` are history. */
  datatype State = State(
    now: int,
    limiter: map<string, int>,
    versions: seq<Hard>,
    git: Hard,
    requests: seq<Request>,
    firstGrant: int,
    grants: nat)

  datatype Step =
    | Tick(to: int)
    | Trigger
    | Elsewhere(namespace: string)   // a trigger of another namespace, through the same limiter
    | Read(i: nat, version: nat)
    | Deliver(i: nat)
    | Drop(i: nat)                   // any failure between the grant and the push
    | Sync

  function Init(cfg: Config, start: int): State {
    State(start, map[], [cfg.initial], cfg.initial, [], start, 0)
  }

  function Work(s: State): Hard
    requires s.versions != []
  {
    s.versions[|s.versions| - 1]
  }

  predicate Enabled(cfg: Config, s: State, step: Step) {
    match step
    case Tick(to) => to >= s.now
    case Trigger => true
    case Elsewhere(namespace) => namespace != cfg.namespace
    case Read(i, version) => i < |s.requests| && s.requests[i].Started? && version < |s.versions|
    case Deliver(i) => i < |s.requests| && s.requests[i].Sent?
    case Drop(i) => i < |s.requests|
    case Sync => true
  }

  predicate Allowed(cfg: Config, s: State) {
    Limiter.Allows(s.limiter, Limiter.Call(cfg.namespace, s.now), MINUTE)
  }

  function Without(requests: seq<Request>, i: nat): seq<Request>
    requires i < |requests|
  {
    requests[..i] + requests[i + 1..]
  }

  function Apply(cfg: Config, s: State, step: Step): State
    requires Enabled(cfg, s, step)
  {
    match step
    case Tick(to) => s.(now := to)
    case Trigger =>
      if Allowed(cfg, s) then
        s.(limiter := Limiter.Noted(s.limiter, Limiter.Call(cfg.namespace, s.now), MINUTE),
           requests := s.requests + [Started(s.now)],
           firstGrant := if s.grants == 0 then s.now else s.firstGrant,
           grants := s.grants + 1)
      else s
    case Elsewhere(namespace) => s.(limiter := Limiter.Noted(s.limiter, Limiter.Call(namespace, s.now), MINUTE))
    case Read(i, version) =>
      s.(requests := s.requests[i := Sent(s.requests[i].grantedAt, Bump(cfg, s.versions[version]))])
    case Deliver(i) => s.(git := s.requests[i].hard, requests := Without(s.requests, i))
    case Drop(i) => s.(requests := Without(s.requests, i))
    case Sync => s.(versions := s.versions + [s.git])
  }

  predicate Legal(cfg: Config, s: State, steps: seq<Step>)
    decreases |steps|
  {
    steps == [] || (Enabled(cfg, s, steps[0]) && Legal(cfg, Apply(cfg, s, steps[0]), steps[1..]))
  }

  function After(cfg: Config, s: State, steps: seq<Step>): State
    requires Legal(cfg, s, steps)
    decreases |steps|
  {
    if steps == [] then s else After(cfg, Apply(cfg, s, steps[0]), steps[1..])
  }

  ghost predicate Reachable(cfg: Config, s: State) {
    exists start: int, steps: seq<Step> ::
      Legal(cfg, Init(cfg, start), steps) && After(cfg, Init(cfg, start), steps) == s
  }

  /* ---------- growth ---------- */

  /** The initial quota raised by j steps. */
  function Level(cfg: Config, j: nat): Hard {
    if j == 0 then cfg.initial else Bump(cfg, Level(cfg, j - 1))
  }

  ghost predicate AtMostLevel(cfg: Config, hard: Hard, hi: int) {
    exists j: nat | j <= hi :: hard == Level(cfg, j)
  }

  function Unread(requests: seq<Request>): nat {
    if requests == [] then 0 else (if requests[0].Started? then 1 else 0) + Unread(requests[1..])
  }

  /** Grants that may already have reached a value. */
  function Used(s: State): int {
    s.grants - Unread(s.requests)
  }

  ghost predicate Levelled(cfg: Config, s: State) {
    && Used(s) >= 0
    && AtMostLevel(cfg, s.git, Used(s))
    && (forall v | 0 <= v < |s.versions| :: AtMostLevel(cfg, s.versions[v], Used(s)))
    && (forall i | 0 <= i < |s.requests| && s.requests[i].Sent? :: AtMostLevel(cfg, s.requests[i].hard, Used(s)))
  }

  predicate Paced(cfg: Config, s: State) {
    && s.versions != []
    && (s.grants > 0 <==> cfg.namespace in s.limiter)
    && (s.grants > 0 ==>
          s.firstGrant + (s.grants - 1) * MINUTE <= s.limiter[cfg.namespace] <= s.now)
    && (forall i | 0 <= i < |s.requests| :: s.grants > 0 && s.requests[i].grantedAt <= s.limiter[cfg.namespace])
  }

  ghost predicate Inv(cfg: Config, s: State) {
    Levelled(cfg, s) && Paced(cfg, s)
  }

  lemma {:induction false} UnreadConcat(a: seq<Request>, b: seq<Request>)
    ensures Unread(a + b) == Unread(a) + Unread(b)
  {
    if a == [] {
      assert a + b == b;
    } else {
      UnreadConcat(a[1..], b);
      assert (a + b)[1..] == a[1..] + b;
    }
  }

  /** Replacing or removing request i changes the unread count by that request alone. */
  lemma UnreadSplit(requests: seq<Request>, i: nat, r: Request)
    requires i < |requests|
    ensures Unread(requests) == Unread(Without(requests, i)) + if requests[i].Started? then 1 else 0
    ensures Unread(requests[i := r]) == Unread(Without(requests, i)) + if r.Started? then 1 else 0
  {
    var a, b := requests[..i], requests[i + 1..];
    assert requests == a + ([requests[i]] + b) && requests[i := r] == a + ([r] + b);
    UnreadConcat(a, b);
    UnreadConcat(a, [requests[i]] + b);
    UnreadConcat(a, [r] + b);
  }

  lemma Raise(cfg: Config, hard: Hard, lo: int, hi: int)
    requires AtMostLevel(cfg, hard, lo) && lo <= hi
    ensures AtMostLevel(cfg, hard, hi)
    ensures lo < hi ==> AtMostLevel(cfg, Bump(cfg, hard), hi)
  {
    var j: nat :| j <= lo && hard == Level(cfg, j);
    assert Bump(cfg, hard) == Level(cfg, j + 1);
  }

  lemma UsedGrows(cfg: Config, s: State, step: Step)
    requires Enabled(cfg, s, step)
    ensures var s' := Apply(cfg, s, step);
            && Used(s) <= Used(s') <= s'.grants
            && (step.Read? ==> Used(s) < Used(s'))
  {
    if step.Trigger? {
      UnreadConcat(s.requests, [Started(s.now)]);
    } else if step.Read? {
      UnreadSplit(s.requests, step.i, Apply(cfg, s, step).requests[step.i]);
    } else if step.Deliver? || step.Drop? {
      UnreadSplit(s.requests, step.i, s.requests[step.i]);
    }
  }

  lemma KeepsLevelled(cfg: Config, s: State, step: Step)
    requires Levelled(cfg, s) && Enabled(cfg, s, step)
    ensures Levelled(cfg, Apply(cfg, s, step))
  {
    var s' := Apply(cfg, s, step);
    UsedGrows(cfg, s, step);
    forall hard | AtMostLevel(cfg, hard, Used(s)) ensures AtMostLevel(cfg, hard, Used(s')) {
      Raise(cfg, hard, Used(s), Used(s'));
    }
    if step.Read? {
      Raise(cfg, s.versions[step.version], Used(s), Used(s'));
    }
  }

  lemma KeepsPaced(cfg: Config, s: State, step: Step)
    requires Paced(cfg, s) && Enabled(cfg, s, step)
    ensures Paced(cfg, Apply(cfg, s, step))
  {
  }

  lemma {:induction false} RunKeepsInv(cfg: Config, s: State, steps: seq<Step>)
    requires Inv(cfg, s) && Legal(cfg, s, steps)
    ensures Inv(cfg, After(cfg, s, steps))
    decreases |steps|
  {
    if steps != [] {
      KeepsLevelled(cfg, s, steps[0]);
      KeepsPaced(cfg, s, steps[0]);
      RunKeepsInv(cfg, Apply(cfg, s, steps[0]), steps[1..]);
    }
  }

  lemma ReachableInv(cfg: Config, s: State)
    requires Reachable(cfg, s)
    ensures Inv(cfg, s)
  {
    var start: int, steps: seq<Step> :| Legal(cfg, Init(cfg, start), steps) && After(cfg, Init(cfg, start), steps) == s;
    assert cfg.initial == Level(cfg, 0);
    RunKeepsInv(cfg, Init(cfg, start), steps);
  }

  lemma BumpValues(cfg: Config, hard: Hard)
    ensures Get(Bump(cfg, hard), LIMITS_CPU) == Get(hard, LIMITS_CPU) + cfg.stepCpu
    ensures Get(Bump(cfg, hard), LIMITS_MEMORY) == Get(hard, LIMITS_MEMORY) + cfg.stepMemory
    ensures Bump(cfg, hard) - {LIMITS_CPU, LIMITS_MEMORY} == hard - {LIMITS_CPU, LIMITS_MEMORY}
  {
    assert |LIMITS_CPU| != |LIMITS_MEMORY|;
  }

  lemma ProductStep(j: int, step: int)
    ensures (j - 1) * step + step == j * step
  {
  }

  /** In numbers: j steps up, the limits are init + j * step and every other key is as it was. */
  lemma {:induction false} LevelValues(cfg: Config, j: nat)
    ensures Get(Level(cfg, j), "limits.cpu") == Get(cfg.initial, "limits.cpu") + j * cfg.stepCpu
    ensures Get(Level(cfg, j), "limits.memory") == Get(cfg.initial, "limits.memory") + j * cfg.stepMemory
    ensures Level(cfg, j) - {"limits.cpu", "limits.memory"} == cfg.initial - {"limits.cpu", "limits.memory"}
  {
    if j > 0 {
      LevelValues(cfg, j - 1);
      var below := Level(cfg, j - 1);
      assert Level(cfg, j) == Bump(cfg, below);
      BumpValues(cfg, below);
      ProductStep(j, cfg.stepCpu);
      ProductStep(j, cfg.stepMemory);
    }
  }

  lemma InvBound(cfg: Config, s: State)
    requires Inv(cfg, s)
    ensures AtMostLevel(cfg, s.git, s.grants)
    ensures forall v | 0 <= v < |s.versions| :: AtMostLevel(cfg, s.versions[v], s.grants)
    ensures s.grants > 0 ==> s.firstGrant <= s.now && s.grants <= 1 + (s.now - s.firstGrant) / MINUTE
  {
    Raise(cfg, s.git, Used(s), s.grants);
    forall v | 0 <= v < |s.versions| ensures AtMostLevel(cfg, s.versions[v], s.grants) {
      Raise(cfg, s.versions[v], Used(s), s.grants);
    }
    if s.grants > 0 {
      assert (s.grants - 1) * MINUTE <= s.now - s.firstGrant;
    }
  }

  /** Growth bound: whatever is delayed, reordered, dropped or read stale, every value git or the workload
      ever holds is the initial one raised by at most as many steps as there were grants, and there is at
      most one grant per minute started since the first. */
  lemma GrowthBound(cfg: Config, s: State)
    requires Reachable(cfg, s)
    ensures AtMostLevel(cfg, s.git, s.grants)
    ensures forall v | 0 <= v < |s.versions| :: AtMostLevel(cfg, s.versions[v], s.grants)
    ensures s.grants > 0 ==> s.firstGrant <= s.now && s.grants <= 1 + (s.now - s.firstGrant) / MINUTE
  {
    ReachableInv(cfg, s);
    InvBound(cfg, s);
  }
}
