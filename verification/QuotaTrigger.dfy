/** TriggerScaleUpResourceQuota: throttle, look everything up, add one step, post. */
module QuotaTrigger {
  import opened QuotaLoop
  import Limiter

  /** The answer of a list, get or parse. */
  datatype Answer<+T> = Failed | Got(value: T)

  /** What the API server, the environment and the endpoint would answer during one call. `quota` holds None
      when the fetched object has no spec.hard map at all. */
  datatype World = World(
    quotas: Answer<nat>,
    quota: Answer<HardMap>,
    scalers: Answer<nat>,
    scaler: Answer<ScaleStep>,
    endpoint: string,
    accepted: bool)

  datatype HardMap = NilMap | Map(hard: Hard)

  /** The two entries of scaleStep, each parsed or not. */
  datatype ScaleStep = ScaleStep(cpu: Answer<int>, memory: Answer<int>)

  datatype Outcome =
    | Throttled
    | LookupFailed      // a list or get failed
    | NotUnique         // none, or more than one, where one is required
    | InvalidStep
    | NilMapWrite       // assignment to an entry of a nil map
    | NoEndpoint
    | PostFailed(sent: Hard)
    | Posted(sent: Hard)

  predicate LookupsGood(w: World) {
    w.quotas == Got(1) && w.quota.Got? && w.scalers == Got(1) && w.scaler.Got?
  }

  /** The lists come back with none or several, the ResourceQuotas' first, before any lookup fails. */
  predicate Ambiguous(w: World) {
    && w.quotas.Got?
    && (w.quotas.value != 1 || (w.quota.Got? && w.scalers.Got? && w.scalers.value != 1))
  }

  predicate StepParses(step: ScaleStep) {
    step.cpu.Got? && step.memory.Got?
  }

  /** Everything a post needs. */
  predicate ReadyToPost(w: World) {
    && LookupsGood(w) && StepParses(w.scaler.value)
    && w.quota.value.Map? && w.endpoint != ""
  }

  /** The posted map: the cpu step on limits.cpu, the memory step on limits.memory, every other key as fetched. */
  ghost predicate PostsOneStepUp(fetched: Hard, step: ScaleStep, sent: Hard)
    requires StepParses(step)
  {
    && "limits.cpu" in sent && "limits.memory" in sent
    && sent["limits.cpu"] == (if "limits.cpu" in fetched then fetched["limits.cpu"] else 0) + step.cpu.value
    && sent["limits.memory"] == (if "limits.memory" in fetched then fetched["limits.memory"] else 0) + step.memory.value
    && forall key | key != "limits.cpu" && key != "limits.memory" ::
         (key in sent <==> key in fetched) && (key in sent ==> sent[key] == fetched[key])
  }

  function ConfigOf(namespace: string, w: World): Config
    requires ReadyToPost(w)
  {
    Config(namespace, w.quota.value.hard, w.scaler.value.cpu.value, w.scaler.value.memory.value)
  }

  /** A call is throttled exactly when the limiter refuses; a grant is charged even if the call then fails;
      and a post happens exactly when nothing fails, carrying the fetched quota raised by one step. */
  method TriggerScaleUpResourceQuota(limiter: Limiter.RateLimiter, namespace: string, now: int, w: World)
    returns (r: Outcome)
    modifies limiter
    ensures r.Throttled? <==> !Limiter.Allows(old(limiter.lastScale), Limiter.Call(namespace, now), MINUTE)
    ensures r.Throttled? <==> namespace in old(limiter.lastScale)
                              && now - old(limiter.lastScale)[namespace] < 60_000_000_000
    ensures limiter.lastScale == Limiter.Noted(old(limiter.lastScale), Limiter.Call(namespace, now), MINUTE)
    ensures !r.Throttled? ==> (r.Posted? || r.PostFailed? <==> ReadyToPost(w))
    ensures r.Posted? || r.PostFailed? ==>
              && r.sent == Bump(ConfigOf(namespace, w), w.quota.value.hard)
              && PostsOneStepUp(w.quota.value.hard, w.scaler.value, r.sent)
              && (r.Posted? <==> w.accepted)
    ensures !r.Throttled? && w.quotas.Got? && w.quotas.value != 1 ==> r == NotUnique
    ensures !r.Throttled? && w.quotas == Got(1) && w.quota.Got? && w.scalers.Got? && w.scalers.value != 1 ==>
              r == NotUnique
    ensures !r.Throttled? ==>
              && (r.NotUnique? <==> Ambiguous(w))
              && (r.LookupFailed? <==> !LookupsGood(w) && !Ambiguous(w))
              && (r.InvalidStep? <==> LookupsGood(w) && !StepParses(w.scaler.value))
              && (r.NilMapWrite? <==> LookupsGood(w) && StepParses(w.scaler.value) && w.quota.value.NilMap?)
              && (r.NoEndpoint? <==>
                    LookupsGood(w) && StepParses(w.scaler.value) && w.quota.value.Map? && w.endpoint == "")
  {
    var allowed := limiter.AllowScale(namespace, MINUTE, now);
    if !allowed {
      return Throttled;
    }
    if w.quotas.Failed? {
      return LookupFailed;
    }
    if w.quotas.value != 1 {
      return NotUnique;
    }
    if w.quota.Failed? || w.scalers.Failed? {
      return LookupFailed;
    }
    if w.scalers.value != 1 {
      return NotUnique;
    }
    if w.scaler.Failed? {
      return LookupFailed;
    }
    if w.scaler.value.cpu.Failed? || w.scaler.value.memory.Failed? {
      return InvalidStep;
    }
    if w.quota.value.NilMap? {
      return NilMapWrite;
    }
    var hard := w.quota.value.hard;
    var newCpu := Get(hard, LIMITS_CPU) + w.scaler.value.cpu.value;
    var newMemory := Get(hard, LIMITS_MEMORY) + w.scaler.value.memory.value;
    assert |LIMITS_CPU| != |LIMITS_MEMORY|;
    hard := hard[LIMITS_CPU := newCpu];
    hard := hard[LIMITS_MEMORY := newMemory];
    if w.endpoint == "" {
      return NoEndpoint;
    }
    r := if w.accepted then Posted(hard) else PostFailed(hard);
  }
}
