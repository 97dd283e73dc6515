/** The reconcile decision: has the quota denied something, does the namespace fit on a node, is a workload
    short of pods; and from that whether to raise the quota, add a node, or do nothing. */
module Reconciler {
  import opened Capacity
  import opened Options
  import Text

  datatype Condition = Condition(kind: string, status: string, message: string)

  datatype Deployment = Deployment(conditions: seq<Condition>)

  datatype ReplicaSet = ReplicaSet(name: string, desired: int, ready: int, conditions: seq<Condition>)

  datatype Event = Event(
    kind: string,
    reason: string,
    message: string,
    lastSeen: int,
    objectKind: string,
    objectName: string)

  /** Status of the ResourceQuota, keyed by resource name. */
  datatype Quota = Quota(hard: map<string, int>, used: map<string, int>)

  datatype Lookup = NotFound | LookupError | Found

  /** What the API server would answer during one reconciliation; None is a failed list or get. Times are in
      nanoseconds. `denials` come from the quota's namespace, `shortages` from the request's. */
  datatype World = World(
    serverType: string,
    scaler: Lookup,
    quota: Option<Quota>,
    deployments: Option<seq<Deployment>>,
    replicaSets: Option<seq<ReplicaSet>>,
    events: Option<seq<Event>>,
    now: int,
    nodes: Option<seq<Node>>,
    pods: Option<seq<Pod>>,
    namespacePods: Option<seq<Pod>>,
    shortReplicaSets: Option<seq<ReplicaSet>>,
    shortEvents: Option<seq<Event>>)

  datatype Decision =
    | Ignore
    | ReturnError
    | Requeue(seconds: nat)
    | RaiseQuota
    | AddNode
    | NilDereference   // reading a field of the nil result of a failed computeClusterFree

  const TWO_MINUTES := 120_000_000_000

  /* ---------- denial ---------- */

  predicate Exhausted(q: Quota, key: string) {
    GetOr(q.hard, key, 0) > 0 && GetOr(q.used, key, 0) >= GetOr(q.hard, key, 0)
  }

  predicate MentionsQuota(c: Condition) {
    c.kind == "ReplicaFailure" && Text.Contains(Text.ToLower(c.message), "quota")
  }

  predicate RecentDenial(e: Event, now: int) {
    && e.kind == "Warning"
    && (e.reason == "FailedCreate" || Text.Contains(Text.ToLower(e.message), "exceeded quota"))
    && now - e.lastSeen <= TWO_MINUTES
  }

  /** The conditions of a list of Deployments, as a set: nested order and repetition are gone. */
  ghost function DeploymentConditions(ds: seq<Deployment>): set<Condition> {
    set d, c | d in ds && c in d.conditions :: c
  }

  ghost function ReplicaSetConditions(rs: seq<ReplicaSet>): set<Condition> {
    set r, c | r in rs && c in r.conditions :: c
  }

  ghost predicate Denied(q: Quota, ds: Option<seq<Deployment>>, rs: Option<seq<ReplicaSet>>,
                         es: Option<seq<Event>>, now: int)
  {
    || Exhausted(q, "cpu")
    || Exhausted(q, "memory")
    || (ds.Some? && exists c | c in DeploymentConditions(ds.value) :: MentionsQuota(c))
    || (rs.Some? && exists c | c in ReplicaSetConditions(rs.value) :: MentionsQuota(c))
    || (es.Some? && exists e | e in es.value :: RecentDenial(e, now))
  }

  method AnyMentionsQuota(conditions: seq<Condition>) returns (found: bool)
    ensures found <==> exists c | c in conditions :: MentionsQuota(c)
  {
    for i := 0 to |conditions|
      invariant forall k | 0 <= k < i :: !MentionsQuota(conditions[k])
    {
      if conditions[i].kind == "ReplicaFailure" && Text.Contains(Text.ToLower(conditions[i].message), "quota") {
        assert MentionsQuota(conditions[i]);
        return true;
      }
    }
    found := false;
  }

  method DeploymentsDenied(ds: seq<Deployment>) returns (found: bool)
    ensures found <==> exists c | c in DeploymentConditions(ds) :: MentionsQuota(c)
  {
    for i := 0 to |ds|
      invariant forall k, c | 0 <= k < i && c in ds[k].conditions :: !MentionsQuota(c)
    {
      var hit := AnyMentionsQuota(ds[i].conditions);
      if hit {
        return true;
      }
    }
    found := false;
  }

  method ReplicaSetsDenied(rs: seq<ReplicaSet>) returns (found: bool)
    ensures found <==> exists c | c in ReplicaSetConditions(rs) :: MentionsQuota(c)
  {
    for i := 0 to |rs|
      invariant forall k, c | 0 <= k < i && c in rs[k].conditions :: !MentionsQuota(c)
    {
      var hit := AnyMentionsQuota(rs[i].conditions);
      if hit {
        return true;
      }
    }
    found := false;
  }

  method EventsDenied(es: seq<Event>, now: int) returns (found: bool)
    ensures found <==> exists e | e in es :: RecentDenial(e, now)
  {
    for i := 0 to |es|
      invariant forall k | 0 <= k < i :: !RecentDenial(es[k], now)
    {
      if es[i].kind != "Warning" {
        continue;
      }
      if es[i].reason != "FailedCreate" && !Text.Contains(Text.ToLower(es[i].message), "exceeded quota") {
        continue;
      }
      if now - es[i].lastSeen <= TWO_MINUTES {
        assert RecentDenial(es[i], now);
        return true;
      }
    }
    found := false;
  }

  /** The nested searches with early exits amount to existentials; a failed list counts as no evidence. */
  method DetectQuotaExceeded(q: Quota, ds: Option<seq<Deployment>>, rs: Option<seq<ReplicaSet>>,
                             es: Option<seq<Event>>, now: int)
    returns (denied: bool)
    ensures denied <==> Denied(q, ds, rs, es, now)
  {
    if Exhausted(q, "cpu") || Exhausted(q, "memory") {
      return true;
    }
    if ds.Some? {
      denied := DeploymentsDenied(ds.value);
      if denied {
        return;
      }
    }
    if rs.Some? {
      denied := ReplicaSetsDenied(rs.value);
      if denied {
        return;
      }
    }
    denied := false;
    if es.Some? {
      denied := EventsDenied(es.value, now);
    }
  }

  /* ---------- shortage ---------- */

  predicate ReplicaFailing(c: Condition) {
    c.kind == "ReplicaFailure" && c.status == "True"
  }

  predicate Blames(e: Event, name: string) {
    && e.objectKind == "ReplicaSet" && e.objectName == name && e.kind == "Warning"
    && (|| Text.Contains(e.message, "exceeded quota")
        || Text.Contains(e.message, "Insufficient")
        || Text.Contains(e.message, "nodes are available"))
  }

  /** Names of the ReplicaSets that are short of ready pods and report a failure. */
  ghost function FailingNames(rs: seq<ReplicaSet>): set<string> {
    set r, c | r in rs && c in r.conditions && r.ready < r.desired && ReplicaFailing(c) :: r.name
  }

  /** A failed event list inside the search is ignored and reads as empty. */
  function Listed<T>(list: Option<seq<T>>): seq<T> {
    if list.Some? then list.value else []
  }

  ghost predicate Short(rs: Option<seq<ReplicaSet>>, es: Option<seq<Event>>) {
    rs.Some? && exists name, e | name in FailingNames(rs.value) && e in Listed(es) :: Blames(e, name)
  }

  method AnyBlames(es: seq<Event>, name: string) returns (found: bool)
    ensures found <==> exists e | e in es :: Blames(e, name)
  {
    for i := 0 to |es|
      invariant forall k | 0 <= k < i :: !Blames(es[k], name)
    {
      if Blames(es[i], name) {
        return true;
      }
    }
    found := false;
  }

  method IsShort(r: ReplicaSet, es: seq<Event>) returns (found: bool)
    ensures found <==> && r.ready < r.desired && (exists c | c in r.conditions :: ReplicaFailing(c))
                       && exists e | e in es :: Blames(e, r.name)
  {
    if r.ready < r.desired {
      for i := 0 to |r.conditions|
        invariant forall k | 0 <= k < i :: ReplicaFailing(r.conditions[k]) ==> !exists e | e in es :: Blames(e, r.name)
      {
        if ReplicaFailing(r.conditions[i]) {
          found := AnyBlames(es, r.name);
          if found {
            return;
          }
        }
      }
    }
    found := false;
  }

  method DetectWorkloadShortage(rs: Option<seq<ReplicaSet>>, es: Option<seq<Event>>) returns (short: bool)
    ensures short <==> Short(rs, es)
  {
    if rs.None? {
      return false;
    }
    for i := 0 to |rs.value|
      invariant forall k, c, e | 0 <= k < i && c in rs.value[k].conditions && e in Listed(es) ::
                  rs.value[k].ready < rs.value[k].desired && ReplicaFailing(c) ==> !Blames(e, rs.value[k].name)
    {
      var r := rs.value[i];
      var hit := IsShort(r, Listed(es));
      if hit {
        assert r.name in FailingNames(rs.value);
        return true;
      }
    }
    short := false;
  }

  /* ---------- the decision ---------- */

  /** What all pods of the namespace request together, finished ones included. */
  function Requested(pods: seq<Pod>): Amount {
    Total(pods, Demand)
  }

  method RequestedByNamespace(pods: seq<Pod>) returns (sum: Amount)
    ensures sum == Requested(pods)
  {
    sum := ZERO;
    for i := 0 to |pods|
      invariant sum == Requested(pods[..i])
    {
      TotalPrefix(pods, Demand, i);
      var all := pods[i].initContainers + pods[i].containers;
      ghost var before := sum;
      for j := 0 to |all|
        invariant sum == Plus(before, SumOf(all[..j]))
      {
        TotalPrefix(all, Request, j);
        PlusAssociates(before, SumOf(all[..j]), all[j]);
        sum := Plus(sum, all[j]);
      }
      assert all[..|all|] == all;
    }
    assert pods[..|pods|] == pods;
  }

  /** The reconciliation gets as far as evaluating the quota. */
  predicate Evaluates(w: World) {
    w.serverType != "MGMT" && w.scaler.Found? && w.quota.Some?
  }

  ghost predicate QuotaDenied(w: World) {
    Evaluates(w) && Denied(w.quota.value, w.deployments, w.replicaSets, w.events, w.now)
  }

  /** The namespace's requests exceed what is free on the node that has most, in some dimension. */
  ghost predicate Oversized(w: World) {
    && w.nodes.Some? && w.pods.Some? && w.namespacePods.Some?
    && forall r :: IsClusterFree(w.nodes.value, w.pods.value, r) ==> !Fits(Requested(w.namespacePods.value), r.maxNode)
  }

  /** When each decision is taken; Ignore is what remains. */
  ghost predicate Chosen(w: World, d: Decision) {
    && (d == RaiseQuota <==> QuotaDenied(w) && Oversized(w))
    && (d == AddNode <==> Evaluates(w) && !QuotaDenied(w) && Short(w.shortReplicaSets, w.shortEvents))
    && (d == NilDereference <==> QuotaDenied(w) && (w.nodes.None? || w.pods.None?))
    && (d == ReturnError <==> w.serverType != "MGMT" && w.scaler.LookupError?)
    && (d == Requeue(15) <==> w.serverType != "MGMT" && w.scaler.Found? && w.quota.None?)
    && (d == Requeue(20) <==> QuotaDenied(w) && w.nodes.Some? && w.pods.Some? && w.namespacePods.None?)
    && (d.Requeue? ==> d.seconds == 15 || d.seconds == 20)
  }

  method Reconcile(w: World) returns (d: Decision)
    ensures Chosen(w, d)
  {
    if w.serverType == "MGMT" || w.scaler.NotFound? {
      return Ignore;
    }
    if w.scaler.LookupError? {
      return ReturnError;
    }
    if w.quota.None? {
      return Requeue(15);
    }
    var denied := DetectQuotaExceeded(w.quota.value, w.deployments, w.replicaSets, w.events, w.now);
    if !denied {
      var short := DetectWorkloadShortage(w.shortReplicaSets, w.shortEvents);
      return if short then AddNode else Ignore;
    }
    if w.nodes.None? || w.pods.None? {
      return NilDereference;
    }
    var free := ComputeClusterFree(w.nodes.value, w.pods.value);
    if w.namespacePods.None? {
      return Requeue(20);
    }
    var requested := RequestedByNamespace(w.namespacePods.value);
    forall r | IsClusterFree(w.nodes.value, w.pods.value, r) ensures r == free {
      SummaryIsUnique(FreeOf(Workers(w.nodes.value), w.pods.value), r, free);
    }
    if
      && requested.cpu <= free.maxNode.cpu
      && requested.memory <= free.maxNode.memory
      && requested.gpu <= free.maxNode.gpu
    {
      d := Ignore;
    } else {
      d := RaiseQuota;
    }
  }
}
