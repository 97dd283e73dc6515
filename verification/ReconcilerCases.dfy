/** The reconciliation spelled out: which quotas, conditions, events and messages make it act, and when. */
module ReconcilerCases {
  import opened Options
  import opened Capacity
  import CapacityCases
  import opened Reconciler
  import ReconcilerLaws
  import Text

  /** The text holds these words. */
  ghost predicate Says(text: string, words: string) {
    exists before: string, after: string :: text == before + words + after
  }

  /* ---------- denial ---------- */

  /** The status shows this resource used up. */
  predicate UsedUp(q: Quota, resource: string) {
    resource in q.hard && q.hard[resource] > 0
    && (if resource in q.used then q.used[resource] else 0) >= q.hard[resource]
  }

  /** A Deployment or ReplicaSet could not create its replicas for a reason that names the quota. */
  ghost predicate CreationDenied(c: Condition) {
    c.kind == "ReplicaFailure" && Says(Text.ToLower(c.message), "quota")
  }

  /** A warning of a failed creation, or of an exceeded quota, at most two minutes old. */
  ghost predicate FreshWarning(e: Event, now: int) {
    && e.kind == "Warning" && (e.reason == "FailedCreate" || Says(Text.ToLower(e.message), "exceeded quota"))
    && now <= e.lastSeen + 120_000_000_000
  }

  ghost predicate SeesDenial(w: World)
    requires w.quota.Some?
  {
    || UsedUp(w.quota.value, "cpu")
    || UsedUp(w.quota.value, "memory")
    || (w.deployments.Some? && exists i, j ::
          0 <= i < |w.deployments.value| && 0 <= j < |w.deployments.value[i].conditions|
          && CreationDenied(w.deployments.value[i].conditions[j]))
    || (w.replicaSets.Some? && exists i, j ::
          0 <= i < |w.replicaSets.value| && 0 <= j < |w.replicaSets.value[i].conditions|
          && CreationDenied(w.replicaSets.value[i].conditions[j]))
    || (w.events.Some? && exists i :: 0 <= i < |w.events.value| && FreshWarning(w.events.value[i], w.now))
  }

  lemma ConditionMeaning(c: Condition)
    ensures MentionsQuota(c) <==> CreationDenied(c)
  {
    Text.ContainsIff(Text.ToLower(c.message), "quota");
  }

  lemma EventMeaning(e: Event, now: int)
    ensures RecentDenial(e, now) <==> FreshWarning(e, now)
  {
    Text.ContainsIff(Text.ToLower(e.message), "exceeded quota");
  }

  lemma DeploymentsMeaning(ds: seq<Deployment>)
    ensures (exists c | c in DeploymentConditions(ds) :: MentionsQuota(c))
            <==> exists i, j :: 0 <= i < |ds| && 0 <= j < |ds[i].conditions| && CreationDenied(ds[i].conditions[j])
  {
    forall c {
      ConditionMeaning(c);
    }
    if exists c | c in DeploymentConditions(ds) :: MentionsQuota(c) {
      var c :| c in DeploymentConditions(ds) && MentionsQuota(c);
      var d :| d in ds && c in d.conditions;
      var i :| 0 <= i < |ds| && ds[i] == d;
      var j :| 0 <= j < |d.conditions| && d.conditions[j] == c;
      assert CreationDenied(ds[i].conditions[j]);
    }
    if exists i, j :: 0 <= i < |ds| && 0 <= j < |ds[i].conditions| && CreationDenied(ds[i].conditions[j]) {
      var i, j :| 0 <= i < |ds| && 0 <= j < |ds[i].conditions| && CreationDenied(ds[i].conditions[j]);
      assert ds[i] in ds && ds[i].conditions[j] in ds[i].conditions;
      assert ds[i].conditions[j] in DeploymentConditions(ds);
    }
  }

  lemma ReplicaSetsMeaning(rs: seq<ReplicaSet>)
    ensures (exists c | c in ReplicaSetConditions(rs) :: MentionsQuota(c))
            <==> exists i, j :: 0 <= i < |rs| && 0 <= j < |rs[i].conditions| && CreationDenied(rs[i].conditions[j])
  {
    forall c {
      ConditionMeaning(c);
    }
    if exists c | c in ReplicaSetConditions(rs) :: MentionsQuota(c) {
      var c :| c in ReplicaSetConditions(rs) && MentionsQuota(c);
      var r :| r in rs && c in r.conditions;
      var i :| 0 <= i < |rs| && rs[i] == r;
      var j :| 0 <= j < |r.conditions| && r.conditions[j] == c;
      assert CreationDenied(rs[i].conditions[j]);
    }
    if exists i, j :: 0 <= i < |rs| && 0 <= j < |rs[i].conditions| && CreationDenied(rs[i].conditions[j]) {
      var i, j :| 0 <= i < |rs| && 0 <= j < |rs[i].conditions| && CreationDenied(rs[i].conditions[j]);
      assert rs[i] in rs && rs[i].conditions[j] in rs[i].conditions;
      assert rs[i].conditions[j] in ReplicaSetConditions(rs);
    }
  }

  lemma EventsMeaning(es: seq<Event>, now: int)
    ensures (exists e | e in es :: RecentDenial(e, now)) <==> exists i :: 0 <= i < |es| && FreshWarning(es[i], now)
  {
    forall e {
      EventMeaning(e, now);
    }
    if exists e | e in es :: RecentDenial(e, now) {
      var e :| e in es && RecentDenial(e, now);
      var i :| 0 <= i < |es| && es[i] == e;
      assert FreshWarning(es[i], now);
    }
    if exists i :: 0 <= i < |es| && FreshWarning(es[i], now) {
      var i :| 0 <= i < |es| && FreshWarning(es[i], now);
      assert es[i] in es;
    }
  }

  /** Outside the management cluster, with the NamespaceQuota and the ResourceQuota found, a denial is seen exactly
      when one of the five signals is there. */
  lemma DenialIff(w: World)
    ensures QuotaDenied(w) <==> w.serverType != "MGMT" && w.scaler.Found? && w.quota.Some? && SeesDenial(w)
  {
    if w.deployments.Some? {
      DeploymentsMeaning(w.deployments.value);
    }
    if w.replicaSets.Some? {
      ReplicaSetsMeaning(w.replicaSets.value);
    }
    if w.events.Some? {
      EventsMeaning(w.events.value, w.now);
    }
  }

  /* ---------- shortage ---------- */

  /** An event says why this ReplicaSet has no pods. */
  ghost predicate ExplainsShortage(e: Event, name: string) {
    && e.objectKind == "ReplicaSet" && e.objectName == name && e.kind == "Warning"
    && (Says(e.message, "exceeded quota") || Says(e.message, "Insufficient") || Says(e.message, "nodes are available"))
  }

  /** Some ReplicaSet has fewer ready pods than it wants, reports the failure, and an event explains it. */
  ghost predicate SeesShortage(rs: seq<ReplicaSet>, es: seq<Event>) {
    exists i, j, k ::
      && 0 <= i < |rs| && rs[i].ready < rs[i].desired
      && 0 <= j < |rs[i].conditions|
      && rs[i].conditions[j].kind == "ReplicaFailure" && rs[i].conditions[j].status == "True"
      && 0 <= k < |es| && ExplainsShortage(es[k], rs[i].name)
  }

  lemma BlameMeaning(e: Event, name: string)
    ensures Blames(e, name) <==> ExplainsShortage(e, name)
  {
    Text.ContainsIff(e.message, "exceeded quota");
    Text.ContainsIff(e.message, "Insufficient");
    Text.ContainsIff(e.message, "nodes are available");
  }

  lemma ShortIsSeen(rs: seq<ReplicaSet>, es: seq<Event>)
    requires Short(Some(rs), Some(es))
    ensures SeesShortage(rs, es)
  {
    var name, e :| name in FailingNames(rs) && e in es && Blames(e, name);
    BlameMeaning(e, name);
    var r, c :| r in rs && c in r.conditions && r.ready < r.desired && ReplicaFailing(c) && r.name == name;
    var i :| 0 <= i < |rs| && rs[i] == r;
    var j :| 0 <= j < |r.conditions| && r.conditions[j] == c;
    var k :| 0 <= k < |es| && es[k] == e;
    assert rs[i].conditions[j].status == "True" && ExplainsShortage(es[k], rs[i].name);
  }

  lemma SeenIsShort(rs: seq<ReplicaSet>, es: seq<Event>)
    requires SeesShortage(rs, es)
    ensures Short(Some(rs), Some(es))
  {
    var i, j, k :|
      && 0 <= i < |rs| && rs[i].ready < rs[i].desired
      && 0 <= j < |rs[i].conditions|
      && rs[i].conditions[j].kind == "ReplicaFailure" && rs[i].conditions[j].status == "True"
      && 0 <= k < |es| && ExplainsShortage(es[k], rs[i].name);
    BlameMeaning(es[k], rs[i].name);
    assert rs[i] in rs && rs[i].conditions[j] in rs[i].conditions && es[k] in es;
    assert ReplicaFailing(rs[i].conditions[j]);
    assert rs[i].name in FailingNames(rs);
  }

  /* ---------- the decision ---------- */

  /** When nodes are added: no denial is seen, and a shortage is. A list of ReplicaSets that fails shows none, a list
      of events that fails explains none. */
  lemma AddNodeIff(w: World, d: Decision)
    requires Chosen(w, d)
    ensures d == AddNode <==>
              && w.serverType != "MGMT" && w.scaler.Found? && w.quota.Some? && !SeesDenial(w)
              && w.shortReplicaSets.Some? && w.shortEvents.Some?
              && SeesShortage(w.shortReplicaSets.value, w.shortEvents.value)
  {
    DenialIff(w);
    if w.shortReplicaSets.Some? && w.shortEvents.Some? {
      if Short(w.shortReplicaSets, w.shortEvents) {
        ShortIsSeen(w.shortReplicaSets.value, w.shortEvents.value);
      }
      if SeesShortage(w.shortReplicaSets.value, w.shortEvents.value) {
        SeenIsShort(w.shortReplicaSets.value, w.shortEvents.value);
      }
    }
  }

  /** The ways out before and around the capacity test. */
  lemma EarlyDecisions(w: World, d: Decision)
    requires Chosen(w, d)
    ensures w.serverType == "MGMT" || w.scaler.NotFound? ==> d == Ignore
    ensures w.serverType != "MGMT" && w.scaler.LookupError? ==> d == ReturnError
    ensures w.serverType != "MGMT" && w.scaler.Found? && w.quota.None? ==> d == Requeue(15)
    ensures w.serverType != "MGMT" && w.scaler.Found? && w.quota.Some? && SeesDenial(w) ==>
              && (w.nodes.None? || w.pods.None? ==> d == NilDereference)
              && (w.nodes.Some? && w.pods.Some? && w.namespacePods.None? ==> d == Requeue(20))
              && (w.nodes.Some? && w.pods.Some? && w.namespacePods.Some? ==> d == RaiseQuota || d == Ignore)
  {
    DenialIff(w);
  }

  /** What a namespace requests: all containers of all its pods, whatever their phase and wherever they are bound. */
  lemma RequestCountsEveryPod(pods: seq<Pod>, p: Pod)
    ensures Requested([]) == Amount(0, 0, 0)
    ensures var before, asked := Requested(pods), CapacityCases.AddedUp(p.initContainers + p.containers);
            Requested(pods + [p])
            == Amount(before.cpu + asked.cpu, before.memory + asked.memory, before.gpu + asked.gpu)
  {
    assert (pods + [p])[..|pods|] == pods;
    CapacityCases.SumIsAddedUp(p.initContainers + p.containers);
  }

  /** In figures, with one free worker: a denied namespace whose pods together ask for more than the worker has left
      in some dimension has its quota raised; otherwise nothing is done. */
  lemma OneWorkerDecides(w: World, d: Decision, n: Node)
    requires Chosen(w, d) && w.serverType != "MGMT" && w.scaler.Found? && w.quota.Some? && SeesDenial(w)
    requires w.nodes == Some([n]) && w.pods.Some? && w.namespacePods.Some? && !n.unschedulable && n.taints == []
    ensures var used, wanted := UsedOn(w.pods.value, n.name), Requested(w.namespacePods.value);
            d == if && wanted.cpu <= CapacityCases.Remaining(n.allocatable.cpu, used.cpu)
                    && wanted.memory <= CapacityCases.Remaining(n.allocatable.memory, used.memory)
                    && wanted.gpu <= CapacityCases.Remaining(n.allocatable.gpu, used.gpu)
                 then Ignore else RaiseQuota
  {
    DenialIff(w);
    EarlyDecisions(w, d);
    var r := ReconcilerLaws.SummaryExists(ReconcilerLaws.FreeIn(w));
    assert IsClusterFree([n], w.pods.value, r);
    CapacityCases.OneWorker(n, w.pods.value, r);
    ReconcilerLaws.OversizedMeans(w, r);
  }
}
