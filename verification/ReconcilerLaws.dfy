/** What the reconcile decision guarantees about scaling, and that list orders never matter to it. */
module ReconcilerLaws {
  import opened Options
  import opened Capacity
  import opened CapacityLaws
  import opened Reconciler

  /* ---------- the fit test ---------- */

  /** Every set of per-node amounts has its totals and maxima. */
  lemma {:induction false} MaximaExist(names: set<string>, free: map<string, Amount>) returns (most: Amount)
    requires names <= free.Keys && forall name | name in free :: Fits(ZERO, free[name])
    ensures IsMaxOver(names, free, most)
  {
    if names == {} {
      most := ZERO;
    } else {
      var name :| name in names;
      var small := names - {name};
      assert small + {name} == names;
      var rest := MaximaExist(small, free);
      AddName(small, free, name, SumOver(small, free), rest);
      most := MaxEach(rest, free[name]);
    }
  }

  lemma SummaryExists(free: map<string, Amount>) returns (r: ClusterFree)
    requires forall name | name in free :: Fits(ZERO, free[name])
    ensures Summarizes(free, r)
  {
    var most := MaximaExist(free.Keys, free);
    r := ClusterFree(SumOver(free.Keys, free), most);
  }

  function FreeIn(w: World): map<string, Amount>
    requires w.nodes.Some? && w.pods.Some?
  {
    FreeOf(Workers(w.nodes.value), w.pods.value)
  }

  /** No worker has this much left in the dimension `of`, and some of it is requested. */
  ghost predicate NoneHas(free: map<string, Amount>, of: Amount -> int, requested: Amount) {
    of(requested) > 0 && forall name | name in free :: of(free[name]) < of(requested)
  }

  function Cpu(a: Amount): int {
    a.cpu
  }

  function Memory(a: Amount): int {
    a.memory
  }

  function Gpu(a: Amount): int {
    a.gpu
  }

  lemma OversizedMeans(w: World, r: ClusterFree)
    requires w.nodes.Some? && w.pods.Some? && w.namespacePods.Some?
    requires IsClusterFree(w.nodes.value, w.pods.value, r)
    ensures Oversized(w) <==> !Fits(Requested(w.namespacePods.value), r.maxNode)
  {
    forall r' | IsClusterFree(w.nodes.value, w.pods.value, r') ensures r' == r {
      SummaryIsUnique(FreeIn(w), r', r);
    }
  }

  /** The quota is raised exactly when it was denied, the lists came back, and in some one dimension no single
      worker has room for what the whole namespace requests. */
  lemma RaiseIff(w: World, d: Decision)
    requires Chosen(w, d)
    ensures d == RaiseQuota <==>
              && QuotaDenied(w) && w.nodes.Some? && w.pods.Some? && w.namespacePods.Some?
              && var free, requested := FreeIn(w), Requested(w.namespacePods.value);
                 NoneHas(free, Cpu, requested) || NoneHas(free, Memory, requested) || NoneHas(free, Gpu, requested)
  {
    if w.nodes.Some? && w.pods.Some? && w.namespacePods.Some? {
      var r := SummaryExists(FreeIn(w));
      OversizedMeans(w, r);
    }
  }

  /** If one worker has room for everything the namespace requests, the quota is not raised. */
  lemma FitMeansNoRaise(w: World, d: Decision, name: string)
    requires Chosen(w, d) && w.nodes.Some? && w.pods.Some? && w.namespacePods.Some?
    requires name in FreeIn(w) && Fits(Requested(w.namespacePods.value), FreeIn(w)[name])
    ensures d != RaiseQuota
  {
    RaiseIff(w, d);
  }

  function Worker(name: string, cpu: int, memory: int): Node {
    Node(name, false, [], Amount(cpu, memory, 0))
  }

  /** One node has CPU left, the other memory, and the one pod of the namespace wants both. */
  function SplitWorld(a: string, b: string): (w: World)
    ensures w.nodes.Some? && w.pods.Some? && w.namespacePods.Some?
  {
    World("", Found, Some(Quota(map["cpu" := 1], map["cpu" := 1])), None, None, None, 0,
          Some([Worker(a, 2, 0), Worker(b, 0, 2)]), Some([]),
          Some([Pod(Pending, "", [], [Amount(2, 2, 0)])]), None, None)
  }

  lemma SplitRequest(a: string, b: string)
    ensures Requested(SplitWorld(a, b).namespacePods.value) == Amount(2, 2, 0)
  {
    TotalOne(Amount(2, 2, 0), Request);
    TotalOne(Pod(Pending, "", [], [Amount(2, 2, 0)]), Demand);
    assert [] + [Amount(2, 2, 0)] == [Amount(2, 2, 0)];
  }

  lemma TwoWorkers(m: Node, n: Node)
    requires IsWorker(m) && IsWorker(n) && m.name != n.name
    ensures Workers([m, n]) == map[m.name := m, n.name := n]
  {
    assert [m, n][..1] == [m] && [m][..0] == [];
    assert Workers([m]) == map[m.name := m];
  }

  lemma SplitFree(a: string, b: string)
    requires a != b
    ensures var free := FreeIn(SplitWorld(a, b));
            free.Keys == {a, b} && free[a] == Amount(2, 0, 0) && free[b] == Amount(0, 2, 0)
  {
    TwoWorkers(Worker(a, 2, 0), Worker(b, 0, 2));
  }

  /** Each dimension may be covered by a different worker: then a denied quota is left alone. */
  lemma SplitFitMeansIgnore(w: World, d: Decision, a: string, b: string, c: string)
    requires Chosen(w, d) && QuotaDenied(w) && w.nodes.Some? && w.pods.Some? && w.namespacePods.Some?
    requires {a, b, c} <= FreeIn(w).Keys
    requires var requested := Requested(w.namespacePods.value);
             && requested.cpu <= FreeIn(w)[a].cpu && requested.memory <= FreeIn(w)[b].memory
             && requested.gpu <= FreeIn(w)[c].gpu
    ensures d == Ignore
  {
    RaiseIff(w, d);
    assert a in FreeIn(w) && b in FreeIn(w) && c in FreeIn(w);
    assert Cpu(FreeIn(w)[a]) == FreeIn(w)[a].cpu && Memory(FreeIn(w)[b]) == FreeIn(w)[b].memory;
    assert Gpu(FreeIn(w)[c]) == FreeIn(w)[c].gpu;
  }

  lemma SplitFacts(a: string, b: string) returns (w: World)
    requires a != b
    ensures w.nodes.Some? && w.pods.Some? && w.namespacePods.Some? && QuotaDenied(w)
    ensures Requested(w.namespacePods.value) == Amount(2, 2, 0)
    ensures FreeIn(w).Keys == {a, b} && FreeIn(w)[a] == Amount(2, 0, 0) && FreeIn(w)[b] == Amount(0, 2, 0)
  {
    w := SplitWorld(a, b);
    SplitRequest(a, b);
    SplitFree(a, b);
    assert Exhausted(w.quota.value, "cpu");
  }

  /** The converse of FitMeansNoRaise fails: here no worker has room, yet a denied quota is left alone. */
  lemma MisfitWithoutRaise(a: string, b: string) returns (w: World)
    requires a != b
    ensures w.nodes.Some? && w.pods.Some? && w.namespacePods.Some? && QuotaDenied(w)
    ensures forall name | name in FreeIn(w) :: !Fits(Requested(w.namespacePods.value), FreeIn(w)[name])
    ensures forall d | Chosen(w, d) :: d == Ignore
  {
    w := SplitFacts(a, b);
    forall d | Chosen(w, d) ensures d == Ignore {
      SplitFitMeansIgnore(w, d, a, b, a);
    }
  }

  /* ---------- order independence ---------- */

  /** b is a permutation of a whose elements may be rearranged inside as `same` permits. */
  ghost predicate Reordered<T(!new)>(a: Option<seq<T>>, b: Option<seq<T>>, same: (T, T) -> bool) {
    && (a.Some? <==> b.Some?)
    && (a.Some? ==> exists mid: seq<T> ::
          && multiset(a.value) == multiset(mid) && |mid| == |b.value|
          && forall i | 0 <= i < |mid| :: same(mid[i], b.value[i]))
  }

  predicate SameDeployment(a: Deployment, b: Deployment) {
    multiset(a.conditions) == multiset(b.conditions)
  }

  predicate SameReplicaSet(a: ReplicaSet, b: ReplicaSet) {
    a.name == b.name && a.desired == b.desired && a.ready == b.ready && multiset(a.conditions) == multiset(b.conditions)
  }

  predicate SameEvent(a: Event, b: Event) {
    a == b
  }

  predicate SameNode(a: Node, b: Node) {
    a == b
  }

  lemma InPermutation<T>(a: seq<T>, b: seq<T>)
    requires multiset(a) == multiset(b)
    ensures forall x :: x in a <==> x in b
  {
    assert forall x :: x in a <==> x in multiset(a);
    assert forall x :: x in b <==> x in multiset(b);
  }

  /** Everything in b has its counterpart in a, and the other way round. */
  lemma Counterparts<T(!new)>(a: seq<T>, b: seq<T>, same: (T, T) -> bool)
    requires Reordered(Some(a), Some(b), same)
    ensures forall y | y in b :: exists x | x in a :: same(x, y)
    ensures forall x | x in a :: exists y | y in b :: same(x, y)
  {
    var mid: seq<T> :| multiset(a) == multiset(mid) && |mid| == |b| && forall i | 0 <= i < |mid| :: same(mid[i], b[i]);
    InPermutation(a, mid);
    forall y | y in b ensures exists x | x in a :: same(x, y) {
      var i :| 0 <= i < |b| && b[i] == y;
      assert mid[i] in a && same(mid[i], y);
    }
    forall x | x in a ensures exists y | y in b :: same(x, y) {
      var i :| 0 <= i < |mid| && mid[i] == x;
      assert b[i] in b && same(x, b[i]);
    }
  }

  lemma ReorderedDeployments(a: seq<Deployment>, b: seq<Deployment>)
    requires Reordered(Some(a), Some(b), SameDeployment)
    ensures DeploymentConditions(a) == DeploymentConditions(b)
  {
    Counterparts(a, b, SameDeployment);
    forall x, y | SameDeployment(x, y) ensures forall c :: c in x.conditions <==> c in y.conditions {
      InPermutation(x.conditions, y.conditions);
    }
  }

  lemma ReorderedReplicaSets(a: seq<ReplicaSet>, b: seq<ReplicaSet>)
    requires Reordered(Some(a), Some(b), SameReplicaSet)
    ensures ReplicaSetConditions(a) == ReplicaSetConditions(b) && FailingNames(a) == FailingNames(b)
  {
    Counterparts(a, b, SameReplicaSet);
    forall x, y | SameReplicaSet(x, y) ensures forall c :: c in x.conditions <==> c in y.conditions {
      InPermutation(x.conditions, y.conditions);
    }
  }

  lemma ReorderedEvents(a: seq<Event>, b: seq<Event>)
    requires Reordered(Some(a), Some(b), SameEvent)
    ensures forall e :: e in a <==> e in b
  {
    Counterparts(a, b, SameEvent);
  }

  /** Two answers of the API server that differ only in the order of lists and of lists inside them. */
  ghost predicate SameButOrder(w: World, v: World) {
    && w.serverType == v.serverType && w.scaler == v.scaler && w.quota == v.quota && w.now == v.now
    && Reordered(w.deployments, v.deployments, SameDeployment)
    && Reordered(w.replicaSets, v.replicaSets, SameReplicaSet)
    && Reordered(w.events, v.events, SameEvent)
    && Reordered(w.nodes, v.nodes, SameNode)
    && Reordered(w.pods, v.pods, SamePod)
    && Reordered(w.namespacePods, v.namespacePods, SamePod)
    && Reordered(w.shortReplicaSets, v.shortReplicaSets, SameReplicaSet)
    && Reordered(w.shortEvents, v.shortEvents, SameEvent)
  }

  lemma SameDenial(w: World, v: World)
    requires SameButOrder(w, v)
    ensures QuotaDenied(w) <==> QuotaDenied(v)
  {
    if w.deployments.Some? {
      ReorderedDeployments(w.deployments.value, v.deployments.value);
    }
    if w.replicaSets.Some? {
      ReorderedReplicaSets(w.replicaSets.value, v.replicaSets.value);
    }
    if w.events.Some? {
      ReorderedEvents(w.events.value, v.events.value);
    }
  }

  lemma SameShortage(w: World, v: World)
    requires SameButOrder(w, v)
    ensures Short(w.shortReplicaSets, w.shortEvents) <==> Short(v.shortReplicaSets, v.shortEvents)
  {
    if w.shortReplicaSets.Some? {
      ReorderedReplicaSets(w.shortReplicaSets.value, v.shortReplicaSets.value);
    }
    if w.shortEvents.Some? {
      ReorderedEvents(w.shortEvents.value, v.shortEvents.value);
    }
  }

  lemma SameRequests(a: seq<Pod>, b: seq<Pod>)
    requires Reordered(Some(a), Some(b), SamePod)
    ensures Requested(a) == Requested(b)
  {
    var mid: seq<Pod> :|
      multiset(a) == multiset(mid) && |mid| == |b| && forall i | 0 <= i < |mid| :: SamePod(mid[i], b[i]);
    TotalPermutation(a, mid, Demand);
    forall i | 0 <= i < |b| ensures Demand(mid[i]) == Demand(b[i]) {
      SameDemand(mid[i], b[i]);
    }
    TotalPointwise(mid, b, Demand, Demand);
  }

  lemma SameFree(nodes: seq<Node>, nodes': seq<Node>, pods: seq<Pod>, pods': seq<Pod>)
    requires Reordered(Some(nodes), Some(nodes'), SameNode) && Reordered(Some(pods), Some(pods'), SamePod)
    requires DistinctNames(nodes) && DistinctNames(nodes')
    ensures FreeOf(Workers(nodes), pods) == FreeOf(Workers(nodes'), pods')
  {
    var ns: seq<Node> :|
      multiset(nodes) == multiset(ns) && |ns| == |nodes'| && forall i | 0 <= i < |ns| :: SameNode(ns[i], nodes'[i]);
    assert ns == nodes';
    var ps: seq<Pod> :|
      multiset(pods) == multiset(ps) && |ps| == |pods'| && forall i | 0 <= i < |ps| :: SamePod(ps[i], pods'[i]);
    FreePermutation(nodes, nodes', pods, ps, pods');
  }

  lemma SameSize(w: World, v: World)
    requires SameButOrder(w, v)
    requires w.nodes.Some? ==> DistinctNames(w.nodes.value) && DistinctNames(v.nodes.value)
    ensures Oversized(w) <==> Oversized(v)
  {
    if w.nodes.Some? && w.pods.Some? && w.namespacePods.Some? {
      SameRequests(w.namespacePods.value, v.namespacePods.value);
      SameFree(w.nodes.value, v.nodes.value, w.pods.value, v.pods.value);
    }
  }

  /** The decision is the same for every order of the node, pod, container, Deployment, ReplicaSet, condition and
      event lists. */
  lemma DecisionIsOrderIndependent(w: World, v: World, d: Decision, d': Decision)
    requires SameButOrder(w, v) && Chosen(w, d) && Chosen(v, d')
    requires w.nodes.Some? ==> DistinctNames(w.nodes.value) && DistinctNames(v.nodes.value)
    ensures d == d'
  {
    SameDenial(w, v);
    SameShortage(w, v);
    SameSize(w, v);
  }

  /** More Deployments, ReplicaSets, conditions or events, with the lists that failed still failing and the
      clock fixed, never withdraw a denial. */
  lemma DenialIsMonotone(w: World, v: World)
    requires w.serverType == v.serverType && w.scaler == v.scaler && w.quota == v.quota && w.now == v.now
    requires w.deployments.Some? ==>
               && v.deployments.Some?
               && DeploymentConditions(w.deployments.value) <= DeploymentConditions(v.deployments.value)
    requires w.replicaSets.Some? ==>
               && v.replicaSets.Some?
               && ReplicaSetConditions(w.replicaSets.value) <= ReplicaSetConditions(v.replicaSets.value)
    requires w.events.Some? ==> v.events.Some? && forall e | e in w.events.value :: e in v.events.value
    ensures QuotaDenied(w) ==> QuotaDenied(v)
  {
  }
}
