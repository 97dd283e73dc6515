/** The accounting spelled out: which taints and flags exclude a node, what a worker adds, what a pod takes. */
module CapacityCases {
  import opened Capacity

  predicate ControlPlaneKey(key: string) {
    || key == "node-role.kubernetes.io/control-plane"
    || key == "node-role.kubernetes.io/master"
    || key == "node.kubernetes.io/master"
  }

  /* ---------- nodes ---------- */

  lemma WorkersAppend(nodes: seq<Node>, n: Node)
    ensures Workers(nodes + [n]) == if IsWorker(n) then Workers(nodes)[n.name := n] else Workers(nodes)
  {
    assert (nodes + [n])[..|nodes|] == nodes;
  }

  /** A cordoned node, or one tainted as control plane with NoSchedule or PreferNoSchedule, counts for nothing. */
  lemma ExcludedNodeCountsForNothing(nodes: seq<Node>, n: Node, pods: seq<Pod>, key: string, effect: Effect,
                                     r: ClusterFree)
    requires IsClusterFree(nodes, pods, r)
    requires n.unschedulable
             || (&& ControlPlaneKey(key) && (effect == NoSchedule || effect == PreferNoSchedule)
                 && Taint(key, effect) in n.taints)
    ensures IsClusterFree(nodes + [n], pods, r)
  {
    WorkersAppend(nodes, n);
    if !n.unschedulable {
      var i :| 0 <= i < |n.taints| && n.taints[i] == Taint(key, effect);
      assert Excludes(n.taints[i]);
    }
  }

  /** What a dimension has left, never below zero. */
  function Remaining(allocatable: int, used: int): int {
    if allocatable <= used then 0 else allocatable - used
  }

  function Larger(a: int, b: int): int {
    if a < b then b else a
  }

  lemma NewWorkerSummary(free: map<string, Amount>, name: string, amount: Amount, r: ClusterFree, r': ClusterFree)
    requires name !in free && Fits(ZERO, amount) && Summarizes(free, r) && Summarizes(free[name := amount], r')
    ensures r'.cluster == Plus(r.cluster, amount) && r'.maxNode == MaxEach(r.maxNode, amount)
  {
    var free' := free[name := amount];
    assert free'.Keys - {name} == free.Keys;
    SumAny(free'.Keys, free', name);
    SameSum(free.Keys, free, free');
    assert forall n | n in free :: free'[n] == free[n];
    assert IsMaxOver(free.Keys, free', r.maxNode);
    AddName(free.Keys, free', name, SumOver(free.Keys, free'), r.maxNode);
    assert free.Keys + {name} == free'.Keys;
    SummaryIsUnique(free', r', ClusterFree(Plus(r.cluster, amount), MaxEach(r.maxNode, amount)));
  }

  lemma {:induction false} SameSum(names: set<string>, a: map<string, Amount>, b: map<string, Amount>)
    requires names <= a.Keys && names <= b.Keys && forall n | n in names :: a[n] == b[n]
    ensures SumOver(names, a) == SumOver(names, b)
  {
    if names != {} {
      var n :| n in names;
      SumAny(names, a, n);
      SumAny(names, b, n);
      SameSum(names - {n}, a, b);
    }
  }

  lemma UntaintedIsWorker(n: Node)
    requires !n.unschedulable && forall t | t in n.taints :: !ControlPlaneKey(t.key) || t.effect == NoExecute
    ensures IsWorker(n)
  {
    assert forall i | 0 <= i < |n.taints| :: n.taints[i] in n.taints;
  }

  lemma FreeWithWorker(nodes: seq<Node>, n: Node, pods: seq<Pod>)
    requires IsWorker(n) && n.name !in Workers(nodes)
    ensures n.name !in FreeOf(Workers(nodes), pods)
    ensures FreeOf(Workers(nodes + [n]), pods)
         == FreeOf(Workers(nodes), pods)[n.name := Left(n.allocatable, UsedOn(pods, n.name))]
  {
    WorkersAppend(nodes, n);
  }

  lemma LeftIsRemaining(allocatable: Amount, used: Amount)
    ensures Left(allocatable, used) == Amount(Remaining(allocatable.cpu, used.cpu),
                                              Remaining(allocatable.memory, used.memory),
                                              Remaining(allocatable.gpu, used.gpu))
  {
  }

  /** Any other node adds what its pods leave of it to the totals, and takes part in the maxima: untainted, tainted
      by other keys, or as control plane with NoExecute alone. */
  lemma WorkerCounts(nodes: seq<Node>, n: Node, pods: seq<Pod>, r: ClusterFree, r': ClusterFree)
    requires !n.unschedulable
    requires forall t | t in n.taints :: !ControlPlaneKey(t.key) || t.effect == NoExecute
    requires n.name !in Workers(nodes)
    requires IsClusterFree(nodes, pods, r) && IsClusterFree(nodes + [n], pods, r')
    ensures var cpu := Remaining(n.allocatable.cpu, UsedOn(pods, n.name).cpu);
            r'.cluster.cpu == r.cluster.cpu + cpu && r'.maxNode.cpu == Larger(r.maxNode.cpu, cpu)
    ensures var memory := Remaining(n.allocatable.memory, UsedOn(pods, n.name).memory);
            r'.cluster.memory == r.cluster.memory + memory && r'.maxNode.memory == Larger(r.maxNode.memory, memory)
    ensures var gpu := Remaining(n.allocatable.gpu, UsedOn(pods, n.name).gpu);
            r'.cluster.gpu == r.cluster.gpu + gpu && r'.maxNode.gpu == Larger(r.maxNode.gpu, gpu)
  {
    UntaintedIsWorker(n);
    FreeWithWorker(nodes, n, pods);
    LeftIsRemaining(n.allocatable, UsedOn(pods, n.name));
    NewWorkerSummary(FreeOf(Workers(nodes), pods), n.name, Left(n.allocatable, UsedOn(pods, n.name)), r, r');
  }

  /** A single worker is the whole cluster. */
  lemma OneWorker(n: Node, pods: seq<Pod>, r: ClusterFree)
    requires !n.unschedulable && n.taints == [] && IsClusterFree([n], pods, r)
    ensures var used := UsedOn(pods, n.name);
            var left := Amount(Remaining(n.allocatable.cpu, used.cpu),
                               Remaining(n.allocatable.memory, used.memory),
                               Remaining(n.allocatable.gpu, used.gpu));
            r == ClusterFree(left, left)
  {
    var nothing := ClusterFree(ZERO, ZERO);
    assert [] + [n] == [n] && IsClusterFree([], pods, nothing);
    WorkerCounts([], n, pods, nothing, r);
  }

  /** Without nodes there is nothing. */
  lemma NoNodes(pods: seq<Pod>, r: ClusterFree)
    requires IsClusterFree([], pods, r)
    ensures r == ClusterFree(Amount(0, 0, 0), Amount(0, 0, 0))
  {
  }

  /* ---------- pods ---------- */

  /** Container requests added up, figure by figure. */
  function AddedUp(containers: seq<Amount>): Amount {
    if containers == [] then Amount(0, 0, 0)
    else
      var rest := AddedUp(containers[1..]);
      Amount(containers[0].cpu + rest.cpu, containers[0].memory + rest.memory, containers[0].gpu + rest.gpu)
  }

  lemma {:induction false} AddedUpAppend(a: seq<Amount>, b: seq<Amount>)
    ensures AddedUp(a + b).cpu == AddedUp(a).cpu + AddedUp(b).cpu
    ensures AddedUp(a + b).memory == AddedUp(a).memory + AddedUp(b).memory
    ensures AddedUp(a + b).gpu == AddedUp(a).gpu + AddedUp(b).gpu
  {
    if a == [] {
      assert a + b == b;
    } else {
      AddedUpAppend(a[1..], b);
      assert (a + b)[1..] == a[1..] + b;
    }
  }

  lemma {:induction false} SumIsAddedUp(containers: seq<Amount>)
    ensures SumOf(containers) == AddedUp(containers)
  {
    if containers != [] {
      var front, last := containers[..|containers| - 1], containers[|containers| - 1];
      SumIsAddedUp(front);
      assert containers == front + [last];
      AddedUpAppend(front, [last]);
      assert [last][1..] == [];
    }
  }

  lemma DemandIsAddedUp(p: Pod)
    ensures var init, main := AddedUp(p.initContainers), AddedUp(p.containers);
            Demand(p) == Amount(init.cpu + main.cpu, init.memory + main.memory, init.gpu + main.gpu)
  {
    SumIsAddedUp(p.initContainers + p.containers);
    AddedUpAppend(p.initContainers, p.containers);
  }

  lemma NothingUsed(name: string)
    ensures UsedOn([], name) == Amount(0, 0, 0)
  {
  }

  /** The pod runs, or may still run, on the node of this name. */
  predicate Occupies(p: Pod, name: string) {
    p.nodeName == name && (p.phase == Pending || p.phase == Running || p.phase == Unknown)
  }

  lemma ChargeMeans(p: Pod, name: string)
    requires name != ""
    ensures Charge(p, name) == if Occupies(p, name) then Demand(p) else ZERO
  {
  }

  /** `sum` is the three amounts added up, figure by figure. */
  predicate SumsTo(a: Amount, b: Amount, c: Amount, sum: Amount) {
    && sum.cpu == a.cpu + b.cpu + c.cpu
    && sum.memory == a.memory + b.memory + c.memory
    && sum.gpu == a.gpu + b.gpu + c.gpu
  }

  lemma PlusFigures(before: Amount, taken: Amount, init: Amount, main: Amount)
    requires taken == Amount(init.cpu + main.cpu, init.memory + main.memory, init.gpu + main.gpu)
    ensures SumsTo(before, init, main, Plus(before, taken))
  {
  }

  lemma PlusNothing(before: Amount)
    ensures Plus(before, ZERO) == before
  {
  }

  /** One more pod takes its init containers and its containers, all of them, from the node it is bound to, unless
      it has succeeded or failed or is bound to none. */
  lemma PodTakes(pods: seq<Pod>, p: Pod, name: string)
    requires name != ""
    ensures Occupies(p, name) ==>
              SumsTo(UsedOn(pods, name), AddedUp(p.initContainers), AddedUp(p.containers), UsedOn(pods + [p], name))
    ensures !Occupies(p, name) ==> UsedOn(pods + [p], name) == UsedOn(pods, name)
  {
    assert (pods + [p])[..|pods|] == pods;
    ChargeMeans(p, name);
    if Occupies(p, name) {
      DemandIsAddedUp(p);
      PlusFigures(UsedOn(pods, name), Demand(p), AddedUp(p.initContainers), AddedUp(p.containers));
    } else {
      PlusNothing(UsedOn(pods, name));
    }
  }
}
