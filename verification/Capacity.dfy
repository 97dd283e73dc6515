/** Free-capacity accounting: which nodes count, what their pods use, and what is free per node and in all. */
module Capacity {
  import opened Numbers
  import opened Options

  /** CPU in millicores, memory in bytes, GPUs by count; an absent entry counts 0. */
  datatype Amount = Amount(cpu: int, memory: int, gpu: int)

  const ZERO := Amount(0, 0, 0)

  function Plus(a: Amount, b: Amount): Amount {
    Amount(a.cpu + b.cpu, a.memory + b.memory, a.gpu + b.gpu)
  }

  function MaxEach(a: Amount, b: Amount): Amount {
    Amount(Max(a.cpu, b.cpu), Max(a.memory, b.memory), Max(a.gpu, b.gpu))
  }

  function MinEach(a: Amount, b: Amount): Amount {
    Amount(Min(a.cpu, b.cpu), Min(a.memory, b.memory), Min(a.gpu, b.gpu))
  }

  /** At most as much in every dimension. */
  predicate Fits(a: Amount, b: Amount) {
    a.cpu <= b.cpu && a.memory <= b.memory && a.gpu <= b.gpu
  }

  /** What is left of `alloc` after `used`, never below zero. */
  function Left(alloc: Amount, used: Amount): Amount {
    MaxEach(Amount(alloc.cpu - used.cpu, alloc.memory - used.memory, alloc.gpu - used.gpu), ZERO)
  }

  datatype Effect = NoSchedule | PreferNoSchedule | NoExecute

  datatype Taint = Taint(key: string, effect: Effect)

  datatype Node = Node(name: string, unschedulable: bool, taints: seq<Taint>, allocatable: Amount)

  datatype Phase = Pending | Running | Succeeded | Failed | Unknown

  datatype Pod = Pod(phase: Phase, nodeName: string, initContainers: seq<Amount>, containers: seq<Amount>)

  datatype ClusterFree = ClusterFree(cluster: Amount, maxNode: Amount)

  predicate IsControlTaint(t: Taint) {
    || t.key == "node-role.kubernetes.io/control-plane"
    || t.key == "node-role.kubernetes.io/master"
    || t.key == "node.kubernetes.io/master"
  }

  predicate Excludes(t: Taint) {
    IsControlTaint(t) && (t.effect == NoSchedule || t.effect == PreferNoSchedule)
  }

  predicate IsWorker(n: Node) {
    !n.unschedulable && forall i | 0 <= i < |n.taints| :: !Excludes(n.taints[i])
  }

  /* ---------- the order-free specification ---------- */

  /** The worker nodes by name; a later node replaces an earlier one of the same name. */
  function Workers(nodes: seq<Node>): map<string, Node> {
    if nodes == [] then map[]
    else
      var rest, last := Workers(nodes[..|nodes| - 1]), nodes[|nodes| - 1];
      if IsWorker(last) then rest[last.name := last] else rest
  }

  function Total<T>(xs: seq<T>, f: T -> Amount): Amount {
    if xs == [] then ZERO else Plus(Total(xs[..|xs| - 1], f), f(xs[|xs| - 1]))
  }

  lemma TotalPrefix<T>(xs: seq<T>, f: T -> Amount, j: nat)
    requires j < |xs|
    ensures Total(xs[..j + 1], f) == Plus(Total(xs[..j], f), f(xs[j]))
  {
    assert xs[..j + 1][..j] == xs[..j];
  }

  function Request(container: Amount): Amount {
    container
  }

  function SumOf(containers: seq<Amount>): Amount {
    Total(containers, Request)
  }

  /** What the accounting charges for a pod: all init containers and all containers. */
  function Demand(p: Pod): Amount {
    SumOf(p.initContainers + p.containers)
  }

  predicate Live(p: Pod) {
    p.phase != Succeeded && p.phase != Failed
  }

  /** What a pod takes from the node of this name. */
  function Charge(p: Pod, name: string): Amount {
    if Live(p) && p.nodeName != "" && p.nodeName == name then Demand(p) else ZERO
  }

  function ChargeTo(name: string): Pod -> Amount {
    p => Charge(p, name)
  }

  function UsedOn(pods: seq<Pod>, name: string): Amount {
    Total(pods, ChargeTo(name))
  }

  function FreeOf(workers: map<string, Node>, pods: seq<Pod>): map<string, Amount> {
    map name | name in workers :: Left(workers[name].allocatable, UsedOn(pods, name))
  }

  /** The sum over a set of names; which name is taken first does not matter (SumAny). */
  ghost function SumOver(names: set<string>, amount: map<string, Amount>): Amount
    requires names <= amount.Keys
  {
    if names == {} then ZERO
    else var name :| name in names; Plus(SumOver(names - {name}, amount), amount[name])
  }

  lemma PlusSwap(a: Amount, b: Amount, c: Amount)
    ensures Plus(Plus(a, b), c) == Plus(Plus(a, c), b)
  {
  }

  lemma {:induction false} SumAny(names: set<string>, amount: map<string, Amount>, name: string)
    requires names <= amount.Keys && name in names
    ensures SumOver(names, amount) == Plus(SumOver(names - {name}, amount), amount[name])
  {
    var first :| first in names && SumOver(names, amount) == Plus(SumOver(names - {first}, amount), amount[first]);
    if first != name {
      var rest := names - {first} - {name};
      assert names - {name} - {first} == rest;
      SumAny(names - {first}, amount, name);
      SumAny(names - {name}, amount, first);
      PlusSwap(SumOver(rest, amount), amount[name], amount[first]);
    }
  }

  /** m is the largest of 0 and the amounts of these names, dimension by dimension. */
  ghost predicate IsMaxOver(names: set<string>, amount: map<string, Amount>, m: Amount)
    requires names <= amount.Keys
  {
    && Fits(ZERO, m)
    && (forall name | name in names :: Fits(amount[name], m))
    && (m.cpu == 0 || exists name | name in names :: amount[name].cpu == m.cpu)
    && (m.memory == 0 || exists name | name in names :: amount[name].memory == m.memory)
    && (m.gpu == 0 || exists name | name in names :: amount[name].gpu == m.gpu)
  }

  /** Cluster totals and node maxima of these per-node amounts. */
  ghost predicate Summarizes(free: map<string, Amount>, r: ClusterFree) {
    r.cluster == SumOver(free.Keys, free) && IsMaxOver(free.Keys, free, r.maxNode)
  }

  lemma SummaryIsUnique(free: map<string, Amount>, r: ClusterFree, r': ClusterFree)
    requires Summarizes(free, r) && Summarizes(free, r')
    ensures r == r'
  {
  }

  ghost predicate IsClusterFree(nodes: seq<Node>, pods: seq<Pod>, r: ClusterFree) {
    Summarizes(FreeOf(Workers(nodes), pods), r)
  }

  /* ---------- the loops ---------- */

  method WorkerNodes(nodes: seq<Node>) returns (workers: map<string, Node>)
    ensures workers == Workers(nodes)
  {
    workers := map[];
    for i := 0 to |nodes|
      invariant workers == Workers(nodes[..i])
    {
      var n := nodes[i];
      assert nodes[..i + 1][..i] == nodes[..i];
      if n.unschedulable {
        continue;
      }
      var skip := false;
      for j := 0 to |n.taints|
        invariant skip <==> exists k | 0 <= k < j :: Excludes(n.taints[k])
      {
        if IsControlTaint(n.taints[j]) && (n.taints[j].effect == NoSchedule || n.taints[j].effect == PreferNoSchedule) {
          assert Excludes(n.taints[j]);
          skip := true;
          break;
        }
      }
      if skip {
        continue;
      }
      workers := workers[n.name := n];
    }
    assert nodes[..|nodes|] == nodes;
  }

  lemma PlusAssociates(a: Amount, b: Amount, c: Amount)
    ensures Plus(Plus(a, b), c) == Plus(a, Plus(b, c))
  {
  }

  method ChargePod(before: map<string, Amount>, p: Pod) returns (used: map<string, Amount>)
    ensures used == if p.initContainers + p.containers == [] then before
                    else before[p.nodeName := Plus(GetOr(before, p.nodeName, ZERO), Demand(p))]
  {
    used := before;
    var all := p.initContainers + p.containers;
    for j := 0 to |all|
      invariant used == if j == 0 then before
                        else before[p.nodeName := Plus(GetOr(before, p.nodeName, ZERO), SumOf(all[..j]))]
    {
      TotalPrefix(all, Request, j);
      PlusAssociates(GetOr(before, p.nodeName, ZERO), SumOf(all[..j]), all[j]);
      used := used[p.nodeName := Plus(GetOr(used, p.nodeName, ZERO), all[j])];
    }
    assert all[..|all|] == all;
  }

  lemma ChargedEntry(before: map<string, Amount>, p: Pod, used: map<string, Amount>, name: string)
    requires Live(p) && p.nodeName != ""
    requires used == if p.initContainers + p.containers == [] then before
                     else before[p.nodeName := Plus(GetOr(before, p.nodeName, ZERO), Demand(p))]
    ensures GetOr(used, name, ZERO) == Plus(GetOr(before, name, ZERO), Charge(p, name))
  {
  }

  lemma SkippedEntry(p: Pod, name: string, entry: Amount)
    requires !Live(p) || p.nodeName == "" || p.nodeName != name
    ensures Plus(entry, Charge(p, name)) == entry
  {
  }

  /** `used` gives the right entry for every worker after these pods. */
  ghost predicate Accounts(workers: map<string, Node>, used: map<string, Amount>, pods: seq<Pod>) {
    forall name | name in workers :: GetOr(used, name, ZERO) == UsedOn(pods, name)
  }

  lemma AccountPod(workers: map<string, Node>, before: map<string, Amount>, used: map<string, Amount>,
                   pods: seq<Pod>, i: nat)
    requires i < |pods| && Accounts(workers, before, pods[..i])
    requires forall name | name in workers ::
               GetOr(used, name, ZERO) == Plus(GetOr(before, name, ZERO), Charge(pods[i], name))
    ensures Accounts(workers, used, pods[..i + 1])
  {
    forall name | name in workers ensures GetOr(used, name, ZERO) == UsedOn(pods[..i + 1], name) {
      TotalPrefix(pods, ChargeTo(name), i);
    }
  }

  method UsedPerNode(workers: map<string, Node>, pods: seq<Pod>) returns (used: map<string, Amount>)
    ensures Accounts(workers, used, pods)
  {
    used := map[];
    for i := 0 to |pods|
      invariant Accounts(workers, used, pods[..i])
    {
      var p := pods[i];
      ghost var before := used;
      if p.phase == Succeeded || p.phase == Failed || p.nodeName == "" || p.nodeName !in workers {
        forall name | name in workers {
          SkippedEntry(p, name, GetOr(used, name, ZERO));
        }
        AccountPod(workers, before, used, pods, i);
        continue;
      }
      used := ChargePod(used, p);
      forall name | name in workers {
        ChargedEntry(before, p, used, name);
      }
      AccountPod(workers, before, used, pods, i);
    }
    assert pods[..|pods|] == pods;
  }

  /** Allocatable minus used, each dimension clamped at zero. */
  method FreeOnNode(alloc: Amount, used: Amount) returns (free: Amount)
    ensures free == Left(alloc, used)
  {
    var freeCpu, freeMemory, freeGpu := alloc.cpu - used.cpu, alloc.memory - used.memory, alloc.gpu - used.gpu;
    if freeCpu < 0 {
      freeCpu := 0;
    }
    if freeMemory < 0 {
      freeMemory := 0;
    }
    if freeGpu < 0 {
      freeGpu := 0;
    }
    free := Amount(freeCpu, freeMemory, freeGpu);
  }

  /** Totals and maxima over a map that is iterated in an arbitrary order. */
  method Accumulate(workers: map<string, Node>, used: map<string, Amount>, ghost free: map<string, Amount>)
    returns (r: ClusterFree)
    requires free.Keys == workers.Keys
    requires forall name | name in workers :: free[name] == Left(workers[name].allocatable, GetOr(used, name, ZERO))
    ensures Summarizes(free, r)
  {
    r := ClusterFree(ZERO, ZERO);
    var todo := workers.Keys;
    ghost var done: set<string> := {};
    while todo != {}
      invariant done + todo == free.Keys && done !! todo
      invariant r.cluster == SumOver(done, free) && IsMaxOver(done, free, r.maxNode)
    {
      var name :| name in todo;
      var left := FreeOnNode(workers[name].allocatable, GetOr(used, name, ZERO));
      AddName(done, free, name, r.cluster, r.maxNode);
      r := ClusterFree(Plus(r.cluster, left), MaxEach(r.maxNode, left));
      todo := todo - {name};
      done := done + {name};
    }
    assert done == free.Keys;
  }

  /** The result meets the order-free specification for every order of nodes, pods and map iteration. */
  method ComputeClusterFree(nodes: seq<Node>, pods: seq<Pod>) returns (r: ClusterFree)
    ensures IsClusterFree(nodes, pods, r)
  {
    var workers := WorkerNodes(nodes);
    var used := UsedPerNode(workers, pods);
    r := Accumulate(workers, used, FreeOf(workers, pods));
  }

  lemma AddName(done: set<string>, free: map<string, Amount>, name: string, total: Amount, most: Amount)
    requires done <= free.Keys && name in free && name !in done && Fits(ZERO, free[name])
    requires total == SumOver(done, free) && IsMaxOver(done, free, most)
    ensures Plus(total, free[name]) == SumOver(done + {name}, free)
    ensures IsMaxOver(done + {name}, free, MaxEach(most, free[name]))
  {
    SumAny(done + {name}, free, name);
    assert done + {name} - {name} == done;
  }
}
