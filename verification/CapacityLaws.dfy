/** What the accounting guarantees: one answer for every order, conservation, monotonicity, and caution
    compared with the scheduler's own rule for init containers. */
module CapacityLaws {
  import opened Capacity

  /* ---------- totals ---------- */

  lemma {:induction false} TotalWithout<T>(xs: seq<T>, f: T -> Amount, i: nat)
    requires i < |xs|
    ensures Total(xs, f) == Plus(Total(xs[..i] + xs[i + 1..], f), f(xs[i]))
  {
    var n := |xs| - 1;
    if i == n {
      assert xs[..i] + xs[i + 1..] == xs[..n];
    } else {
      TotalWithout(xs[..n], f, i);
      assert xs[..n][..i] == xs[..i] && xs[..n][i + 1..] == xs[i + 1..n];
      var rest := xs[..i] + xs[i + 1..];
      assert rest[..n - 1] == xs[..i] + xs[i + 1..n] && rest[n - 1] == xs[n];
      PlusSwap(Total(rest[..n - 1], f), f(xs[i]), f(xs[n]));
    }
  }

  lemma MultisetWithout<T>(xs: seq<T>, i: nat)
    requires i < |xs|
    ensures multiset(xs[..i] + xs[i + 1..]) == multiset(xs) - multiset{xs[i]}
  {
    assert xs == xs[..i] + [xs[i]] + xs[i + 1..];
  }

  lemma {:induction false} TotalPermutation<T>(xs: seq<T>, ys: seq<T>, f: T -> Amount)
    requires multiset(xs) == multiset(ys)
    ensures Total(xs, f) == Total(ys, f)
  {
    if xs == [] {
      assert |multiset(ys)| == 0;
    } else {
      var n := |xs| - 1;
      assert xs[n] in multiset(ys);
      var i :| 0 <= i < |ys| && ys[i] == xs[n];
      var rest := ys[..i] + ys[i + 1..];
      assert xs == xs[..n] + [xs[n]];
      MultisetWithout(ys, i);
      assert multiset(xs[..n]) == multiset(xs) - multiset{xs[n]};
      TotalPermutation(xs[..n], ys[..i] + ys[i + 1..], f);
      TotalWithout(ys, f, i);
    }
  }

  lemma {:induction false} TotalMonotone<S, T>(xs: seq<S>, ys: seq<T>, f: S -> Amount, g: T -> Amount)
    requires |xs| == |ys| && forall i | 0 <= i < |xs| :: Fits(f(xs[i]), g(ys[i]))
    ensures Fits(Total(xs, f), Total(ys, g))
  {
    if xs != [] {
      var n := |xs| - 1;
      assert forall i | 0 <= i < n :: xs[..n][i] == xs[i] && ys[..n][i] == ys[i];
      TotalMonotone(xs[..n], ys[..n], f, g);
    }
  }

  lemma {:induction false} TotalPointwise<S, T>(xs: seq<S>, ys: seq<T>, f: S -> Amount, g: T -> Amount)
    requires |xs| == |ys| && forall i | 0 <= i < |xs| :: f(xs[i]) == g(ys[i])
    ensures Total(xs, f) == Total(ys, g)
  {
    if xs != [] {
      var n := |xs| - 1;
      TotalPointwise(xs[..n], ys[..n], f, g);
    }
  }

  lemma TotalOne<T>(x: T, f: T -> Amount)
    ensures Total([x], f) == f(x)
  {
    assert [x][..0] == [];
  }

  predicate NonNegative(amounts: seq<Amount>) {
    forall i | 0 <= i < |amounts| :: Fits(ZERO, amounts[i])
  }

  lemma {:induction false} SumNonNegative(amounts: seq<Amount>)
    requires NonNegative(amounts)
    ensures Fits(ZERO, SumOf(amounts))
  {
    if amounts != [] {
      SumNonNegative(amounts[..|amounts| - 1]);
    }
  }

  /* ---------- sums over sets of nodes ---------- */

  lemma {:induction false} SumMonotone(names: set<string>, a: map<string, Amount>, b: map<string, Amount>)
    requires names <= a.Keys && names <= b.Keys && forall name | name in names :: Fits(a[name], b[name])
    ensures Fits(SumOver(names, a), SumOver(names, b))
  {
    if names != {} {
      var name :| name in names;
      SumAny(names, a, name);
      SumAny(names, b, name);
      SumMonotone(names - {name}, a, b);
    }
  }

  lemma {:induction false} SumGrows(small: set<string>, large: set<string>, a: map<string, Amount>)
    requires small <= large <= a.Keys && forall name | name in large :: Fits(ZERO, a[name])
    ensures Fits(SumOver(small, a), SumOver(large, a))
  {
    if large - small == {} {
      assert forall x | x in large :: x !in small ==> x in large - small;
      assert small == large;
    } else {
      var name :| name in large - small;
      SumAny(large, a, name);
      SumGrows(small, large - {name}, a);
    }
  }

  /** More nodes, and no less on each of them, never lowers any of the six fields. */
  lemma SummaryMonotone(a: map<string, Amount>, b: map<string, Amount>, ra: ClusterFree, rb: ClusterFree)
    requires Summarizes(a, ra) && Summarizes(b, rb) && a.Keys <= b.Keys
    requires forall name | name in a :: Fits(a[name], b[name])
    requires forall name | name in b :: Fits(ZERO, b[name])
    ensures Fits(ra.cluster, rb.cluster) && Fits(ra.maxNode, rb.maxNode)
  {
    SumMonotone(a.Keys, a, b);
    SumGrows(a.Keys, b.Keys, b);
  }

  lemma LeftMonotone(alloc: Amount, used: Amount, less: Amount)
    requires Fits(less, used)
    ensures Fits(Left(alloc, used), Left(alloc, less)) && Fits(ZERO, Left(alloc, less))
  {
  }

  lemma FreeIsNonNegative(workers: map<string, Node>, pods: seq<Pod>)
    ensures forall name | name in workers :: Fits(ZERO, FreeOf(workers, pods)[name])
  {
  }

  /** All the comparisons below: fewer workers, each with at least as much in use, free up no more. */
  lemma LessFree(workers: map<string, Node>, pods: seq<Pod>,
                 workers': map<string, Node>, pods': seq<Pod>, r: ClusterFree, r': ClusterFree)
    requires Summarizes(FreeOf(workers, pods), r) && Summarizes(FreeOf(workers', pods'), r')
    requires workers.Keys <= workers'.Keys
    requires forall name | name in workers :: workers[name].allocatable == workers'[name].allocatable
    requires forall name | name in workers :: Fits(UsedOn(pods', name), UsedOn(pods, name))
    ensures Fits(r.cluster, r'.cluster) && Fits(r.maxNode, r'.maxNode)
  {
    FreeIsNonNegative(workers', pods');
    forall name | name in workers ensures Fits(FreeOf(workers, pods)[name], FreeOf(workers', pods')[name]) {
      LeftMonotone(workers[name].allocatable, UsedOn(pods, name), UsedOn(pods', name));
    }
    SummaryMonotone(FreeOf(workers, pods), FreeOf(workers', pods'), r, r');
  }

  /* ---------- one answer for every order ---------- */

  predicate DistinctNames(nodes: seq<Node>) {
    forall i, j | 0 <= i < j < |nodes| :: nodes[i].name != nodes[j].name
  }

  /** With distinct names the worker map holds exactly the worker nodes. */
  lemma {:induction false} WorkersMeaning(nodes: seq<Node>)
    requires DistinctNames(nodes)
    ensures forall n | n in nodes && IsWorker(n) :: n.name in Workers(nodes) && Workers(nodes)[n.name] == n
    ensures forall name | name in Workers(nodes) ::
              Workers(nodes)[name] in nodes && IsWorker(Workers(nodes)[name]) && Workers(nodes)[name].name == name
  {
    if nodes != [] {
      var front, last := nodes[..|nodes| - 1], nodes[|nodes| - 1];
      assert nodes == front + [last];
      WorkersMeaning(front);
      assert forall n | n in front :: n.name != last.name;
    }
  }

  lemma WorkersPermutation(nodes: seq<Node>, nodes': seq<Node>)
    requires DistinctNames(nodes) && DistinctNames(nodes') && multiset(nodes) == multiset(nodes')
    ensures Workers(nodes) == Workers(nodes')
  {
    WorkersMeaning(nodes);
    WorkersMeaning(nodes');
    assert forall n :: n in nodes <==> n in multiset(nodes);
    assert forall n :: n in nodes' <==> n in multiset(nodes');
  }

  /** The same pod with its containers listed in another order. */
  predicate SamePod(p: Pod, q: Pod) {
    p.phase == q.phase && p.nodeName == q.nodeName
    && multiset(p.initContainers + p.containers) == multiset(q.initContainers + q.containers)
  }

  lemma SameDemand(p: Pod, q: Pod)
    requires SamePod(p, q)
    ensures Demand(p) == Demand(q)
  {
    TotalPermutation(p.initContainers + p.containers, q.initContainers + q.containers, Request);
  }

  lemma UsedPermutation(pods: seq<Pod>, shuffled: seq<Pod>, pods': seq<Pod>, name: string)
    requires multiset(pods) == multiset(shuffled) && |shuffled| == |pods'|
    requires forall i | 0 <= i < |pods'| :: SamePod(shuffled[i], pods'[i])
    ensures UsedOn(pods, name) == UsedOn(pods', name)
  {
    TotalPermutation(pods, shuffled, ChargeTo(name));
    forall i | 0 <= i < |pods'| ensures ChargeTo(name)(shuffled[i]) == ChargeTo(name)(pods'[i]) {
      SameDemand(shuffled[i], pods'[i]);
    }
    TotalPointwise(shuffled, pods', ChargeTo(name), ChargeTo(name));
  }

  lemma FreePermutation(nodes: seq<Node>, nodes': seq<Node>, pods: seq<Pod>, shuffled: seq<Pod>, pods': seq<Pod>)
    requires DistinctNames(nodes) && DistinctNames(nodes') && multiset(nodes) == multiset(nodes')
    requires multiset(pods) == multiset(shuffled) && |shuffled| == |pods'|
    requires forall i | 0 <= i < |pods'| :: SamePod(shuffled[i], pods'[i])
    ensures FreeOf(Workers(nodes), pods) == FreeOf(Workers(nodes'), pods')
  {
    WorkersPermutation(nodes, nodes');
    forall name | name in Workers(nodes) ensures UsedOn(pods, name) == UsedOn(pods', name) {
      UsedPermutation(pods, shuffled, pods', name);
    }
  }

  /** Permuted nodes, permuted pods, permuted containers and any map iteration order: still the same six fields. */
  lemma OrderDoesNotMatter(nodes: seq<Node>, nodes': seq<Node>, pods: seq<Pod>, shuffled: seq<Pod>, pods': seq<Pod>,
                           r: ClusterFree, r': ClusterFree)
    requires DistinctNames(nodes) && DistinctNames(nodes') && multiset(nodes) == multiset(nodes')
    requires multiset(pods) == multiset(shuffled) && |shuffled| == |pods'|
    requires forall i | 0 <= i < |pods'| :: SamePod(shuffled[i], pods'[i])
    requires IsClusterFree(nodes, pods, r) && IsClusterFree(nodes', pods', r')
    ensures r == r'
  {
    FreePermutation(nodes, nodes', pods, shuffled, pods');
    SummaryIsUnique(FreeOf(Workers(nodes), pods), r, r');
  }

  /* ---------- conservation ---------- */

  function AllocatableOf(workers: map<string, Node>): map<string, Amount> {
    map name | name in workers :: workers[name].allocatable
  }

  /** What the pods really take from each node: never more than it has. */
  function TakenOf(workers: map<string, Node>, pods: seq<Pod>): map<string, Amount> {
    map name | name in workers :: MinEach(workers[name].allocatable, UsedOn(pods, name))
  }

  lemma PlusInterchanges(a: Amount, b: Amount, c: Amount, d: Amount)
    ensures Plus(Plus(a, b), Plus(c, d)) == Plus(Plus(a, c), Plus(b, d))
  {
  }

  lemma {:induction false} SumSplits(names: set<string>, a: map<string, Amount>, b: map<string, Amount>,
                                     whole: map<string, Amount>)
    requires names <= a.Keys && names <= b.Keys && names <= whole.Keys
    requires forall name | name in names :: Plus(a[name], b[name]) == whole[name]
    ensures Plus(SumOver(names, a), SumOver(names, b)) == SumOver(names, whole)
  {
    if names != {} {
      var name :| name in names;
      SumAny(names, a, name);
      SumAny(names, b, name);
      SumAny(names, whole, name);
      var rest := names - {name};
      SumSplits(rest, a, b, whole);
      PlusInterchanges(SumOver(rest, a), a[name], SumOver(rest, b), b[name]);
    }
  }

  function Scale(n: nat, a: Amount): Amount {
    if n == 0 then ZERO else Plus(Scale(n - 1, a), a)
  }

  lemma {:induction false} SumAtMostMax(names: set<string>, a: map<string, Amount>, most: Amount)
    requires names <= a.Keys && forall name | name in names :: Fits(a[name], most)
    ensures Fits(SumOver(names, a), Scale(|names|, most))
  {
    if names != {} {
      var name :| name in names;
      SumAny(names, a, name);
      SumAtMostMax(names - {name}, a, most);
      assert |names| == |names - {name}| + 1;
    }
  }

  lemma SumAtLeastEach(names: set<string>, a: map<string, Amount>, name: string)
    requires names <= a.Keys && name in names && forall n | n in names :: Fits(ZERO, a[n])
    ensures Fits(a[name], SumOver(names, a))
  {
    SumAny(names, a, name);
    SumGrows({}, names - {name}, a);
  }

  lemma SummaryBounds(free: map<string, Amount>, r: ClusterFree)
    requires Summarizes(free, r) && forall name | name in free :: Fits(ZERO, free[name])
    ensures Fits(r.maxNode, r.cluster) && Fits(r.cluster, Scale(|free.Keys|, r.maxNode))
  {
    SumAtMostMax(free.Keys, free, r.maxNode);
    SumGrows({}, free.Keys, free);
    forall name | name in free ensures Fits(free[name], r.cluster) {
      SumAtLeastEach(free.Keys, free, name);
    }
  }

  lemma FreePlusTaken(workers: map<string, Node>, pods: seq<Pod>)
    ensures Plus(SumOver(workers.Keys, FreeOf(workers, pods)), SumOver(workers.Keys, TakenOf(workers, pods)))
         == SumOver(workers.Keys, AllocatableOf(workers))
  {
    SumSplits(workers.Keys, FreeOf(workers, pods), TakenOf(workers, pods), AllocatableOf(workers));
  }

  /** Free plus taken is everything the workers have, and MaxNode <= Cluster <= workers * MaxNode. */
  lemma CapacityIsConserved(nodes: seq<Node>, pods: seq<Pod>, r: ClusterFree)
    requires IsClusterFree(nodes, pods, r)
    ensures Plus(r.cluster, SumOver(Workers(nodes).Keys, TakenOf(Workers(nodes), pods)))
         == SumOver(Workers(nodes).Keys, AllocatableOf(Workers(nodes)))
    ensures Fits(r.maxNode, r.cluster) && Fits(r.cluster, Scale(|Workers(nodes).Keys|, r.maxNode))
  {
    var workers := Workers(nodes);
    assert FreeOf(workers, pods).Keys == workers.Keys;
    FreePlusTaken(workers, pods);
    SummaryBounds(FreeOf(workers, pods), r);
  }

  /* ---------- monotonicity ---------- */

  predicate PodNonNegative(p: Pod) {
    NonNegative(p.initContainers + p.containers)
  }

  lemma UsedWithOneMore(pods: seq<Pod>, p: Pod, name: string)
    requires PodNonNegative(p)
    ensures Fits(UsedOn(pods, name), UsedOn(pods + [p], name))
  {
    SumNonNegative(p.initContainers + p.containers);
    TotalPrefix(pods + [p], ChargeTo(name), |pods|);
    assert (pods + [p])[..|pods|] == pods && (pods + [p])[..|pods| + 1] == pods + [p];
  }

  lemma UsedAfterFinish(pods: seq<Pod>, i: nat, phase: Phase, name: string)
    requires i < |pods| && PodNonNegative(pods[i]) && (phase == Succeeded || phase == Failed)
    ensures Fits(UsedOn(pods[i := pods[i].(phase := phase)], name), UsedOn(pods, name))
  {
    SumNonNegative(pods[i].initContainers + pods[i].containers);
    TotalMonotone(pods[i := pods[i].(phase := phase)], pods, ChargeTo(name), ChargeTo(name));
  }

  /** One more pod never raises any field. */
  lemma AddingPodLowers(nodes: seq<Node>, pods: seq<Pod>, p: Pod, r: ClusterFree, r': ClusterFree)
    requires PodNonNegative(p)
    requires IsClusterFree(nodes, pods, r) && IsClusterFree(nodes, pods + [p], r')
    ensures Fits(r'.cluster, r.cluster) && Fits(r'.maxNode, r.maxNode)
  {
    forall name {
      UsedWithOneMore(pods, p, name);
    }
    LessFree(Workers(nodes), pods + [p], Workers(nodes), pods, r', r);
  }

  lemma UsedAfterBinding(pods: seq<Pod>, i: nat, node: string, name: string)
    requires i < |pods| && PodNonNegative(pods[i]) && pods[i].nodeName == ""
    ensures Fits(UsedOn(pods, name), UsedOn(pods[i := pods[i].(nodeName := node)], name))
  {
    SumNonNegative(pods[i].initContainers + pods[i].containers);
    TotalMonotone(pods, pods[i := pods[i].(nodeName := node)], ChargeTo(name), ChargeTo(name));
  }

  /** Binding a listed pod to a node never raises any field. */
  lemma BindingLowers(nodes: seq<Node>, pods: seq<Pod>, i: nat, node: string, r: ClusterFree, r': ClusterFree)
    requires i < |pods| && PodNonNegative(pods[i]) && pods[i].nodeName == ""
    requires IsClusterFree(nodes, pods, r) && IsClusterFree(nodes, pods[i := pods[i].(nodeName := node)], r')
    ensures Fits(r'.cluster, r.cluster) && Fits(r'.maxNode, r.maxNode)
  {
    var pods' := pods[i := pods[i].(nodeName := node)];
    forall name {
      UsedAfterBinding(pods, i, node, name);
    }
    LessFree(Workers(nodes), pods', Workers(nodes), pods, r', r);
  }

  /** A pod that succeeds or fails never lowers any field. */
  lemma FinishingRaises(nodes: seq<Node>, pods: seq<Pod>, i: nat, phase: Phase, r: ClusterFree, r': ClusterFree)
    requires i < |pods| && PodNonNegative(pods[i]) && (phase == Succeeded || phase == Failed)
    requires IsClusterFree(nodes, pods, r) && IsClusterFree(nodes, pods[i := pods[i].(phase := phase)], r')
    ensures Fits(r.cluster, r'.cluster) && Fits(r.maxNode, r'.maxNode)
  {
    var pods' := pods[i := pods[i].(phase := phase)];
    forall name {
      UsedAfterFinish(pods, i, phase, name);
    }
    LessFree(Workers(nodes), pods, Workers(nodes), pods', r, r');
  }

  lemma WorkersAfterCordon(nodes: seq<Node>, i: nat)
    requires i < |nodes| && DistinctNames(nodes)
    ensures var after := Workers(nodes[i := nodes[i].(unschedulable := true)]);
            forall name | name in after :: name in Workers(nodes) && Workers(nodes)[name] == after[name]
  {
    var nodes' := nodes[i := nodes[i].(unschedulable := true)];
    WorkersMeaning(nodes);
    WorkersMeaning(nodes');
    forall name | name in Workers(nodes')
      ensures name in Workers(nodes) && Workers(nodes)[name] == Workers(nodes')[name]
    {
      var n := Workers(nodes')[name];
      var j :| 0 <= j < |nodes'| && nodes'[j] == n;
      assert nodes[j] == n;
    }
  }

  /** Cordoning a node never raises any field. */
  lemma CordoningLowers(nodes: seq<Node>, pods: seq<Pod>, i: nat, r: ClusterFree, r': ClusterFree)
    requires i < |nodes| && DistinctNames(nodes)
    requires IsClusterFree(nodes, pods, r) && IsClusterFree(nodes[i := nodes[i].(unschedulable := true)], pods, r')
    ensures Fits(r'.cluster, r.cluster) && Fits(r'.maxNode, r.maxNode)
  {
    WorkersAfterCordon(nodes, i);
    LessFree(Workers(nodes[i := nodes[i].(unschedulable := true)]), pods, Workers(nodes), pods, r', r);
  }

  /** A new node, worker or not, never lowers any field. */
  lemma AddingNodeRaises(nodes: seq<Node>, n: Node, pods: seq<Pod>, r: ClusterFree, r': ClusterFree)
    requires forall m | m in nodes :: m.name != n.name
    requires IsClusterFree(nodes, pods, r) && IsClusterFree(nodes + [n], pods, r')
    ensures Fits(r.cluster, r'.cluster) && Fits(r.maxNode, r'.maxNode)
  {
    assert (nodes + [n])[..|nodes|] == nodes;
    WorkerNamesOccur(nodes);
    LessFree(Workers(nodes), pods, Workers(nodes + [n]), pods, r, r');
  }

  lemma {:induction false} WorkerNamesOccur(nodes: seq<Node>)
    ensures forall name | name in Workers(nodes) :: exists m | m in nodes :: m.name == name
  {
    if nodes != [] {
      var front, last := nodes[..|nodes| - 1], nodes[|nodes| - 1];
      assert nodes == front + [last];
      WorkerNamesOccur(front);
    }
  }

  /* ---------- caution ---------- */

  function Largest(amounts: seq<Amount>): Amount {
    if amounts == [] then ZERO else MaxEach(Largest(amounts[..|amounts| - 1]), amounts[|amounts| - 1])
  }

  /** The scheduler's rule without pod overhead: init containers run one at a time, before the others. */
  function EffectiveDemand(p: Pod): Amount {
    MaxEach(Largest(p.initContainers), SumOf(p.containers))
  }

  function EffectiveCharge(name: string): Pod -> Amount {
    p => if Live(p) && p.nodeName != "" && p.nodeName == name then EffectiveDemand(p) else ZERO
  }

  function EffectiveFreeOf(workers: map<string, Node>, pods: seq<Pod>): map<string, Amount> {
    map name | name in workers :: Left(workers[name].allocatable, Total(pods, EffectiveCharge(name)))
  }

  lemma {:induction false} LargestFitsSum(amounts: seq<Amount>)
    requires NonNegative(amounts)
    ensures Fits(ZERO, Largest(amounts)) && Fits(Largest(amounts), SumOf(amounts))
  {
    if amounts != [] {
      LargestFitsSum(amounts[..|amounts| - 1]);
    }
  }

  lemma {:induction false} SumOfConcat(a: seq<Amount>, b: seq<Amount>)
    ensures SumOf(a + b) == Plus(SumOf(a), SumOf(b))
  {
    if b == [] {
      assert a + b == a;
    } else {
      var front, last := b[..|b| - 1], b[|b| - 1];
      SumOfConcat(a, front);
      assert (a + b)[..|a + b| - 1] == a + front && (a + b)[|a + b| - 1] == last;
      PlusAssociates(SumOf(a), SumOf(front), last);
    }
  }

  lemma EffectiveFitsDemand(p: Pod)
    requires PodNonNegative(p)
    ensures Fits(EffectiveDemand(p), Demand(p))
  {
    assert forall i | 0 <= i < |p.initContainers| :: (p.initContainers + p.containers)[i] == p.initContainers[i];
    assert forall i | 0 <= i < |p.containers| ::
        (p.initContainers + p.containers)[|p.initContainers| + i] == p.containers[i];
    LargestFitsSum(p.initContainers);
    SumNonNegative(p.containers);
    SumOfConcat(p.initContainers, p.containers);
  }

  lemma NodesAreCautious(workers: map<string, Node>, pods: seq<Pod>)
    requires forall i | 0 <= i < |pods| :: PodNonNegative(pods[i])
    ensures forall name | name in workers ::
              && Fits(FreeOf(workers, pods)[name], EffectiveFreeOf(workers, pods)[name])
              && Fits(ZERO, EffectiveFreeOf(workers, pods)[name])
  {
    forall name | name in workers
      ensures Fits(FreeOf(workers, pods)[name], EffectiveFreeOf(workers, pods)[name])
      ensures Fits(ZERO, EffectiveFreeOf(workers, pods)[name])
    {
      forall i | 0 <= i < |pods| ensures Fits(EffectiveCharge(name)(pods[i]), Charge(pods[i], name)) {
        EffectiveFitsDemand(pods[i]);
      }
      TotalMonotone(pods, pods, EffectiveCharge(name), ChargeTo(name));
      LeftMonotone(workers[name].allocatable, UsedOn(pods, name), Total(pods, EffectiveCharge(name)));
    }
  }

  /** Charging all init containers is cautious: every field is at most what the scheduler's rule would leave. */
  lemma AccountingIsCautious(nodes: seq<Node>, pods: seq<Pod>, r: ClusterFree, byRule: ClusterFree)
    requires forall i | 0 <= i < |pods| :: PodNonNegative(pods[i])
    requires IsClusterFree(nodes, pods, r) && Summarizes(EffectiveFreeOf(Workers(nodes), pods), byRule)
    ensures forall name | name in Workers(nodes) ::
              Fits(FreeOf(Workers(nodes), pods)[name], EffectiveFreeOf(Workers(nodes), pods)[name])
    ensures Fits(r.cluster, byRule.cluster) && Fits(r.maxNode, byRule.maxNode)
  {
    NodesAreCautious(Workers(nodes), pods);
    SummaryMonotone(FreeOf(Workers(nodes), pods), EffectiveFreeOf(Workers(nodes), pods), r, byRule);
  }
}
