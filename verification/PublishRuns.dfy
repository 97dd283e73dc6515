/** What concurrent handlers leave on the branch over whole runs: one sequential order of the published
    requests, and exact replica counts. */
module PublishRuns {
  import opened Manifests
  import opened Numbers
  import FanOutRuns
  import opened Publish

  /* ---------- linearizability ---------- */

  lemma {:induction false} IterateKeepsSingle(req: Request, file: File, times: nat)
    requires |file| <= 1
    ensures |Iterate(req, file, times)| <= 1
  {
    if times > 0 {
      IterateKeepsSingle(req, file, times - 1);
    }
  }

  predicate Authored(cfg: Config, history: seq<Commit>) {
    history != [] && forall v | 1 <= v < |history| :: history[v].author < |cfg.posted|
  }

  /** The sequential reference: apply the published requests one after the other. */
  function Replay(cfg: Config, history: seq<Commit>, n: nat): Tree
    requires Authored(cfg, history) && 1 <= n <= |history|
  {
    if n == 1 then cfg.initial
    else FanOutRuns.Applied(RequestOf(cfg.posted[history[n - 1].author]), history[n - 1].paths,
                            Replay(cfg, history, n - 1))
  }

  predicate OnlyQuotas(cfg: Config) {
    forall h | 0 <= h < |cfg.posted| :: cfg.posted[h].PostedQuota?
  }

  /** Over single-document files a push is the pointwise update, and files stay single-document. */
  lemma SingleDocumentCommit(o: Posted, before: Tree, paths: seq<Path>, after: Tree)
    requires Genuine(o, before, paths, after) && SingleDocuments(before)
    ensures after == FanOutRuns.Applied(RequestOf(o), paths, before) && SingleDocuments(after)
  {
    ScanIsDistinct(o, before, paths);
    FanOutRuns.DistinctRewriteIsApplied(RequestOf(o), paths, before, after);
    forall p | p in after ensures |after[p]| <= 1 {
      IterateKeepsSingle(RequestOf(o), before[p], 1);
      FanOutRuns.OnceIsNext(RequestOf(o), before[p]);
    }
  }

  /** So is a quota push over any files. */
  lemma QuotaCommit(o: Posted, before: Tree, paths: seq<Path>, after: Tree)
    requires Genuine(o, before, paths, after) && o.PostedQuota?
    ensures after == FanOutRuns.Applied(RequestOf(o), paths, before)
  {
    FanOutRuns.QuotaRewriteIsApplied(o.hard, paths, before, after);
  }

  lemma {:induction false} PrefixIsReplay(cfg: Config, history: seq<Commit>, n: nat)
    requires GenuineHistory(cfg, history) && 1 <= n <= |history| && Authored(cfg, history)
    requires SingleDocuments(cfg.initial) || OnlyQuotas(cfg)
    ensures history[n - 1].tree == Replay(cfg, history, n)
    ensures SingleDocuments(cfg.initial) ==> SingleDocuments(history[n - 1].tree)
  {
    if n > 1 {
      PrefixIsReplay(cfg, history, n - 1);
      var c, before := history[n - 1], history[n - 2].tree;
      if SingleDocuments(cfg.initial) {
        SingleDocumentCommit(cfg.posted[c.author], before, c.paths, c.tree);
      } else {
        QuotaCommit(cfg.posted[c.author], before, c.paths, c.tree);
      }
    }
  }

  /** Linearizability: over single-document manifests, or when only quotas are posted, every interleaving of
      clones, scans, file reads, file writes and pushes leaves each tip of the branch at the sequential
      application of the published requests, in push order. */
  lemma Linearizable(cfg: Config, s: State)
    requires Reachable(cfg, s)
    requires SingleDocuments(cfg.initial) || OnlyQuotas(cfg)
    ensures Authored(cfg, s.history)
    ensures forall n | 1 <= n <= |s.history| :: s.history[n - 1].tree == Replay(cfg, s.history, n)
  {
    ReachableInv(cfg, s);
    HistoryIsGenuine(cfg, s);
    forall n | 1 <= n <= |s.history| ensures s.history[n - 1].tree == Replay(cfg, s.history, n) {
      PrefixIsReplay(cfg, s.history, n);
    }
  }

  /* ---------- replica counts ---------- */

  /** Pushes among the first n - 1 that scaled the MachineDeployment in file p. */
  function Scalings(cfg: Config, history: seq<Commit>, p: Path, n: nat): nat
    requires n <= |history| && Authored(cfg, history)
  {
    if n <= 1 then 0
    else Scalings(cfg, history, p, n - 1)
         + if cfg.posted[history[n - 1].author].PostedNodeScaling? && p in history[n - 1].paths then 1 else 0
  }

  function ReplicasOf(tree: Tree, p: Path): Replicas {
    if p in tree && tree[p] != [] && tree[p][0].Document? && tree[p][0].spec.Some?
    then tree[p][0].spec.value.replicas
    else Missing
  }

  /** Pushes among the first n - 1 that changed the replica count in file p. */
  function ReplicaChanges(history: seq<Commit>, p: Path, n: nat): nat
    requires n <= |history|
  {
    if n <= 1 then 0
    else ReplicaChanges(history, p, n - 1)
         + if ReplicasOf(history[n - 1].tree, p) != ReplicasOf(history[n - 2].tree, p) then 1 else 0
  }

  predicate OneMaximum(cfg: Config, maxNodes: int) {
    forall h | 0 <= h < |cfg.posted| && cfg.posted[h].PostedNodeScaling? :: cfg.posted[h].maxNodes == maxNodes
  }

  /** One sequential update of a file with 1 <= r <= maxNodes replicas. */
  lemma NextReplicas(o: Posted, file: File, r: int, maxNodes: int)
    requires HasReplicas(file, r) && 1 <= r <= maxNodes && (o.PostedNodeScaling? ==> o.maxNodes == maxNodes)
    ensures HasReplicas(Next(RequestOf(o), file), if o.PostedNodeScaling? then Min(r + 1, maxNodes) else r)
  {
  }

  lemma {:induction false} ReplayReplicas(cfg: Config, history: seq<Commit>, p: Path, r0: int, maxNodes: int, n: nat)
    requires Authored(cfg, history) && 1 <= n <= |history| && OneMaximum(cfg, maxNodes)
    requires p in cfg.initial && HasReplicas(cfg.initial[p], r0) && 1 <= r0 <= maxNodes
    ensures p in Replay(cfg, history, n)
    ensures HasReplicas(Replay(cfg, history, n)[p], Min(r0 + Scalings(cfg, history, p, n), maxNodes))
  {
    if n > 1 {
      ReplayReplicas(cfg, history, p, r0, maxNodes, n - 1);
      NextReplicas(cfg.posted[history[n - 1].author], Replay(cfg, history, n - 1)[p],
                   Min(r0 + Scalings(cfg, history, p, n - 1), maxNodes), maxNodes);
    }
  }

  /** What the scaling pushes among the first n - 1 should have made of r0 replicas. */
  function Capped(cfg: Config, history: seq<Commit>, p: Path, r0: int, maxNodes: int, n: nat): Replicas
    requires n <= |history| && Authored(cfg, history)
  {
    Count(Min(r0 + Scalings(cfg, history, p, n), maxNodes))
  }

  lemma ReplicasFollowScalings(cfg: Config, history: seq<Commit>, p: Path, r0: int, maxNodes: int, n: nat)
    requires Authored(cfg, history) && 1 <= n <= |history| && OneMaximum(cfg, maxNodes)
    requires p in cfg.initial && HasReplicas(cfg.initial[p], r0) && 1 <= r0 <= maxNodes
    requires history[n - 1].tree == Replay(cfg, history, n)
    ensures ReplicasOf(history[n - 1].tree, p) == Capped(cfg, history, p, r0, maxNodes, n)
  {
    ReplayReplicas(cfg, history, p, r0, maxNodes, n);
  }

  lemma {:induction false} ChangesFollowScalings(cfg: Config, history: seq<Commit>, p: Path,
                                                 r0: int, maxNodes: int, n: nat)
    requires Authored(cfg, history) && 1 <= n <= |history| && 1 <= r0 <= maxNodes
    requires forall k | 1 <= k <= n :: ReplicasOf(history[k - 1].tree, p) == Capped(cfg, history, p, r0, maxNodes, k)
    ensures r0 + ReplicaChanges(history, p, n) == Min(r0 + Scalings(cfg, history, p, n), maxNodes)
  {
    if n > 1 {
      ChangesFollowScalings(cfg, history, p, r0, maxNodes, n - 1);
      assert ReplicasOf(history[n - 1].tree, p) == Capped(cfg, history, p, r0, maxNodes, n);
      assert ReplicasOf(history[n - 2].tree, p) == Capped(cfg, history, p, r0, maxNodes, n - 1);
    }
  }

  /** Concurrent replica scaling: with 1 <= r0 <= maxNodes and one maxNodes for all, after k replica-changing
      pushes the branch holds exactly r0 + k replicas, never more than maxNodes, and k falls short of the
      number of scaling pushes only at maxNodes. Quota pushes on the same branch do not disturb this. */
  lemma ReplicaCountAfterPushes(cfg: Config, s: State, p: Path, r0: int, maxNodes: int)
    requires Reachable(cfg, s) && SingleDocuments(cfg.initial) && OneMaximum(cfg, maxNodes)
    requires p in cfg.initial && HasReplicas(cfg.initial[p], r0) && 1 <= r0 <= maxNodes
    ensures Authored(cfg, s.history)
    ensures var k, pushes := ReplicaChanges(s.history, p, |s.history|), Scalings(cfg, s.history, p, |s.history|);
            && ReplicasOf(Tip(s), p) == Replicas.Count(r0 + k)
            && r0 + k == Min(r0 + pushes, maxNodes)
  {
    Linearizable(cfg, s);
    forall n | 1 <= n <= |s.history|
      ensures ReplicasOf(s.history[n - 1].tree, p) == Capped(cfg, s.history, p, r0, maxNodes, n)
    {
      ReplicasFollowScalings(cfg, s.history, p, r0, maxNodes, n);
    }
    ChangesFollowScalings(cfg, s.history, p, r0, maxNodes, |s.history|);
    var n := |s.history|;
    assert ReplicasOf(s.history[n - 1].tree, p) == Capped(cfg, s.history, p, r0, maxNodes, n);
  }
}
