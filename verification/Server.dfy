/** One handler on its own, as the imperative sequence the server runs: clone, update every match, stop at
    an error, push. It is the sequential yardstick for the interleaved runs. */
module Server {
  import opened Manifests
  import opened Numbers
  import FanOut
  import opened FanOutRuns

  /** The sequential result is one the concurrent fan-out may produce. */
  lemma SequentialIsARewrite(req: Request, paths: seq<Path>, tree: Tree)
    requires AllUpdatableIn(req, tree, paths)
    ensures Rewritten(req, paths, tree, ApplyAll(req, paths, tree))
  {
    var all := ApplyAll(req, paths, tree);
    forall p | p in tree ensures all[p] == Iterate(req, tree[p], multiset(paths)[p]) {
      ApplyAllIterates(req, paths, tree, p);
    }
    forall p | p in paths ensures FanOut.Within(req, tree[p], all[p], 1, multiset(paths)[p]) {
      assert UpdatableIn(req, tree, p) && p in multiset(paths);
    }
  }

  /** Over distinct paths it is the only result: every schedule agrees with the sequential loop. */
  lemma DistinctRewriteIsSequential(req: Request, paths: seq<Path>, tree: Tree, after: Tree)
    requires Distinct(paths) && Rewritten(req, paths, tree, after)
    ensures after == ApplyAll(req, paths, tree)
  {
    SequentialIsARewrite(req, paths, tree);
    DistinctRewriteIsApplied(req, paths, tree, after);
    DistinctRewriteIsApplied(req, paths, tree, ApplyAll(req, paths, tree));
  }

  /* ---------- when there is nothing to commit ---------- */

  lemma {:induction false} StaysPut(req: Request, file: File, times: nat)
    requires Next(req, file) == file
    ensures Iterate(req, file, times) == file
  {
    if times > 0 {
      StaysPut(req, file, times - 1);
    }
  }

  /** A replica count that moves never comes back. */
  lemma {:induction false} CountNeverReturns(maxNodes: int, file: File, r: int, times: nat) returns (n: int)
    requires HasReplicas(file, r) && r != 0 && r != maxNodes && times > 0
    ensures HasReplicas(Iterate(AddReplica(maxNodes), file, times), n)
    ensures if r < maxNodes then r < n <= maxNodes else n == maxNodes
  {
    if times == 1 {
      OnceIsNext(AddReplica(maxNodes), file);
      n := Min(r + 1, maxNodes);
    } else {
      var m := CountNeverReturns(maxNodes, file, r, times - 1);
      n := if m == 0 || m == maxNodes then m else Min(m + 1, maxNodes);
    }
  }

  /** If some number of updates leaves a file as it was, so does the first. */
  lemma NoDetour(req: Request, file: File, times: nat)
    requires !Decide(req, file).Fail? && times > 0 && Iterate(req, file, times) == file
    ensures Next(req, file) == file
  {
    if req.SetQuota? {
      QuotaIdempotent(req.hard, file, times);
    } else if Decide(req, file).Write? {
      var n := CountNeverReturns(req.maxNodes, file, file[0].spec.value.replicas.n, times);
    }
  }

  lemma FixedMatchesChangeNothing(req: Request, paths: seq<Path>, tree: Tree)
    requires forall p | p in paths :: p in tree && Next(req, tree[p]) == tree[p]
    ensures ApplyAll(req, paths, tree) == tree
  {
    forall p | p in tree ensures ApplyAll(req, paths, tree)[p] == tree[p] {
      ApplyAllIterates(req, paths, tree, p);
      if p in paths {
        StaysPut(req, tree[p], multiset(paths)[p]);
      }
    }
  }

  /** The directory ends as it was cloned exactly when every match already is as the update would leave it. */
  lemma NothingToCommitIff(req: Request, paths: seq<Path>, tree: Tree)
    requires AllUpdatableIn(req, tree, paths)
    ensures ApplyAll(req, paths, tree) == tree <==> forall p | p in paths :: p in tree && Next(req, tree[p]) == tree[p]
  {
    if forall p | p in paths :: p in tree && Next(req, tree[p]) == tree[p] {
      FixedMatchesChangeNothing(req, paths, tree);
    }
    if ApplyAll(req, paths, tree) == tree {
      forall p | p in paths ensures p in tree && Next(req, tree[p]) == tree[p] {
        assert UpdatableIn(req, tree, p) && p in multiset(paths);
        ApplyAllIterates(req, paths, tree, p);
        NoDetour(req, tree[p], multiset(paths)[p]);
      }
    }
  }

  /** One more match in the loop. */
  lemma ApplyAllNext(req: Request, paths: seq<Path>, tree: Tree, n: nat)
    requires n < |paths|
    ensures var before := ApplyAll(req, paths[..n], tree);
            ApplyAll(req, paths[..n + 1], tree)
            == if paths[n] in before then before[paths[n] := Next(req, before[paths[n]])] else before
    ensures UpdatableIn(req, ApplyAll(req, paths[..n], tree), paths[n]) <==> UpdatableIn(req, tree, paths[n])
    ensures AllUpdatableIn(req, tree, paths[..n + 1])
            <==> AllUpdatableIn(req, tree, paths[..n]) && UpdatableIn(req, tree, paths[n])
  {
    assert paths[..n + 1] == paths[..n] + [paths[n]];
    ApplyAllLast(req, paths[..n], paths[n], tree);
    ApplyAllKeepsFailures(req, paths[..n], tree, paths[n]);
  }

  /** The remote branch: its tips so far, the last one current. */
  class Branch {
    var tips: seq<Tree>

    ghost predicate Valid()
      reads this
    {
      tips != []
    }

    constructor (initial: Tree)
      ensures Valid() && tips == [initial]
    {
      tips := [initial];
    }

    method Clone() returns (base: nat, dir: WorkTree)
      requires Valid()
      ensures base == |tips| - 1 && fresh(dir) && dir.files == tips[base]
    {
      base := |tips| - 1;
      dir := new WorkTree(tips[base]);
    }

    /** A push without force: accepted exactly when nobody pushed since the clone. */
    method Push(base: nat, tree: Tree) returns (accepted: bool)
      requires Valid()
      modifies this
      ensures Valid() && accepted == (base == |old(tips)| - 1)
      ensures tips == if accepted then old(tips) + [tree] else old(tips)
    {
      accepted := base == |tips| - 1;
      if accepted {
        tips := tips + [tree];
      }
    }

    method UpdateOne(dir: WorkTree, req: Request, path: Path) returns (ok: bool)
      modifies dir
      ensures ok <==> UpdatableIn(req, old(dir.files), path)
      ensures dir.files == if path in old(dir.files)
                           then old(dir.files)[path := Next(req, old(dir.files)[path])]
                           else old(dir.files)
    {
      var r;
      match req {
        case SetQuota(hard) => r := dir.UpdateResourceQuota(path, hard, true, true, []);
        case AddReplica(maxNodes) => r := dir.UpdateResourceReplicasMachineDeployment(path, maxNodes, true, true, []);
      }
      ok := r.Succeeded?;
    }

    /** Updates the matches in list order and goes on after an error, as the goroutines do. */
    method UpdateMatches(dir: WorkTree, req: Request, matches: seq<Path>) returns (failures: nat)
      modifies dir
      ensures dir.files == ApplyAll(req, matches, old(dir.files))
      ensures failures == 0 <==> AllUpdatableIn(req, old(dir.files), matches)
    {
      failures := 0;
      ghost var start := dir.files;
      for n := 0 to |matches|
        invariant dir.files == ApplyAll(req, matches[..n], start)
        invariant failures == 0 <==> AllUpdatableIn(req, start, matches[..n])
      {
        ApplyAllNext(req, matches, start, n);
        var ok := UpdateOne(dir, req, matches[n]);
        if !ok {
          failures := failures + 1;
        }
      }
      assert matches[..|matches|] == matches;
    }

    /** The handler with no other handler and no I/O fault around: all matches or nothing. A commit that would
        change nothing is refused, since the server does not ask for empty commits. */
    method Handle(req: Request, matches: seq<Path>) returns (published: bool)
      requires Valid()
      modifies this
      ensures Valid()
      ensures var tip := old(tips[|tips| - 1]);
              published <==> && AllUpdatableIn(req, tip, matches)
                             && exists p | p in matches :: p in tip && Next(req, tip[p]) != tip[p]
      ensures tips == if published then old(tips) + [ApplyAll(req, matches, old(tips[|tips| - 1]))] else old(tips)
    {
      var base, dir := Clone();
      ghost var tip := tips[base];
      if matches == [] {
        return false;
      }
      var failures := UpdateMatches(dir, req, matches);
      if failures > 0 {
        return false;
      }
      NothingToCommitIff(req, matches, tip);
      if dir.files == tips[base] {
        return false;
      }
      published := Push(base, dir.files);
    }
  }
}
