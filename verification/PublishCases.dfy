/** Which files a post is for, spelled out on documents as they stand in a repository, and what becomes of them on
    the branch. */
module PublishCases {
  import opened Manifests
  import opened Options
  import Text
  import ScannerRuns
  import FanOutRuns
  import opened Publish
  import PublishRuns
  import PublishReach
  import Delivery

  /* ---------- which files a scan looks at ---------- */

  /** Files ending in .yaml or .yml, in whatever case. */
  lemma YamlIff(p: Path)
    ensures IsYaml(p) <==> exists base: string :: Text.ToLower(p) == base + ".yaml" || Text.ToLower(p) == base + ".yml"
  {
    Text.HasSuffixIff(Text.ToLower(p), ".yaml");
    Text.HasSuffixIff(Text.ToLower(p), ".yml");
  }

  /** For example. */
  lemma YamlEndings(base: string)
    ensures IsYaml(base + ".yaml") && IsYaml(base + ".yml") && IsYaml(base + ".YAML") && IsYaml(base + ".Yml")
    ensures !IsYaml(base + ".json") && !IsYaml(base + ".yaml.bak")
  {
    Text.ToLowerConcat(base, ".yaml");
    Text.ToLowerConcat(base, ".yml");
    Text.ToLowerConcat(base, ".YAML");
    Text.ToLowerConcat(base, ".Yml");
    assert Text.ToLower(".YAML") == ".yaml" && Text.ToLower(".Yml") == ".yml";
    assert Text.ToLower(".yaml") == ".yaml" && Text.ToLower(".yml") == ".yml";
    YamlIff(base + ".yaml");
    YamlIff(base + ".yml");
    YamlIff(base + ".YAML");
    YamlIff(base + ".Yml");
    NotYaml(base + ".json", 'n');
    NotYaml(base + ".yaml.bak", 'k');
  }

  lemma NotYaml(p: Path, last: char)
    requires p != [] && p[|p| - 1] == last && 'a' <= last <= 'z' && last != 'l'
    ensures !IsYaml(p)
  {
    assert Text.ToLower(p)[|p| - 1] == last;
    YamlIff(p);
    forall base: string ensures Text.ToLower(p) != base + ".yaml" && Text.ToLower(p) != base + ".yml" {
      assert (base + ".yaml")[|base + ".yaml"| - 1] == 'l' && (base + ".yml")[|base + ".yml"| - 1] == 'l';
    }
  }

  /** A name without a dot is no such file, however it ends. */
  lemma NoDotNotYaml(p: Path)
    requires forall i | 0 <= i < |p| :: p[i] != '.'
    ensures !IsYaml(p)
  {
    YamlIff(p);
    forall base: string ensures Text.ToLower(p) != base + ".yaml" && Text.ToLower(p) != base + ".yml" {
      assert (base + ".yaml")[|base|] == '.' && (base + ".yml")[|base|] == '.';
    }
  }

  /* ---------- which files a post is for ---------- */

  /** No namespace and the namespace "default" are the same. */
  predicate SameNamespace(a: string, b: string) {
    a == b || (a == "" && b == "default") || (a == "default" && b == "")
  }

  /** Some scan of this tree returns the file. */
  ghost predicate MayList(o: Posted, tree: Tree, p: Path) {
    exists paths :: MayReturn(o, tree, paths) && p in paths
  }

  lemma MayListIff(o: Posted, tree: Tree, p: Path)
    requires PublishReach.Decodable(tree)
    ensures MayList(o, tree, p) <==> HasWanted(o, tree, p)
  {
    if MayList(o, tree, p) {
      var paths :| MayReturn(o, tree, paths) && p in paths;
      ScanFindsWanted(o, tree, paths);
    }
    if HasWanted(o, tree, p) {
      var paths := PublishReach.WholeScanReturns(o, tree);
      PublishReach.WantedIsSelected(o, tree[p]);
      assert p in multiset(paths);
    }
  }

  lemma SingleDocumentListed(o: Posted, tree: Tree, p: Path, d: Document)
    requires PublishReach.Decodable(tree) && p in tree && tree[p] == [d]
    ensures MayList(o, tree, p) <==> IsYaml(p) && Wanted(o, d)
  {
    MayListIff(o, tree, p);
    assert forall e | e in tree[p] :: e == d;
    assert d in tree[p];
  }

  /** A posted quota is for the files of its kind and name in its namespace: a quota of the same name in another
      namespace is not listed, and none and "default" list each other. */
  lemma QuotaListsItsObject(kind: string, name: string, namespace: string, hard: map<string, int>, tree: Tree, p: Path,
                            k: string, n: string, ns: string, spec: Option<Spec>, rest: int)
    requires PublishReach.Decodable(tree) && p in tree && tree[p] == [Document(k, n, ns, spec, rest)]
    ensures MayList(PostedQuota(kind, name, namespace, hard), tree, p)
            <==> IsYaml(p) && k == kind && n == name && SameNamespace(ns, namespace)
  {
    SingleDocumentListed(PostedQuota(kind, name, namespace, hard), tree, p, Document(k, n, ns, spec, rest));
  }

  /** A posted node scaling is for the MachineDeployments named after its cluster with -md-0, in any namespace. */
  lemma NodeScalingListsItsPool(clusterName: string, maxNodes: int, tree: Tree, p: Path,
                                k: string, n: string, ns: string, spec: Option<Spec>, rest: int)
    requires PublishReach.Decodable(tree) && p in tree && tree[p] == [Document(k, n, ns, spec, rest)]
    ensures MayList(PostedNodeScaling(clusterName, maxNodes), tree, p)
            <==> IsYaml(p) && k == "MachineDeployment" && n == clusterName + "-md-0"
  {
    SingleDocumentListed(PostedNodeScaling(clusterName, maxNodes), tree, p, Document(k, n, ns, spec, rest));
  }

  /** Whatever else is in the tree, decodable or not, a quota of another namespace is never listed. */
  lemma OtherNamespaceNeverListed(name: string, a: string, b: string, hard: map<string, int>, tree: Tree,
                                  paths: seq<Path>, p: Path, spec: Option<Spec>, rest: int)
    requires MayReturn(PostedQuota("ResourceQuota", name, a, hard), tree, paths)
    requires a != b && a != "" && b != ""
    requires p in tree && tree[p] == [Document("ResourceQuota", name, b, spec, rest)]
    ensures p !in paths
  {
    Delivery.ForeignFileIsNotListed(PostedQuota("ResourceQuota", name, a, hard), tree, paths, p);
  }

  /* ---------- on the branch ---------- */

  function MachineDeployment(clusterName: string, namespace: string, replicas: int, hard: map<string, int>, x: int,
                             y: int): File
  {
    [Document("MachineDeployment", clusterName + "-md-0", namespace, Some(Spec(Count(replicas), hard, x)), y)]
  }

  lemma PoolIsWanted(clusterName: string, maxNodes: int, namespace: string, replicas: int, hard: map<string, int>,
                     x: int, y: int)
    ensures Wanted(PostedNodeScaling(clusterName, maxNodes),
                   MachineDeployment(clusterName, namespace, replicas, hard, x, y)[0])
  {
  }

  lemma PoolIsScaled(clusterName: string, maxNodes: int, namespace: string, replicas: int, hard: map<string, int>,
                     x: int, y: int)
    requires 1 <= replicas < maxNodes
    ensures Decide(AddReplica(maxNodes), MachineDeployment(clusterName, namespace, replicas, hard, x, y))
         == Write(MachineDeployment(clusterName, namespace, replicas + 1, hard, x, y))
  {
  }

  /** A node scaling reaches the branch: the pool's MachineDeployment, alone in a .yaml file, can end with one more
      replica. */
  lemma NodeScalingIsPublished(base: string, clusterName: string, maxNodes: int, namespace: string, replicas: int,
                               hard: map<string, int>, x: int, y: int) returns (cfg: Config, s: State)
    requires 1 <= replicas < maxNodes
    ensures cfg == Config(map[base + ".yaml" := MachineDeployment(clusterName, namespace, replicas, hard, x, y)],
                          [PostedNodeScaling(clusterName, maxNodes)])
    ensures Reachable(cfg, s) && s.history != []
    ensures Tip(s) == map[base + ".yaml" := MachineDeployment(clusterName, namespace, replicas + 1, hard, x, y)]
  {
    PoolIsWanted(clusterName, maxNodes, namespace, replicas, hard, x, y);
    PoolIsScaled(clusterName, maxNodes, namespace, replicas, hard, x, y);
    YamlEndings(base);
    cfg, s := OneFileIsPublished(PostedNodeScaling(clusterName, maxNodes), base + ".yaml",
                                 MachineDeployment(clusterName, namespace, replicas, hard, x, y),
                                 MachineDeployment(clusterName, namespace, replicas + 1, hard, x, y));
  }

  lemma OneFileUpdatable(o: Posted, p: Path, before: File, after: File)
    requires IsYaml(p) && |before| == 1 && Wanted(o, before[0]) && Decide(RequestOf(o), before) == Write(after)
    ensures PublishReach.Decodable(map[p := before]) && PublishReach.WantedUpdatable(o, map[p := before])
    ensures HasWanted(o, map[p := before], p) && PublishReach.Hits(o, map[p := before], p) <= 1
  {
    assert before[0] in before;
    SingleSelected(o, before);
  }

  lemma UpdatedOnce(req: Request, paths: seq<Path>, p: Path, before: File, after: File)
    requires multiset(paths)[p] == 1 && Decide(req, before) == Write(after)
    ensures ApplyAll(req, paths, map[p := before]) == map[p := after]
  {
    ApplyAllIterates(req, paths, map[p := before], p);
    FanOutRuns.OnceIsNext(req, before);
  }

  /** One handler, one file with the one wanted document: the file can be published as its update leaves it. */
  lemma OneFileIsPublished(o: Posted, p: Path, before: File, after: File) returns (cfg: Config, s: State)
    requires IsYaml(p) && |before| == 1 && Wanted(o, before[0]) && Decide(RequestOf(o), before) == Write(after)
    ensures cfg == Config(map[p := before], [o])
    ensures Reachable(cfg, s) && s.history != [] && Tip(s) == map[p := after]
  {
    cfg := Config(map[p := before], [o]);
    OneFileUpdatable(o, p, before, after);
    PublishReach.InitReachable(cfg);
    var paths: seq<Path>;
    s, paths := PublishReach.PostCanBePublished(cfg, Init(cfg), 0, p);
    PublishReach.ScanNamesAtMost(o, cfg.initial, paths, p);
    assert p in multiset(paths);
    UpdatedOnce(RequestOf(o), paths, p, before, after);
  }

  lemma SingleSelected(o: Posted, docs: seq<Document>)
    requires |docs| == 1
    ensures ScannerRuns.Selected(FilterOf(o), docs) <= 1
  {
    assert docs[1..] == [];
  }

  function ResourceQuota(name: string, namespace: string, hard: map<string, int>, x: int, y: int): File {
    [Document("ResourceQuota", name, namespace, Some(Spec(Missing, hard, x)), y)]
  }

  /** A quota reaches the branch. */
  lemma QuotaIsPublished(base: string, name: string, namespace: string, posted: map<string, int>,
                         hard: map<string, int>, x: int, y: int) returns (cfg: Config, s: State)
    ensures cfg == Config(map[base + ".yml" := ResourceQuota(name, namespace, hard, x, y)],
                          [PostedQuota("ResourceQuota", name, namespace, posted)])
    ensures Reachable(cfg, s) && s.history != []
    ensures Tip(s) == map[base + ".yml" := ResourceQuota(name, namespace, posted, x, y)]
  {
    YamlEndings(base);
    cfg, s := OneFileIsPublished(PostedQuota("ResourceQuota", name, namespace, posted), base + ".yml",
                                 ResourceQuota(name, namespace, hard, x, y),
                                 ResourceQuota(name, namespace, posted, x, y));
  }

  predicate QuotaPost(o: Posted, name: string, namespace: string) {
    o.PostedQuota? && o.kind == "ResourceQuota" && o.name == name && o.namespace == namespace
  }

  /** And stays out of other namespaces: however many quotas of this name are posted for team a, the quota of the
      same name in team b holds what it held before, in every tip of every run. */
  lemma OtherTeamIsUntouched(cfg: Config, s: State, p: Path, name: string, a: string, b: string,
                             hard: map<string, int>, x: int, y: int, v: nat)
    requires Reachable(cfg, s) && v < |s.history|
    requires a != b && a != "" && b != ""
    requires forall h | 0 <= h < |cfg.posted| :: QuotaPost(cfg.posted[h], name, a)
    requires p in cfg.initial && cfg.initial[p] == ResourceQuota(name, b, hard, x, y)
    ensures p in s.history[v].tree && s.history[v].tree[p] == ResourceQuota(name, b, hard, x, y)
  {
    ReachableInv(cfg, s);
    HistoryIsGenuine(cfg, s);
    UntouchedSoFar(cfg, s.history, p, name, a, b, hard, x, y, v);
  }

  lemma {:induction false} UntouchedSoFar(cfg: Config, history: seq<Commit>, p: Path, name: string, a: string,
                                          b: string, hard: map<string, int>, x: int, y: int, v: nat)
    requires GenuineHistory(cfg, history) && v < |history|
    requires a != b && a != "" && b != ""
    requires forall h | 0 <= h < |cfg.posted| :: QuotaPost(cfg.posted[h], name, a)
    requires p in cfg.initial && cfg.initial[p] == ResourceQuota(name, b, hard, x, y)
    ensures p in history[v].tree && history[v].tree[p] == ResourceQuota(name, b, hard, x, y)
  {
    if v > 0 {
      UntouchedSoFar(cfg, history, p, name, a, b, hard, x, y, v - 1);
      var c, before := history[v], history[v - 1].tree;
      assert QuotaPost(cfg.posted[c.author], name, a);
      OtherNamespaceNeverListed(name, a, b, cfg.posted[c.author].hard, before, c.paths, p,
                                Some(Spec(Missing, hard, x)), y);
    }
  }

  /* ---------- giving up ---------- */

  /** Credentials, clone, scan, commit and transport may fail at any time before the push: a handler that is not
      through may give up, and leaves the branch as it is. */
  lemma AnyHandlerMayGiveUp(cfg: Config, s: State, h: nat)
    requires Reachable(cfg, s) && h < |s.handlers| && !s.handlers[h].Published? && !s.handlers[h].GivenUp?
    ensures Enabled(cfg, s, Abandon(h)) && Apply(cfg, s, Abandon(h)).history == s.history
    ensures forall more | Legal(cfg, Apply(cfg, s, Abandon(h)), more) ::
              forall v | 1 <= v < |After(cfg, Apply(cfg, s, Abandon(h)), more).history| ::
                After(cfg, Apply(cfg, s, Abandon(h)), more).history[v].author != h
  {
    ReachableInv(cfg, s);
    var s1 := Apply(cfg, s, Abandon(h));
    StepKeepsInv(cfg, s, Abandon(h));
    forall more, v | Legal(cfg, s1, more) && 1 <= v < |After(cfg, s1, more).history|
      ensures After(cfg, s1, more).history[v].author != h
    {
      RunKeepsDoomed(cfg, s1, more, h);
      assert CommitOk(cfg, After(cfg, s1, more), v);
    }
  }
}
