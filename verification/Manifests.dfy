/** Manifest files of a cloned repository and the two rewrites the server applies to them. */
module Manifests {
  import opened Numbers
  import opened Options

  type Path = string

  /** What `spec.replicas` holds once the file is decoded into a generic map. */
  datatype Replicas = Missing | NotAnInt | Count(n: int)

  /** `rest` stands for every other key of the map; no update may touch it. */
  datatype Spec = Spec(replicas: Replicas, hard: map<string, int>, rest: int)

  /** One YAML document. Namespace "" means the key is absent. */
  datatype Document =
    | Undecodable
    | Document(kind: string, name: string, namespace: string, spec: Option<Spec>, rest: int)

  /** A file is the sequence of its YAML documents. */
  type File = seq<Document>

  type Tree = map<Path, File>

  predicate Distinct(paths: seq<Path>) {
    forall i, j | 0 <= i < j < |paths| :: paths[i] != paths[j]
  }

  datatype Request =
    | SetQuota(hard: map<string, int>)
    | AddReplica(maxNodes: int)

  datatype Reason = ReadFailed | UnmarshalFailed | UnsupportedKind | MissingSpec | InvalidReplicas | WriteFailed

  /** What one update call decides to do after it has read a file. */
  datatype Effect = Fail(reason: Reason) | Leave | Write(file: File)

  predicate IsSupportedKind(kind: string) {
    kind == "MachineDeployment" || kind == "NamespaceQuota" || kind == "ResourceQuota"
  }

  /** The decision of UpdateResourceQuota and of UpdateResourceReplicasMachineDeployment.
      Only the first document is unmarshalled, and only that document is written back. */
  function Decide(req: Request, file: File): Effect {
    if file == [] then Fail(UnsupportedKind)
    else match file[0]
      case Undecodable => Fail(UnmarshalFailed)
      case Document(kind, _, _, spec, _) =>
        if !IsSupportedKind(kind) then Fail(UnsupportedKind)
        else if spec.None? then Fail(MissingSpec)
        else match req
          case SetQuota(hard) =>
            Write([file[0].(spec := Some(spec.value.(hard := hard)))])
          case AddReplica(maxNodes) =>
            match spec.value.replicas
            case Count(n) =>
              if n == 0 || n == maxNodes then Leave
              else Write([file[0].(spec := Some(spec.value.(replicas := Count(Min(n + 1, maxNodes)))))])
            case _ => Fail(InvalidReplicas)
  }

  /** The file after one undisturbed update; a failing update leaves it alone. */
  function Next(req: Request, file: File): File {
    match Decide(req, file)
    case Write(updated) => updated
    case _ => file
  }

  function Iterate(req: Request, file: File, times: nat): File {
    if times == 0 then file else Next(req, Iterate(req, file, times - 1))
  }

  predicate HasReplicas(file: File, n: int) {
    file != [] && file[0].Document? && IsSupportedKind(file[0].kind) &&
    file[0].spec.Some? && file[0].spec.value.replicas == Count(n)
  }

  /** The first document apart from its replica count. */
  function Frame(file: File): Document
    requires file != [] && file[0].Document? && file[0].spec.Some?
  {
    file[0].(spec := Some(file[0].spec.value.(replicas := Missing)))
  }

  /** Updating neither repairs nor breaks a file: later updates fail exactly when the first one does. */
  lemma FailureIsStable(req: Request, file: File, times: nat)
    ensures Decide(req, Iterate(req, file, times)).Fail? == Decide(req, file).Fail?
  {
    if times > 0 {
      FailureIsStable(req, file, times - 1);
    }
  }

  /** Posting a quota is idempotent: any positive number of applications equals one. */
  lemma {:induction false} QuotaIdempotent(hard: map<string, int>, file: File, times: nat)
    requires times >= 1
    ensures Iterate(SetQuota(hard), file, times) == Next(SetQuota(hard), file)
  {
    if times > 1 {
      QuotaIdempotent(hard, file, times - 1);
    } else {
      assert Iterate(SetQuota(hard), file, 0) == file;
    }
  }

  /** A posted quota replaces spec.hard of the first document and leaves its every other key alone. */
  lemma QuotaTouchesOnlyHard(hard: map<string, int>, file: File)
    requires file != [] && !Decide(SetQuota(hard), file).Fail?
    ensures var after := Next(SetQuota(hard), file);
            && after != [] && after[0].Document? && after[0].spec.Some? && after[0].spec.value.hard == hard
            && after[0].(spec := Some(after[0].spec.value.(hard := file[0].spec.value.hard))) == file[0]
  {
  }

  /** Starting from 1 <= r <= maxNodes, j updates give min(r + j, maxNodes) and change nothing else
      of the first document. */
  lemma {:induction false} ReplicaIteration(maxNodes: int, file: File, r: int, times: nat)
    requires HasReplicas(file, r) && 1 <= r <= maxNodes
    ensures HasReplicas(Iterate(AddReplica(maxNodes), file, times), Min(r + times, maxNodes))
    ensures Frame(Iterate(AddReplica(maxNodes), file, times)) == Frame(file)
  {
    if times > 0 {
      ReplicaIteration(maxNodes, file, r, times - 1);
    }
  }

  function ReplicaStep(r: int, maxNodes: int): int {
    if r == 0 || r == maxNodes then r else Min(r + 1, maxNodes)
  }

  /** After one update a count is within maxNodes, except that 0 is never touched; a count inside
      1..maxNodes never leaves that range and only stands still at maxNodes. */
  lemma ReplicaBound(maxNodes: int, file: File, r: int)
    requires HasReplicas(file, r)
    ensures var n := ReplicaStep(r, maxNodes);
            && HasReplicas(Next(AddReplica(maxNodes), file), n)
            && (n <= maxNodes <==> r != 0 || 0 <= maxNodes)
            && (1 <= r <= maxNodes ==> r <= n <= maxNodes && (n == r <==> r == maxNodes))
  {
  }

  /** An update keeps the documents after the first exactly when there are none or nothing is written. */
  lemma OtherDocumentsKept(req: Request, file: File)
    requires file != []
    ensures Next(req, file) != []
    ensures Next(req, file)[1..] == file[1..] <==> |file| == 1 || !Decide(req, file).Write?
  {
    var after := Next(req, file);
    if Decide(req, file).Write? {
      assert |after[1..]| == 0 && |file[1..]| == |file| - 1;
    }
  }

  /* ---------- many files ---------- */

  /** The matches updated one after the other, in list order. */
  function ApplyAll(req: Request, paths: seq<Path>, tree: Tree): (after: Tree)
    ensures after.Keys == tree.Keys
  {
    if paths == [] then tree
    else
      var rest := ApplyAll(req, paths[..|paths| - 1], tree);
      var last := paths[|paths| - 1];
      if last in rest then rest[last := Next(req, rest[last])] else rest
  }

  predicate UpdatableIn(req: Request, tree: Tree, p: Path) {
    p in tree && !Decide(req, tree[p]).Fail?
  }

  predicate AllUpdatableIn(req: Request, tree: Tree, paths: seq<Path>) {
    forall p | p in paths :: UpdatableIn(req, tree, p)
  }

  lemma ApplyAllLast(req: Request, front: seq<Path>, last: Path, tree: Tree)
    ensures var before := ApplyAll(req, front, tree);
            ApplyAll(req, front + [last], tree)
            == if last in before then before[last := Next(req, before[last])] else before
  {
    assert (front + [last])[..|front|] == front;
  }

  lemma LastCounts(paths: seq<Path>, p: Path)
    requires paths != []
    ensures multiset(paths)[p] == multiset(paths[..|paths| - 1])[p] + if p == paths[|paths| - 1] then 1 else 0
  {
    assert paths == paths[..|paths| - 1] + [paths[|paths| - 1]];
  }

  /** Sequentially, every mention of a path counts. */
  lemma {:induction false} ApplyAllIterates(req: Request, paths: seq<Path>, tree: Tree, p: Path)
    requires p in tree
    ensures ApplyAll(req, paths, tree)[p] == Iterate(req, tree[p], multiset(paths)[p])
  {
    if paths != [] {
      var front, last := paths[..|paths| - 1], paths[|paths| - 1];
      ApplyAllIterates(req, front, tree, p);
      LastCounts(paths, p);
      if p == last {
        assert Iterate(req, tree[p], multiset(front)[p] + 1) == Next(req, ApplyAll(req, front, tree)[p]);
      }
    }
  }

  lemma ApplyAllKeepsFailures(req: Request, paths: seq<Path>, tree: Tree, p: Path)
    ensures UpdatableIn(req, ApplyAll(req, paths, tree), p) <==> UpdatableIn(req, tree, p)
  {
    if p in tree {
      ApplyAllIterates(req, paths, tree, p);
      FailureIsStable(req, tree[p], multiset(paths)[p]);
    }
  }

  datatype Outcome = Succeeded | Erred(reason: Reason)

  /** The directory a handler cloned the branch into. */
  class WorkTree {
    var files: Tree

    constructor (tree: Tree)
      ensures files == tree
    {
      files := tree;
    }

    /** The call's effect on the directory. `readable` and `writable` are the file system's answers. */
    ghost predicate Updated(before: Tree, req: Request, path: Path, readable: bool, writable: bool, r: Outcome)
      reads this
    {
      if !readable || path !in before then r == Erred(ReadFailed) && files == before
      else match Decide(req, before[path])
        case Fail(reason) => r == Erred(reason) && files == before
        case Leave => r == Succeeded && files == before
        case Write(file) =>
          if writable then r == Succeeded && files == before[path := file]
          else r == Erred(WriteFailed) && files.Keys == before.Keys && files - {path} == before - {path}
    }

    method UpdateResourceQuota(path: Path, hard: map<string, int>, readable: bool, writable: bool, torn: File)
      returns (r: Outcome)
      modifies this
      ensures Updated(old(files), SetQuota(hard), path, readable, writable, r)
      ensures !readable || path !in old(files) ==> r == Erred(ReadFailed) && files == old(files)
      ensures readable && path in old(files) && Decide(SetQuota(hard), old(files)[path]).Fail? ==>
                r == Erred(Decide(SetQuota(hard), old(files)[path]).reason) && files == old(files)
      ensures readable && !writable && path in old(files) && Decide(SetQuota(hard), old(files)[path]).Write? ==>
                r == Erred(WriteFailed) && files == old(files)[path := torn]
      ensures readable && writable && path in old(files) && old(files)[path] != [] ==>
                var doc := old(files)[path][0];
                doc.Document? && doc.kind == "ResourceQuota" && doc.spec.Some? ==>
                  && r == Succeeded
                  && files == old(files)[path := [doc.(spec := Some(doc.spec.value.(hard := hard)))]]
    {
      if !readable || path !in files {
        return Erred(ReadFailed);
      }
      var data := files[path];
      if data == [] {
        return Erred(UnsupportedKind);
      }
      var doc := data[0];
      if doc.Undecodable? {
        return Erred(UnmarshalFailed);
      }
      if !IsSupportedKind(doc.kind) {
        return Erred(UnsupportedKind);
      }
      if doc.spec.None? {
        return Erred(MissingSpec);
      }
      var spec := doc.spec.value.(hard := hard);
      r := WriteFile(path, [doc.(spec := Some(spec))], writable, torn);
    }

    method UpdateResourceReplicasMachineDeployment(path: Path, maxNodes: int,
                                                   readable: bool, writable: bool, torn: File)
      returns (r: Outcome)
      modifies this
      ensures Updated(old(files), AddReplica(maxNodes), path, readable, writable, r)
      ensures !readable || path !in old(files) ==> r == Erred(ReadFailed) && files == old(files)
      ensures readable && path in old(files) && Decide(AddReplica(maxNodes), old(files)[path]).Fail? ==>
                r == Erred(Decide(AddReplica(maxNodes), old(files)[path]).reason) && files == old(files)
      ensures readable && !writable && path in old(files) && Decide(AddReplica(maxNodes), old(files)[path]).Write? ==>
                r == Erred(WriteFailed) && files == old(files)[path := torn]
      ensures readable && writable && path in old(files) && old(files)[path] != [] ==>
                var doc := old(files)[path][0];
                doc.Document? && doc.kind == "MachineDeployment" && doc.spec.Some? && doc.spec.value.replicas.Count? ==>
                  var n := doc.spec.value.replicas.n;
                  && r == Succeeded
                  && (1 <= n < maxNodes ==>
                        files == old(files)[path := [doc.(spec := Some(doc.spec.value.(replicas := Count(n + 1))))]])
                  && (n == 0 || n == maxNodes ==> files == old(files))
    {
      if !readable || path !in files {
        return Erred(ReadFailed);
      }
      var data := files[path];
      if data == [] {
        return Erred(UnsupportedKind);
      }
      var doc := data[0];
      if doc.Undecodable? {
        return Erred(UnmarshalFailed);
      }
      if !IsSupportedKind(doc.kind) {
        return Erred(UnsupportedKind);
      }
      if doc.spec.None? {
        return Erred(MissingSpec);
      }
      if !doc.spec.value.replicas.Count? {
        return Erred(InvalidReplicas);
      }
      var replicaCount := doc.spec.value.replicas.n;
      if replicaCount == 0 || replicaCount == maxNodes {
        return Succeeded;
      }
      var newReplicaCount := replicaCount + 1;
      if newReplicaCount > maxNodes {
        newReplicaCount := maxNodes;
      }
      var spec := doc.spec.value.(replicas := Count(newReplicaCount));
      r := WriteFile(path, [doc.(spec := Some(spec))], writable, torn);
    }

    /** os.WriteFile: a failing write may leave any content behind. */
    method WriteFile(path: Path, content: File, writable: bool, torn: File) returns (r: Outcome)
      modifies this
      ensures writable ==> r == Succeeded && files == old(files)[path := content]
      ensures !writable ==> r == Erred(WriteFailed) && files == old(files)[path := torn]
    {
      if writable {
        files := files[path := content];
        r := Succeeded;
      } else {
        files := files[path := torn];
        r := Erred(WriteFailed);
      }
    }
  }
}
