/** The two rewrites spelled out on documents as they stand in a repository. */
module ManifestCases {
  import opened Manifests
  import opened Options

  /** A MachineDeployment with r replicas ends with r + 1, kept at maxNodes from above, and 0 stays 0; its other
      keys stay, and so do name and namespace. */
  lemma MachineDeploymentScales(maxNodes: int, name: string, namespace: string, r: int, hard: map<string, int>,
                                x: int, y: int)
    ensures var after := if r == 0 then 0 else if r < maxNodes then r + 1 else maxNodes;
            Next(AddReplica(maxNodes),
                 [Document("MachineDeployment", name, namespace, Some(Spec(Count(r), hard, x)), y)])
            == [Document("MachineDeployment", name, namespace, Some(Spec(Count(after), hard, x)), y)]
  {
  }

  /** A ResourceQuota gets the posted map, and nothing else of its document changes. */
  lemma ResourceQuotaIsSet(posted: map<string, int>, name: string, namespace: string, replicas: Replicas,
                           hard: map<string, int>, x: int, y: int)
    ensures Next(SetQuota(posted), [Document("ResourceQuota", name, namespace, Some(Spec(replicas, hard, x)), y)])
         == [Document("ResourceQuota", name, namespace, Some(Spec(replicas, posted, x)), y)]
  {
  }

  /** Either update is refused as unsupported exactly when the first document is of none of three kinds; a file
      without documents has no kind. */
  lemma ThreeKindsSupported(req: Request, kind: string, name: string, namespace: string, spec: Option<Spec>, y: int,
                            more: File)
    ensures Decide(req, [Document(kind, name, namespace, spec, y)] + more) == Fail(UnsupportedKind)
            <==> kind != "MachineDeployment" && kind != "ResourceQuota" && kind != "NamespaceQuota"
    ensures Decide(req, []) == Fail(UnsupportedKind)
  {
    var file := [Document(kind, name, namespace, spec, y)] + more;
    assert file[0] == Document(kind, name, namespace, spec, y);
  }

  /** The other refusals: text that does not parse, no spec, and for scaling a replica count that is absent or no
      number. Nothing else is refused. */
  lemma Refusals(req: Request, kind: string, name: string, namespace: string, spec: Option<Spec>, y: int, more: File)
    requires kind == "MachineDeployment" || kind == "ResourceQuota" || kind == "NamespaceQuota"
    ensures Decide(req, [Undecodable] + more) == Fail(UnmarshalFailed)
    ensures var effect := Decide(req, [Document(kind, name, namespace, spec, y)] + more);
            && (effect == Fail(MissingSpec) <==> spec == None)
            && (effect == Fail(InvalidReplicas) <==>
                  req.AddReplica? && spec.Some? && (spec.value.replicas == Missing || spec.value.replicas == NotAnInt))
            && (effect.Fail? ==> effect == Fail(MissingSpec) || effect == Fail(InvalidReplicas))
  {
    var file := [Document(kind, name, namespace, spec, y)] + more;
    assert file[0] == Document(kind, name, namespace, spec, y) && ([Undecodable] + more)[0] == Undecodable;
  }
}
