/**
 Synchronising one object with the cluster (SyncObjectWithCluster in
 pkg/provision/sync/sync.go, with the diff and update functions of pkg/provision/sync/diff.go
 and pkg/provision/sync/update.go).

 The server holds at most one object of the spec's kind and name. The client reads it through
 a cache that holds exactly the objects carrying the watched label, and writes with optimistic
 concurrency. The server stores the compared fields verbatim; it fills in a Service's type,
 protocols and cluster IP.
 */
module ClusterSync {
  import opened Options
  import opened Sorting

  datatype OwnerRef = OwnerRef(kind: string, name: string, uid: string, controller: Option<bool>)

  datatype Port = Port(name: string, number: int, target: int, protocol: string)

  datatype Content =
    | ConfigMap(data: map<string, string>)
    | ServiceAccount
    | Service(serviceSelector: map<string, string>, ports: seq<Port>, serviceType: string, clusterIP: string)
    | Deployment(selector: map<string, string>, template: string)

  datatype Object = Object(
    labels: map<string, string>, annotations: map<string, string>, owners: seq<OwnerRef>,
    content: Content, version: nat)

  /** The server: the object, if it exists, and the last resource version handed out. */
  datatype Server = Server(obj: Option<Object>, clock: nat)

  const WORKSPACE_ID_LABEL := "controller.devfile.io/devworkspace_id"
  const WATCH_CONFIGMAP_LABEL := "controller.devfile.io/watch-configmap"

  /** Whether the operator's cache holds the object. */
  predicate Visible(o: Object) {
    if o.content.ConfigMap? then Read(o.labels, WATCH_CONFIGMAP_LABEL) == "true" else WORKSPACE_ID_LABEL in o.labels
  }

  predicate SameKind(a: Content, b: Content) {
    match a
    case ConfigMap(_) => b.ConfigMap?
    case ServiceAccount => b.ServiceAccount?
    case Service(_, _, _, _) => b.Service?
    case Deployment(_, _) => b.Deployment?
  }

  predicate ForSpec(spec: Object, s: Server) {
    s.obj.Some? ==> SameKind(spec.content, s.obj.value.content)
  }

  /** Reading a missing key of a Go map gives the empty string. */
  function Read(m: map<string, string>, k: string): string {
    if k in m then m[k] else ""
  }

  // ----- diff.go -----

  /** The identity that containsOwnerRef compares: an unset controller flag counts as false. */
  datatype OwnerKey = OwnerKey(kind: string, name: string, uid: string, controls: bool)

  function KeyOf(r: OwnerRef): OwnerKey {
    OwnerKey(r.kind, r.name, r.uid, r.controller == Some(true))
  }

  function OwnerKeys(owners: seq<OwnerRef>): set<OwnerKey> {
    set r | r in owners :: KeyOf(r)
  }

  method ContainsOwnerRef(toCheck: OwnerRef, refs: seq<OwnerRef>) returns (found: bool)
    ensures found <==> KeyOf(toCheck) in OwnerKeys(refs)
  {
    for i := 0 to |refs|
      invariant forall j :: 0 <= j < i ==> KeyOf(refs[j]) != KeyOf(toCheck)
    {
      var ref := refs[i];
      if toCheck.kind == ref.kind && toCheck.name == ref.name && toCheck.uid == ref.uid {
        var equal := match toCheck.controller
          case None => ref.controller == None || !ref.controller.value
          case Some(a) => if ref.controller == None then !a else a == ref.controller.value;
        if equal {
          assert ref in refs;
          return true;
        }
      }
    }
    return false;
  }

  predicate MapCovers(cluster: map<string, string>, spec: map<string, string>) {
    forall k :: k in spec ==> Read(cluster, k) == spec[k]
  }

  /** metadataDiffFunc requires no update: everything in the spec's metadata is on the cluster. */
  predicate MetadataCovers(cluster: Object, spec: Object) {
    && MapCovers(cluster.annotations, spec.annotations)
    && MapCovers(cluster.labels, spec.labels)
    && OwnerKeys(spec.owners) <= OwnerKeys(cluster.owners)
  }

  method MapDiffers(cluster: map<string, string>, spec: map<string, string>) returns (differs: bool)
    ensures differs <==> !MapCovers(cluster, spec)
  {
    var todo := spec.Keys;
    while todo != {}
      invariant todo <= spec.Keys && forall k :: k in spec.Keys - todo ==> Read(cluster, k) == spec[k]
      decreases todo
    {
      var k :| k in todo;
      if Read(cluster, k) != spec[k] { return true; }
      todo := todo - {k};
    }
    return false;
  }

  method MetadataDiff(spec: Object, cluster: Object) returns (update: bool)
    ensures update <==> !MetadataCovers(cluster, spec)
  {
    update := MapDiffers(cluster.annotations, spec.annotations);
    if update { return; }
    update := MapDiffers(cluster.labels, spec.labels);
    if update { return; }
    for i := 0 to |spec.owners|
      invariant forall j :: 0 <= j < i ==> KeyOf(spec.owners[j]) in OwnerKeys(cluster.owners)
    {
      var found := ContainsOwnerRef(spec.owners[i], cluster.owners);
      if !found {
        assert KeyOf(spec.owners[i]) in OwnerKeys(spec.owners);
        return true;
      }
    }
    return false;
  }

  predicate PortAfter(a: Port, b: Port) {
    StringLess(b.name, a.name)
  }

  function WithoutProtocol(ports: seq<Port>): seq<Port> {
    seq(|ports|, i requires 0 <= i < |ports| => ports[i].(protocol := ""))
  }

  /** The ports as serviceDiffFunc compares them: sorted by name, protocols ignored. */
  function ComparedPorts(ports: seq<Port>): seq<Port> {
    StableSort(PortAfter, WithoutProtocol(ports))
  }

  predicate ContentMatches(cluster: Content, spec: Content)
    requires SameKind(spec, cluster)
  {
    match spec
    case ConfigMap(data) => data == cluster.data
    case ServiceAccount => true
    case Service(selector, ports, serviceType, _) =>
      && selector == cluster.serviceSelector
      && ComparedPorts(ports) == ComparedPorts(cluster.ports)
      && (serviceType == "" || serviceType == cluster.serviceType)
    case Deployment(selector, template) => selector == cluster.selector && template == cluster.template
  }

  /** deploymentDiffFunc: a selector cannot be changed in place. */
  predicate MustRecreate(cluster: Content, spec: Content)
    requires SameKind(spec, cluster)
  {
    spec.Deployment? && spec.selector != cluster.selector
  }

  predicate Matches(cluster: Object, spec: Object)
    requires SameKind(spec.content, cluster.content)
  {
    MetadataCovers(cluster, spec) && ContentMatches(cluster.content, spec.content)
  }

  // ----- update.go -----

  /** serviceAccountUpdateFunc: the spec's owners, then the cluster's that the spec does not have. */
  function MergedOwners(spec: seq<OwnerRef>, cluster: seq<OwnerRef>): seq<OwnerRef> {
    if cluster == [] then spec
    else
      var merged, last := MergedOwners(spec, cluster[..|cluster| - 1]), cluster[|cluster| - 1];
      if KeyOf(last) in OwnerKeys(merged) then merged else merged + [last]
  }

  lemma {:induction false} MergedOwnersKeys(spec: seq<OwnerRef>, cluster: seq<OwnerRef>)
    ensures OwnerKeys(MergedOwners(spec, cluster)) == OwnerKeys(spec) + OwnerKeys(cluster)
  {
    if cluster != [] {
      var init, last := cluster[..|cluster| - 1], cluster[|cluster| - 1];
      MergedOwnersKeys(spec, init);
      assert cluster == init + [last];
      var merged := MergedOwners(spec, init);
      assert OwnerKeys(merged + [last]) == OwnerKeys(merged) + {KeyOf(last)};
      assert OwnerKeys(cluster) == OwnerKeys(init) + {KeyOf(last)};
    }
  }

  method MergeOwners(spec: seq<OwnerRef>, cluster: seq<OwnerRef>) returns (owners: seq<OwnerRef>)
    ensures owners == MergedOwners(spec, cluster)
  {
    owners := spec;
    for i := 0 to |cluster|
      invariant owners == MergedOwners(spec, cluster[..i])
    {
      assert cluster[..i + 1][..i] == cluster[..i];
      var found := ContainsOwnerRef(cluster[i], owners);
      if !found { owners := owners + [cluster[i]]; }
    }
    assert cluster[..|cluster|] == cluster;
  }

  /** The object to send, with the resource version to check, or None: delete instead. */
  datatype Request = Request(obj: Object, version: Option<nat>)

  function UpdateRequest(spec: Object, cluster: Option<Object>): Option<Request>
    requires cluster.Some? ==> SameKind(spec.content, cluster.value.content)
  {
    match cluster
    case None => if spec.content.Service? then None else Some(Request(spec, None))
    case Some(c) =>
      var sent :=
        match spec.content
        case Service(_, _, _, _) => spec.(content := spec.content.(clusterIP := c.content.clusterIP))
        case ServiceAccount => spec.(owners := MergedOwners(spec.owners, c.owners))
        case _ => spec;
      Some(Request(sent, Some(c.version)))
  }

  // ----- the API server -----

  function Admitted(c: Content): Content {
    match c
    case Service(selector, ports, serviceType, clusterIP) =>
      Service(selector,
              seq(|ports|, i requires 0 <= i < |ports| =>
                if ports[i].protocol == "" then ports[i].(protocol := "TCP") else ports[i]),
              if serviceType == "" then "ClusterIP" else serviceType,
              if clusterIP == "" then "allocated" else clusterIP)
    case _ => c
  }

  function Store(s: Server, o: Object): Server {
    Server(Some(o.(content := Admitted(o.content), version := s.clock + 1)), s.clock + 1)
  }

  datatype Answer = Success | AlreadyExists | Missing | Conflict | Invalid

  function Create(s: Server, o: Object): (Server, Answer) {
    if s.obj.Some? then (s, AlreadyExists) else (Store(s, o), Success)
  }

  function Update(s: Server, r: Request): (Server, Answer)
    requires ForSpec(r.obj, s)
  {
    if s.obj.None? then (s, Missing)
    else if r.version.Some? && r.version.value != s.obj.value.version then (s, Conflict)
    else if MustRecreate(s.obj.value.content, r.obj.content) then (s, Invalid)
    else (Store(s, r.obj), Success)
  }

  function Delete(s: Server): Server {
    s.(obj := None)
  }

  // ----- sync.go -----

  datatype Reason = Created | Updated | Deleted | NeedRetry

  datatype Outcome = InSync(obj: Object) | NotInSync(reason: Reason) | Unrecoverable

  function UpdateGeneric(spec: Object, cluster: Option<Object>, s: Server): (Server, Outcome)
    requires ForSpec(spec, s) && (cluster.Some? ==> SameKind(spec.content, cluster.value.content))
  {
    match UpdateRequest(spec, cluster)
    case None => (Delete(s), NotInSync(Deleted))
    case Some(r) =>
      var (s', answer) := Update(s, r);
      (s', if answer == Success then NotInSync(Updated)
           else if answer == Invalid then Unrecoverable
           else NotInSync(NeedRetry))
  }

  function CreateGeneric(spec: Object, s: Server): (Server, Outcome)
    requires ForSpec(spec, s)
  {
    var (s', answer) := Create(s, spec);
    if answer == Success then (s', NotInSync(Created)) else UpdateGeneric(spec, None, s')
  }

  /** One call, reading the object the cache holds. */
  function Sync(spec: Object, s: Server): (Server, Outcome)
    requires ForSpec(spec, s)
  {
    if s.obj.None? || !Visible(s.obj.value) then CreateGeneric(spec, s)
    else
      var cluster := s.obj.value;
      if MustRecreate(cluster.content, spec.content) then (Delete(s), NotInSync(Deleted))
      else if !Matches(cluster, spec) then UpdateGeneric(spec, Some(cluster), s)
      else (s, InSync(cluster))
  }

  /** The cluster as the code changes it, one call at a time. */
  class Cluster {
    var server: Server

    constructor (server: Server)
      ensures this.server == server
    {
      this.server := server;
    }

    method SyncObjectWithCluster(spec: Object) returns (outcome: Outcome)
      requires ForSpec(spec, server)
      modifies this
      ensures (server, outcome) == Sync(spec, old(server))
    {
      if server.obj.None? || !Visible(server.obj.value) {
        outcome := CreateObjectGeneric(spec);
        return;
      }
      var cluster := server.obj.value;
      var shouldDelete, shouldUpdate := MustRecreate(cluster.content, spec.content), false;
      var metadata := MetadataDiff(spec, cluster);
      shouldUpdate := metadata || !ContentMatches(cluster.content, spec.content);
      if shouldDelete {
        server := Delete(server);
        return NotInSync(Deleted);
      }
      if shouldUpdate {
        outcome := UpdateObjectGeneric(spec, Some(cluster));
        return;
      }
      return InSync(cluster);
    }

    method CreateObjectGeneric(spec: Object) returns (outcome: Outcome)
      requires ForSpec(spec, server)
      modifies this
      ensures (server, outcome) == CreateGeneric(spec, old(server))
    {
      var answer := Create(server, spec);
      server := answer.0;
      if answer.1 == Success { return NotInSync(Created); }
      outcome := UpdateObjectGeneric(spec, None);
    }

    method UpdateObjectGeneric(spec: Object, cluster: Option<Object>) returns (outcome: Outcome)
      requires ForSpec(spec, server) && (cluster.Some? ==> SameKind(spec.content, cluster.value.content))
      modifies this
      ensures (server, outcome) == UpdateGeneric(spec, cluster, old(server))
    {
      var updated := spec;
      var version: Option<nat> := None;
      if cluster.None? {
        if spec.content.Service? {
          server := Delete(server);
          return NotInSync(Deleted);
        }
      } else {
        version := Some(cluster.value.version);
        if spec.content.Service? {
          updated := spec.(content := spec.content.(clusterIP := cluster.value.content.clusterIP));
        } else if spec.content.ServiceAccount? {
          var owners := MergeOwners(spec.owners, cluster.value.owners);
          updated := spec.(owners := owners);
        }
      }
      var answer := Update(server, Request(updated, version));
      server := answer.0;
      if answer.1 == Success { return NotInSync(Updated); }
      if answer.1 == Invalid { return Unrecoverable; }
      return NotInSync(NeedRetry);
    }
  }

  // ----- convergence -----

  lemma SyncKeepsKind(spec: Object, s: Server)
    requires ForSpec(spec, s)
    ensures ForSpec(spec, Sync(spec, s).0)
  {
  }

  /** The server after `n` calls. */
  function After(spec: Object, s: Server, n: nat): (r: Server)
    requires ForSpec(spec, s)
    ensures ForSpec(spec, r)
  {
    if n == 0 then s
    else
      var before := After(spec, s, n - 1);
      SyncKeepsKind(spec, before);
      Sync(spec, before).0
  }

  /** What `InSync` promises: everything the spec asks for is on the cluster, which was not touched. */
  lemma InSyncMeansMatches(spec: Object, s: Server)
    requires ForSpec(spec, s) && Sync(spec, s).1.InSync?
    ensures Sync(spec, s).0 == s && s.obj == Some(Sync(spec, s).1.obj)
    ensures Matches(s.obj.value, spec)
  {
  }

  lemma StoredMatches(spec: Object, sent: Object, s: Server)
    requires sent.labels == spec.labels && sent.annotations == spec.annotations
    requires OwnerKeys(spec.owners) <= OwnerKeys(sent.owners)
    requires SameKind(spec.content, sent.content)
    requires sent.content == spec.content
             || (spec.content.Service? && sent.content == spec.content.(clusterIP := sent.content.clusterIP))
    ensures ForSpec(spec, Store(s, sent))
    ensures Matches(Store(s, sent).obj.value, spec)
    ensures Visible(spec) <==> Visible(Store(s, sent).obj.value)
  {
    if spec.content.Service? {
      assert WithoutProtocol(Admitted(sent.content).ports) == WithoutProtocol(spec.content.ports);
    }
  }

  predicate Settled(spec: Object, s: Server)
    requires ForSpec(spec, s)
  {
    s.obj.Some? && Visible(s.obj.value) && Matches(s.obj.value, spec)
  }

  lemma SettledStays(spec: Object, s: Server)
    requires ForSpec(spec, s) && Settled(spec, s)
    ensures Sync(spec, s) == (s, InSync(s.obj.value))
  {
  }

  lemma CreateSettles(spec: Object, s: Server)
    requires ForSpec(spec, s) && Visible(spec) && s.obj.None?
    ensures Settled(spec, Sync(spec, s).0)
  {
    StoredMatches(spec, spec, s);
  }

  /** Uncached Deployments with another selector can be neither updated nor seen. */
  predicate Unreachable(spec: Object, s: Server)
    requires ForSpec(spec, s)
  {
    s.obj.Some? && !Visible(s.obj.value) && MustRecreate(s.obj.value.content, spec.content)
  }

  lemma OneCallSettlesOrDeletes(spec: Object, s: Server)
    requires ForSpec(spec, s) && Visible(spec) && !Unreachable(spec, s)
    ensures var s' := Sync(spec, s).0; s'.obj.None? || (ForSpec(spec, s') && Settled(spec, s'))
  {
    if s.obj.None? {
      CreateSettles(spec, s);
    } else if !Visible(s.obj.value) {
      StoredMatches(spec, spec, s);
    } else {
      var cluster := s.obj.value;
      if !MustRecreate(cluster.content, spec.content) && !Matches(cluster, spec) {
        MergedOwnersKeys(spec.owners, cluster.owners);
        StoredMatches(spec, UpdateRequest(spec, Some(cluster)).value.obj, s);
      }
    }
  }

  lemma SettledWithinTwoCalls(spec: Object, s: Server)
    requires ForSpec(spec, s) && Visible(spec) && !Unreachable(spec, s)
    ensures Settled(spec, After(spec, s, 2))
  {
    var s1 := After(spec, s, 1);
    assert s1 == Sync(spec, After(spec, s, 0)).0;
    OneCallSettlesOrDeletes(spec, s);
    if s1.obj.None? { CreateSettles(spec, s1); } else { SettledStays(spec, s1); }
  }

  lemma {:induction false} SettledForever(spec: Object, s: Server, n: nat)
    requires ForSpec(spec, s) && Visible(spec) && !Unreachable(spec, s) && n >= 2
    ensures After(spec, s, n) == After(spec, s, 2) && Sync(spec, After(spec, s, n)).1.InSync?
  {
    SettledWithinTwoCalls(spec, s);
    if n > 2 { SettledForever(spec, s, n - 1); }
    SettledStays(spec, After(spec, s, 2));
  }

  lemma {:induction false} UnreachableForever(spec: Object, s: Server, n: nat)
    requires ForSpec(spec, s) && Unreachable(spec, s)
    ensures After(spec, s, n) == s && Sync(spec, s) == (s, Unrecoverable)
  {
    if n > 0 { UnreachableForever(spec, s, n - 1); }
  }

  /**
   With a spec that carries the watched label, and no other writer, the third call and every
   later one report in sync and change nothing - from every state but one kind, in which
   every call fails.
   */
  lemma ThirdCallInSyncExactlyWhenReachable(spec: Object, s: Server)
    requires ForSpec(spec, s) && Visible(spec)
    ensures Sync(spec, After(spec, s, 2)).1.InSync? <==> !Unreachable(spec, s)
    ensures !Unreachable(spec, s) ==>
              forall n :: n >= 2 ==> After(spec, s, n) == After(spec, s, 2) && Sync(spec, After(spec, s, n)).1.InSync?
  {
    if Unreachable(spec, s) {
      UnreachableForever(spec, s, 2);
    } else {
      forall n | n >= 2 ensures After(spec, s, n) == After(spec, s, 2) && Sync(spec, After(spec, s, n)).1.InSync? {
        SettledForever(spec, s, n);
      }
    }
  }

  /** A call with an unlabelled spec never settles the object. */
  lemma UnlabelledStep(spec: Object, s: Server)
    requires ForSpec(spec, s) && !Visible(spec) && !Settled(spec, s)
    ensures ForSpec(spec, Sync(spec, s).0) && !Settled(spec, Sync(spec, s).0) && !Sync(spec, s).1.InSync?
  {
    SyncKeepsKind(spec, s);
    if s.obj.None? || !Visible(s.obj.value) {
      StoredMatches(spec, spec, s);
    } else if !MustRecreate(s.obj.value.content, spec.content) {
      MergedOwnersKeys(spec.owners, s.obj.value.owners);
      StoredMatches(spec, UpdateRequest(spec, Some(s.obj.value)).value.obj, s);
    }
  }

  lemma {:induction false} UnlabelledNeverSyncs(spec: Object, s: Server, n: nat)
    requires ForSpec(spec, s) && !Visible(spec) && !Settled(spec, s)
    ensures !Settled(spec, After(spec, s, n)) && !Sync(spec, After(spec, s, n)).1.InSync?
  {
    if n > 0 { UnlabelledNeverSyncs(spec, s, n - 1); }
    UnlabelledStep(spec, After(spec, s, n));
    if n > 0 { UnlabelledStep(spec, After(spec, s, n - 1)); }
  }

  /** Some call from state `s` on reports in sync. */
  ghost predicate Converges(spec: Object, s: Server)
    requires ForSpec(spec, s)
  {
    exists n: nat :: Sync(spec, After(spec, s, n)).1.InSync?
  }

  /**
   For every spec and every state: some call reports in sync if and only if the spec carries the
   watched label and the state is reachable, or the spec does not and the object is settled already.
   */
  lemma ConvergesExactly(spec: Object, s: Server)
    requires ForSpec(spec, s)
    ensures Converges(spec, s) <==> if Visible(spec) then !Unreachable(spec, s) else Settled(spec, s)
  {
    if Visible(spec) {
      if Unreachable(spec, s) {
        forall n: nat ensures !Sync(spec, After(spec, s, n)).1.InSync? { UnreachableForever(spec, s, n); }
      } else {
        ThirdCallInSyncExactlyWhenReachable(spec, s);
        assert Sync(spec, After(spec, s, 2)).1.InSync?;
      }
    } else if Settled(spec, s) {
      SettledStays(spec, s);
      assert Sync(spec, After(spec, s, 0)).1.InSync?;
    } else {
      forall n: nat ensures !Sync(spec, After(spec, s, n)).1.InSync? { UnlabelledNeverSyncs(spec, s, n); }
    }
  }

  /** A server that no number of calls gets in sync: a Deployment without the label and with another selector. */
  lemma HiddenDeploymentNeverSyncs(n: nat)
    ensures var spec := Object(map[WORKSPACE_ID_LABEL := "id"], map[], [], Deployment(map["app" := "new"], ""), 0);
            var s := Server(Some(Object(map[], map[], [], Deployment(map["app" := "old"], ""), 1)), 1);
            ForSpec(spec, s) && Visible(spec) && After(spec, s, n) == s && Sync(spec, s).1 == Unrecoverable
  {
    var spec := Object(map[WORKSPACE_ID_LABEL := "id"], map[], [], Deployment(map["app" := "new"], ""), 0);
    var s := Server(Some(Object(map[], map[], [], Deployment(map["app" := "old"], ""), 1)), 1);
    assert map["app" := "new"]["app"] != map["app" := "old"]["app"];
    UnreachableForever(spec, s, n);
  }

  // ----- what in sync means, field by field -----

  /** The same owner: an unset controller flag counts as false. */
  ghost predicate SameOwner(a: OwnerRef, b: OwnerRef) {
    && a.kind == b.kind && a.name == b.name && a.uid == b.uid
    && (a.controller == Some(true) <==> b.controller == Some(true))
  }

  lemma SameKeySameOwner(a: OwnerRef, b: OwnerRef)
    ensures KeyOf(a) == KeyOf(b) <==> SameOwner(a, b)
  {
  }

  lemma OwnersIncluded(a: seq<OwnerRef>, b: seq<OwnerRef>)
    ensures OwnerKeys(a) <= OwnerKeys(b) <==> forall r :: r in a ==> exists q :: q in b && SameOwner(r, q)
  {
    if OwnerKeys(a) <= OwnerKeys(b) {
      forall r | r in a ensures exists q :: q in b && SameOwner(r, q) {
        assert KeyOf(r) in OwnerKeys(b);
        var q :| q in b && KeyOf(q) == KeyOf(r);
      }
    } else {
      var k :| k in OwnerKeys(a) && k !in OwnerKeys(b);
      var r :| r in a && KeyOf(r) == k;
      forall q | q in b ensures !SameOwner(r, q) { SameKeySameOwner(r, q); }
    }
  }

  /** Number and target of the ports of one name, in order. */
  function PortsNamed(ports: seq<Port>, name: string): seq<(int, int)> {
    if ports == [] then []
    else
      var last := ports[|ports| - 1];
      PortsNamed(ports[..|ports| - 1], name) + if last.name == name then [(last.number, last.target)] else []
  }

  /** The same ports under each name, whatever their protocols. */
  ghost predicate SamePorts(a: seq<Port>, b: seq<Port>) {
    forall n :: PortsNamed(a, n) == PortsNamed(b, n)
  }

  /** The object has all that the specification asks for. */
  ghost predicate Fulfils(o: Object, spec: Object) {
    && (forall k :: k in spec.annotations ==>
        (if k in o.annotations then o.annotations[k] else "") == spec.annotations[k])
    && (forall k :: k in spec.labels ==> (if k in o.labels then o.labels[k] else "") == spec.labels[k])
    && (forall r :: r in spec.owners ==> exists q :: q in o.owners && SameOwner(r, q))
    && match spec.content
       case ConfigMap(data) => o.content == ConfigMap(data)
       case ServiceAccount => o.content == ServiceAccount
       case Deployment(selector, template) => o.content == Deployment(selector, template)
       case Service(selector, ports, serviceType, _) =>
         && o.content.Service? && o.content.serviceSelector == selector
         && SamePorts(o.content.ports, ports)
         && (serviceType == "" || o.content.serviceType == serviceType)
  }

  lemma PortAfterIsStrictWeakOrder()
    ensures StrictWeakOrder(PortAfter)
    ensures forall a, b :: Equivalent(PortAfter, a, b) <==> a.name == b.name
  {
    forall a, b ensures PortAfter(a, b) ==> !PortAfter(b, a)
                ensures Equivalent(PortAfter, a, b) <==> a.name == b.name {
      StringLessAsymmetric(a.name, b.name);
      StringLessAsymmetric(b.name, a.name);
      StringLessTotal(a.name, b.name);
    }
    forall a, b, c ensures !PortAfter(a, b) && !PortAfter(b, c) ==> !PortAfter(a, c) {
      StringLessNegTransitive(c.name, b.name, a.name);
    }
  }

  function AsPort(name: string, p: (int, int)): Port {
    Port(name, p.0, p.1, "")
  }

  function AsPorts(name: string, ps: seq<(int, int)>): seq<Port> {
    seq(|ps|, i requires 0 <= i < |ps| => AsPort(name, ps[i]))
  }

  lemma {:induction false} ClassIsNamed(ports: seq<Port>, x: Port)
    requires forall a, b :: Equivalent(PortAfter, a, b) <==> a.name == b.name
    ensures Class(PortAfter, WithoutProtocol(ports), x) == AsPorts(x.name, PortsNamed(ports, x.name))
  {
    if ports != [] {
      ClassIsNamed(ports[..|ports| - 1], x);
      assert WithoutProtocol(ports)[..|ports| - 1] == WithoutProtocol(ports[..|ports| - 1]);
    }
  }

  lemma SamePortsNamed(name: string, a: seq<(int, int)>, b: seq<(int, int)>)
    ensures AsPorts(name, a) == AsPorts(name, b) <==> a == b
  {
    if AsPorts(name, a) == AsPorts(name, b) {
      assert |a| == |AsPorts(name, a)| == |b|;
      forall i | 0 <= i < |a| ensures a[i] == b[i] { assert AsPorts(name, a)[i] == AsPorts(name, b)[i]; }
    }
  }

  lemma PortClass(ports: seq<Port>, x: Port)
    ensures Class(PortAfter, WithoutProtocol(ports), x) == AsPorts(x.name, PortsNamed(ports, x.name))
    ensures Class(PortAfter, ComparedPorts(ports), x) == AsPorts(x.name, PortsNamed(ports, x.name))
  {
    PortAfterIsStrictWeakOrder();
    ClassIsNamed(ports, x);
    StableSortCorrect(PortAfter, WithoutProtocol(ports));
  }

  lemma SameNamedSameSort(a: seq<Port>, b: seq<Port>)
    requires SamePorts(a, b)
    ensures ComparedPorts(a) == ComparedPorts(b)
  {
    forall x ensures Class(PortAfter, WithoutProtocol(a), x) == Class(PortAfter, WithoutProtocol(b), x) {
      PortClass(a, x);
      PortClass(b, x);
    }
    PortAfterIsStrictWeakOrder();
    SameClassesSameSort(PortAfter, WithoutProtocol(a), WithoutProtocol(b));
  }

  lemma SameSortSameNamed(a: seq<Port>, b: seq<Port>, n: string)
    requires ComparedPorts(a) == ComparedPorts(b)
    ensures PortsNamed(a, n) == PortsNamed(b, n)
  {
    var x := Port(n, 0, 0, "");
    PortClass(a, x);
    PortClass(b, x);
    SamePortsNamed(n, PortsNamed(a, n), PortsNamed(b, n));
  }

  /** Comparing sorted ports is comparing the ports of each name. */
  lemma ComparedPortsMean(a: seq<Port>, b: seq<Port>)
    ensures ComparedPorts(a) == ComparedPorts(b) <==> SamePorts(a, b)
  {
    if ComparedPorts(a) == ComparedPorts(b) {
      forall n ensures PortsNamed(a, n) == PortsNamed(b, n) { SameSortSameNamed(a, b, n); }
    }
    if SamePorts(a, b) { SameNamedSameSort(a, b); }
  }

  lemma ContentMeans(o: Content, spec: Content)
    requires spec.Service? && o.Service?
    ensures ContentMatches(o, spec) <==>
            && o.serviceSelector == spec.serviceSelector
                && (spec.serviceType == "" || o.serviceType == spec.serviceType)
            && SamePorts(o.ports, spec.ports)
  {
    ComparedPortsMean(o.ports, spec.ports);
  }

  lemma MatchesMeansFulfils(o: Object, spec: Object)
    requires SameKind(spec.content, o.content)
    ensures Matches(o, spec) <==> Fulfils(o, spec)
  {
    OwnersIncluded(spec.owners, o.owners);
    if spec.content.Service? { ContentMeans(o.content, spec.content); }
  }

  /** In sync, for every specification and state: a labelled object on the server has every field asked for. */
  lemma InSyncExactlyWhenFulfilled(spec: Object, s: Server)
    requires ForSpec(spec, s)
    ensures Sync(spec, s).1.InSync? <==>
            && s.obj.Some? && Fulfils(s.obj.value, spec)
            && if spec.content.ConfigMap? then
                 WATCH_CONFIGMAP_LABEL in s.obj.value.labels && s.obj.value.labels[WATCH_CONFIGMAP_LABEL] == "true"
               else WORKSPACE_ID_LABEL in s.obj.value.labels
    ensures Sync(spec, s).1.InSync? ==> Sync(spec, s) == (s, InSync(s.obj.value))
  {
    if s.obj.Some? {
      MatchesMeansFulfils(s.obj.value, spec);
      NeedsNoMore(spec, s);
    }
  }

  lemma NeedsNoMore(spec: Object, s: Server)
    requires ForSpec(spec, s) && s.obj.Some?
    ensures Sync(spec, s).1.InSync? <==> Visible(s.obj.value) && Matches(s.obj.value, spec)
    ensures Sync(spec, s).1.InSync? ==> Sync(spec, s) == (s, InSync(s.obj.value))
  {
  }

  /** With the label and unless unreachable, after two calls and ever after the object has every field asked for. */
  lemma ThirdCallFindsFulfilled(spec: Object, s: Server, n: nat)
    requires ForSpec(spec, s) && Visible(spec) && !Unreachable(spec, s) && n >= 2
    ensures After(spec, s, n).obj.Some? && Fulfils(After(spec, s, n).obj.value, spec)
  {
    SettledForever(spec, s, n);
    InSyncExactlyWhenFulfilled(spec, After(spec, s, n));
  }

  /** What an update writes: the specification, but a Service keeps its IP and a ServiceAccount its owners. */
  lemma UpdateWrites(spec: Object, s: Server)
    requires ForSpec(spec, s) && s.obj.Some? && Visible(s.obj.value) && !Fulfils(s.obj.value, spec)
    requires spec.content.Deployment? ==> s.obj.value.content.selector == spec.content.selector
    ensures var s' := Sync(spec, s).0; var was := s.obj.value;
      && s'.obj.Some? && s'.clock == s'.obj.value.version == s.clock + 1
      && s'.obj.value.labels == spec.labels && s'.obj.value.annotations == spec.annotations
      && (!spec.content.ServiceAccount? ==> s'.obj.value.owners == spec.owners)
      && (spec.content.ServiceAccount? ==>
            forall r :: r in spec.owners + was.owners ==> exists q :: q in s'.obj.value.owners && SameOwner(r, q))
      && (spec.content.Service? && was.content.clusterIP != "" ==>
            s'.obj.value.content.Service? && s'.obj.value.content.clusterIP == was.content.clusterIP)
    ensures Sync(spec, s).1 == NotInSync(Updated)
  {
    var was := s.obj.value;
    MatchesMeansFulfils(was, spec);
    MergedOwnersKeys(spec.owners, was.owners);
    var merged := MergedOwners(spec.owners, was.owners);
    OwnersIncluded(spec.owners, merged);
    OwnersIncluded(was.owners, merged);
  }

  /** A Deployment whose selector has to change is deleted. */
  lemma SelectorChangeDeletes(spec: Object, s: Server)
    requires ForSpec(spec, s) && s.obj.Some? && Visible(s.obj.value)
    requires spec.content.Deployment? && s.obj.value.content.selector != spec.content.selector
    ensures Sync(spec, s) == (Server(None, s.clock), NotInSync(Deleted))
  {
  }
}
