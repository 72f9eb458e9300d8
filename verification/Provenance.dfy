/** The offline release-provenance check: a closure over the resolved dependency graph
    (xtask/src/main.rs:908-1007). A missing or ill-typed metadata field is `None`. */
module Provenance {
  import opened Outcome

  type Id = string
  type ManifestPath = seq<string>

  datatype Package = Package(id: Option<Id>, name: Option<string>, manifestPath: Option<ManifestPath>)

  datatype Node = Node(id: Option<Id>, features: Option<seq<string>>, deps: Option<seq<Option<Id>>>)

  datatype Metadata = Metadata(
    packages: Option<seq<Package>>,
    workspaceMembers: Option<seq<Option<Id>>>,
    nodes: Option<seq<Node>>)

  datatype Fault =
    | NoPackageMetadata
    | NetworkClient
    | NoDependencyNode
    | NoFeatureArray
    | FeaturesEnabled
    | NoManifestPath
    | NotReviewedPatch
    | NoDependencyList
    | BadDependency

  datatype Refusal =
    | Malformed
    | NoReleaseProvenance
    | ManyReleaseProvenance
    | Faulty(id: Id, fault: Fault)

  const NETWORK_CLIENTS: set<string> := {"reqwest", "hyper", "hyper-util", "ureq", "isahc", "surf", "curl"}
  const SIGSTORE_PATCHES: set<string> := {"sigstore-rekor", "sigstore-tsa"}

  // ----- Tables

  /** Names by identifier; the last package of an identifier wins. */
  function NameTable(packages: seq<Package>): Option<map<Id, string>> {
    if packages == [] then Some(map[])
    else
      var last := packages[|packages| - 1];
      var rest := NameTable(packages[..|packages| - 1]);
      if rest.None? || last.id.None? || last.name.None? then None
      else Some(rest.value[last.id.value := last.name.value])
  }

  function NodeTable(nodes: seq<Node>): Option<map<Id, Node>> {
    if nodes == [] then Some(map[])
    else
      var last := nodes[|nodes| - 1];
      var rest := NodeTable(nodes[..|nodes| - 1]);
      if rest.None? || last.id.None? then None else Some(rest.value[last.id.value := last])
  }

  /** The first package with this identifier. */
  function FindPackage(packages: seq<Package>, id: Id): Option<Package> {
    if packages == [] then None
    else if packages[0].id == Some(id) then Some(packages[0])
    else FindPackage(packages[1..], id)
  }

  lemma {:induction false} NamedIsFound(packages: seq<Package>, id: Id)
    requires NameTable(packages).Some? && id in NameTable(packages).value
    ensures FindPackage(packages, id).Some?
    decreases |packages|
  {
    var n := |packages| - 1;
    if packages[n].id == Some(id) {
      FoundBySome(packages, n, id);
    } else {
      NamedIsFound(packages[..n], id);
      FoundInMore(packages, n, id);
    }
  }

  lemma {:induction false} FoundBySome(packages: seq<Package>, n: nat, id: Id)
    requires n < |packages| && packages[n].id == Some(id)
    ensures FindPackage(packages, id).Some?
    decreases n
  {
    if packages[0].id != Some(id) {
      FoundBySome(packages[1..], n - 1, id);
    }
  }

  lemma {:induction false} FoundInMore(packages: seq<Package>, n: nat, id: Id)
    requires n <= |packages| && FindPackage(packages[..n], id).Some?
    ensures FindPackage(packages, id).Some?
    decreases n
  {
    if packages[0].id != Some(id) {
      assert packages[..n][1..] == packages[1..][..n - 1];
      FoundInMore(packages[1..], n - 1, id);
    }
  }

  lemma {:induction false} FindPackageExactly(packages: seq<Package>, id: Id)
    ensures FindPackage(packages, id).None? <==> forall i | 0 <= i < |packages| :: packages[i].id != Some(id)
    ensures FindPackage(packages, id).Some? ==> exists i | 0 <= i < |packages| ::
      packages[i] == FindPackage(packages, id).value && FirstOf(packages, i, id)
  {
    if packages != [] {
      FindPackageExactly(packages[1..], id);
      assert forall i | 0 < i < |packages| :: packages[i] == packages[1..][i - 1];
      if packages[0].id == Some(id) {
        assert FirstOf(packages, 0, id);
      } else if FindPackage(packages, id).Some? {
        var rest := packages[1..];
        var i :| 0 <= i < |rest| && rest[i] == FindPackage(rest, id).value && FirstOf(rest, i, id);
        assert packages[i + 1] == rest[i] && FirstOf(packages, i + 1, id);
      }
    }
  }

  predicate FirstOf(packages: seq<Package>, i: nat, id: Id)
    requires i < |packages|
  {
    packages[i].id == Some(id) && forall j | 0 <= j < i :: packages[j].id != Some(id)
  }

  /** A table made of a list of keyed values: it has the last value of each key, and no other key. */
  predicate LastWins<V(==)>(list: seq<(Id, V)>, table: map<Id, V>) {
    && (forall i | 0 <= i < |list| && LastOfKey(list, i) :: list[i].0 in table && table[list[i].0] == list[i].1)
    && forall id | id in table :: HasId(list, id)
  }

  predicate LastOfKey<V>(list: seq<(Id, V)>, i: nat)
    requires i < |list|
  {
    forall j | i < j < |list| :: list[j].0 != list[i].0
  }

  predicate HasId<V>(list: seq<(Id, V)>, id: Id) {
    exists i | 0 <= i < |list| :: list[i].0 == id
  }

  lemma LastWinsMore<V>(list: seq<(Id, V)>, table: map<Id, V>, id: Id, v: V)
    requires LastWins(list, table)
    ensures LastWins(list + [(id, v)], table[id := v])
  {
    var more := list + [(id, v)];
    assert more[|list|].0 == id;
    forall i | 0 <= i < |more| && LastOfKey(more, i)
      ensures more[i].0 in table[id := v] && table[id := v][more[i].0] == more[i].1
    {
      if i < |list| {
        assert more[|list|].0 != more[i].0;
        forall j | i < j < |list|
          ensures list[j].0 != list[i].0
        {
          assert more[j] == list[j];
        }
        assert LastOfKey(list, i);
      }
    }
    forall k | k in table[id := v]
      ensures HasId(more, k)
    {
      if k != id {
        var i :| 0 <= i < |list| && list[i].0 == k;
        assert more[i].0 == k;
      }
    }
  }

  predicate AllNamed(packages: seq<Package>) {
    forall i | 0 <= i < |packages| :: packages[i].id.Some? && packages[i].name.Some?
  }

  predicate AllIdentified(nodes: seq<Node>) {
    forall i | 0 <= i < |nodes| :: nodes[i].id.Some?
  }

  function Named(packages: seq<Package>): seq<(Id, string)>
    requires AllNamed(packages)
  {
    seq(|packages|, i requires 0 <= i < |packages| => (packages[i].id.value, packages[i].name.value))
  }

  function Identified(nodes: seq<Node>): seq<(Id, Node)>
    requires AllIdentified(nodes)
  {
    seq(|nodes|, i requires 0 <= i < |nodes| => (nodes[i].id.value, nodes[i]))
  }

  lemma {:induction false} NameTableExactly(packages: seq<Package>)
    ensures NameTable(packages).Some? <==> AllNamed(packages)
    ensures AllNamed(packages) ==> LastWins(Named(packages), NameTable(packages).value)
    decreases |packages|
  {
    hide LastWins;
    if packages == [] {
      NothingWins<string>();
    } else {
      var front, last := packages[..|packages| - 1], packages[|packages| - 1];
      NameTableExactly(front);
      assert packages == front + [last];
      if AllNamed(packages) {
        LastWinsMore(Named(front), NameTable(front).value, last.id.value, last.name.value);
        assert Named(packages) == Named(front) + [(last.id.value, last.name.value)];
      }
    }
  }

  lemma {:induction false} NodeTableExactly(nodes: seq<Node>)
    ensures NodeTable(nodes).Some? <==> AllIdentified(nodes)
    ensures AllIdentified(nodes) ==> LastWins(Identified(nodes), NodeTable(nodes).value)
    decreases |nodes|
  {
    hide LastWins;
    if nodes == [] {
      NothingWins<Node>();
    } else {
      var front, last := nodes[..|nodes| - 1], nodes[|nodes| - 1];
      NodeTableExactly(front);
      assert nodes == front + [last];
      if AllIdentified(nodes) {
        LastWinsMore(Identified(front), NodeTable(front).value, last.id.value, last);
        assert Identified(nodes) == Identified(front) + [(last.id.value, last)];
      }
    }
  }

  lemma NothingWins<V>()
    ensures LastWins<V>([], map[])
  {
  }

  function ReleaseManifest(root: ManifestPath): ManifestPath {
    root + ["crates", "kitrove-release-provenance", "Cargo.toml"]
  }

  function ReviewedManifest(root: ManifestPath, name: string): ManifestPath {
    root + ["third_party", name, "Cargo.toml"]
  }

  predicate IsReleaseProvenance(p: Package, members: seq<Option<Id>>, root: ManifestPath) {
    && p.id.Some? && p.name == Some("kitrove-release-provenance") && p.manifestPath == Some(ReleaseManifest(root))
    && p.id in members
  }

  /** The identifiers of the exact workspace packages the check may start from. */
  function Starts(packages: seq<Package>, members: seq<Option<Id>>, root: ManifestPath): seq<Id> {
    if packages == [] then []
    else
      var (rest, p) := (Starts(packages[1..], members, root), packages[0]);
      if p.id.Some? && p.name.Some? && p.manifestPath.Some? && p.name.value == "kitrove-release-provenance"
         && p.manifestPath.value == root + ["crates", "kitrove-release-provenance", "Cargo.toml"]
         && p.id in members
      then [p.id.value] + rest
      else rest
  }

  predicate OnlyStart(packages: seq<Package>, members: seq<Option<Id>>, root: ManifestPath, i: nat)
    requires i < |packages|
  {
    forall j | 0 <= j < |packages| :: IsReleaseProvenance(packages[j], members, root) <==> j == i
  }

  /** There are as many starting points as exact workspace packages. */
  lemma {:induction false} StartsExactly(packages: seq<Package>, members: seq<Option<Id>>, root: ManifestPath)
    ensures Starts(packages, members, root) == []
       <==> forall i | 0 <= i < |packages| :: !IsReleaseProvenance(packages[i], members, root)
    ensures |Starts(packages, members, root)| == 1
       <==> exists i | 0 <= i < |packages| :: OnlyStart(packages, members, root, i)
    ensures forall i | 0 <= i < |packages| && OnlyStart(packages, members, root, i) ::
      packages[i].id.Some? && Starts(packages, members, root) == [packages[i].id.value]
    decreases |packages|
  {
    if packages != [] {
      var rest := packages[1..];
      StartsExactly(rest, members, root);
      assert forall i | 0 <= i < |rest| :: rest[i] == packages[i + 1];
      assert IsReleaseProvenance(packages[0], members, root)
        <==> Starts(packages, members, root) != Starts(rest, members, root);
      forall i | 0 < i < |packages| && OnlyStart(packages, members, root, i)
        ensures OnlyStart(rest, members, root, i - 1)
      {
      }
      if |Starts(packages, members, root)| == 1 {
        if IsReleaseProvenance(packages[0], members, root) {
          assert OnlyStart(packages, members, root, 0);
        } else {
          var i :| 0 <= i < |rest| && OnlyStart(rest, members, root, i);
          assert OnlyStart(packages, members, root, i + 1);
        }
      }
    }
  }

  // ----- The graph

  /** The tables the closure works with. */
  datatype Graph = Graph(root: ManifestPath, packages: seq<Package>, names: map<Id, string>, nodes: map<Id, Node>)

  /** A package the release may depend on: no network client, and a sigstore package only without features
      and from the reviewed patch. */
  predicate Clean(g: Graph, id: Id) {
    && id in g.names && g.names[id] !in NETWORK_CLIENTS && id in g.nodes
    && (g.names[id] in SIGSTORE_PATCHES ==>
          && g.nodes[id].features == Some([])
          && FindPackage(g.packages, id).Some?
          && FindPackage(g.packages, id).value.manifestPath == Some(ReviewedManifest(g.root, g.names[id])))
    && g.nodes[id].deps.Some? && forall d | d in g.nodes[id].deps.value :: d.Some?
  }

  /** What each refusal of a package says about it. */
  predicate FaultHolds(g: Graph, id: Id, fault: Fault) {
    if fault == NoPackageMetadata then id !in g.names
    else
      && id in g.names
      && match fault
         case NoPackageMetadata => false
         case NetworkClient => g.names[id] in NETWORK_CLIENTS
         case NoDependencyNode => id !in g.nodes
         case NoFeatureArray => g.names[id] in SIGSTORE_PATCHES && id in g.nodes && g.nodes[id].features.None?
         case FeaturesEnabled =>
           g.names[id] in SIGSTORE_PATCHES && id in g.nodes && g.nodes[id].features.Some?
           && g.nodes[id].features.value != []
         case NoManifestPath =>
           g.names[id] in SIGSTORE_PATCHES && FindPackage(g.packages, id).Some?
           && FindPackage(g.packages, id).value.manifestPath.None?
         case NotReviewedPatch =>
           g.names[id] in SIGSTORE_PATCHES && FindPackage(g.packages, id).Some?
           && FindPackage(g.packages, id).value.manifestPath != Some(ReviewedManifest(g.root, g.names[id]))
         case NoDependencyList => id in g.nodes && g.nodes[id].deps.None?
         case BadDependency => id in g.nodes && g.nodes[id].deps.Some? && None in g.nodes[id].deps.value
  }

  predicate Edge(g: Graph, a: Id, b: Id) {
    a in g.nodes && g.nodes[a].deps.Some? && Some(b) in g.nodes[a].deps.value
  }

  predicate Walk(g: Graph, path: seq<Id>) {
    path != [] && forall i | 0 <= i < |path| - 1 :: Edge(g, path[i], path[i + 1])
  }

  ghost predicate Reachable(g: Graph, from: Id, to: Id) {
    exists path :: Walk(g, path) && path[0] == from && path[|path| - 1] == to
  }

  lemma ReachesItself(g: Graph, id: Id)
    ensures Reachable(g, id, id)
  {
    assert Walk(g, [id]);
  }

  lemma ReachesMore(g: Graph, from: Id, a: Id, b: Id)
    requires Reachable(g, from, a) && Edge(g, a, b)
    ensures Reachable(g, from, b)
  {
    var path :| Walk(g, path) && path[0] == from && path[|path| - 1] == a;
    assert Walk(g, path + [b]) by {
      var longer := path + [b];
      forall i | 0 <= i < |longer| - 1
        ensures Edge(g, longer[i], longer[i + 1])
      {
      }
    }
  }

  ghost predicate Closed(g: Graph, visited: set<Id>, pending: seq<Id>) {
    forall a, b | a in visited && Edge(g, a, b) :: b in visited || b in pending
  }

  /** A set closed under edges contains everything reachable from inside it. */
  lemma {:induction false} ClosedHoldsWalk(g: Graph, visited: set<Id>, path: seq<Id>)
    requires Closed(g, visited, []) && Walk(g, path) && path[0] in visited
    ensures path[|path| - 1] in visited
    decreases |path|
  {
    if |path| > 1 {
      assert Edge(g, path[0], path[1]);
      forall i | 0 <= i < |path[1..]| - 1
        ensures Edge(g, path[1..][i], path[1..][i + 1])
      {
        assert Edge(g, path[i + 1], path[i + 2]);
      }
      ClosedHoldsWalk(g, visited, path[1..]);
    }
  }

  lemma ClosedHolds(g: Graph, visited: set<Id>, from: Id)
    requires Closed(g, visited, []) && from in visited
    ensures forall id | Reachable(g, from, id) :: id in visited
  {
    forall id | Reachable(g, from, id)
      ensures id in visited
    {
      var path :| Walk(g, path) && path[0] == from && path[|path| - 1] == id;
      ClosedHoldsWalk(g, visited, path);
    }
  }

  /** The worklist: a stack that may hold an identifier several times. It ends on every graph. */
  method CheckClosure(g: Graph, start: Id) returns (r: Result<set<Id>, Refusal>)
    requires forall id | id in g.names :: FindPackage(g.packages, id).Some?
    ensures r.Ok? <==> forall id | Reachable(g, start, id) :: Clean(g, id)
    ensures r.Ok? ==> forall id :: id in r.value <==> Reachable(g, start, id)
    ensures r.Err? ==> r.error.Faulty? && Reachable(g, start, r.error.id) && !Clean(g, r.error.id)
    ensures r.Err? ==> FaultHolds(g, r.error.id, r.error.fault)
  {
    hide Reachable;
    var pending, visited: set<Id> := [start], {};
    ReachesItself(g, start);
    while pending != []
      invariant start in visited || start in pending
      invariant forall id | id in visited :: Reachable(g, start, id) && Clean(g, id)
      invariant forall id | id in pending :: Reachable(g, start, id)
      invariant Closed(g, visited, pending)
      decreases g.names.Keys - visited, |pending|
    {
      var id := pending[|pending| - 1];
      ghost var before := pending;
      pending := pending[..|pending| - 1];
      assert before == pending + [id];
      if id in visited {
        continue;
      }
      var fault := Inspect(g, id);
      if fault.Some? {
        return Err(Faulty(id, fault.value));
      }
      assert id in g.names.Keys - visited;
      visited := visited + {id};
      pending := PushDependencies(g, start, id, pending);
    }
    ClosedHolds(g, visited, start);
    return Ok(visited);
  }

  /** Everything the loop asks of one package. */
  method Inspect(g: Graph, id: Id) returns (fault: Option<Fault>)
    requires forall id | id in g.names :: FindPackage(g.packages, id).Some?
    ensures fault.None? <==> Clean(g, id)
    ensures fault.Some? ==> FaultHolds(g, id, fault.value)
  {
    if id !in g.names {
      return Some(NoPackageMetadata);
    }
    var name := g.names[id];
    if name in {"reqwest", "hyper", "hyper-util", "ureq", "isahc", "surf", "curl"} {
      return Some(NetworkClient);
    }
    if id !in g.nodes {
      return Some(NoDependencyNode);
    }
    var node := g.nodes[id];
    if name in {"sigstore-rekor", "sigstore-tsa"} {
      if node.features.None? {
        return Some(NoFeatureArray);
      }
      if node.features.value != [] {
        return Some(FeaturesEnabled);
      }
      var package := FindPackage(g.packages, id);
      if package.value.manifestPath.None? {
        return Some(NoManifestPath);
      }
      if package.value.manifestPath.value != g.root + ["third_party", name, "Cargo.toml"] {
        return Some(NotReviewedPatch);
      }
    }
    if node.deps.None? {
      return Some(NoDependencyList);
    }
    if exists d | d in node.deps.value :: d.None? {
      return Some(BadDependency);
    }
    return None;
  }

  method PushDependencies(g: Graph, ghost start: Id, id: Id, pending: seq<Id>) returns (pending': seq<Id>)
    requires Clean(g, id) && Reachable(g, start, id)
    requires forall p | p in pending :: Reachable(g, start, p)
    ensures forall p | p in pending' :: Reachable(g, start, p)
    ensures forall p | p in pending :: p in pending'
    ensures forall b | Edge(g, id, b) :: b in pending'
  {
    hide Reachable;
    var deps := g.nodes[id].deps.value;
    pending' := pending;
    for i := 0 to |deps|
      invariant forall p | p in pending' :: Reachable(g, start, p)
      invariant forall p | p in pending :: p in pending'
      invariant forall j | 0 <= j < i :: deps[j].value in pending'
    {
      assert deps[i] in deps;
      assert Edge(g, id, deps[i].value);
      ReachesMore(g, start, id, deps[i].value);
      pending' := pending' + [deps[i].value];
    }
  }

  // ----- The check

  /** The tables and the one starting point, if the metadata has them. */
  function Prepare(m: Metadata, root: ManifestPath): Result<(Graph, Id), Refusal> {
    if m.packages.None? then Err(Malformed)
    else
      var names := NameTable(m.packages.value);
      if names.None? || m.workspaceMembers.None? then Err(Malformed)
      else
        var starts := Starts(m.packages.value, m.workspaceMembers.value, root);
        if starts == [] then Err(NoReleaseProvenance)
        else if |starts| > 1 then Err(ManyReleaseProvenance)
        else if m.nodes.None? || NodeTable(m.nodes.value).None? then Err(Malformed)
        else Ok((Graph(root, m.packages.value, names.value, NodeTable(m.nodes.value).value), starts[0]))
  }

  /** What the check starts from: the last name and node of each identifier, every one of them given, and the one
      exact workspace package. */
  predicate Describes(g: Graph, start: Id, m: Metadata, root: ManifestPath) {
    && m.packages.Some? && m.workspaceMembers.Some? && m.nodes.Some?
    && g.root == root && g.packages == m.packages.value
    && AllNamed(g.packages) && LastWins(Named(g.packages), g.names)
    && AllIdentified(m.nodes.value) && LastWins(Identified(m.nodes.value), g.nodes)
    && exists i | 0 <= i < |g.packages| ::
         OnlyStart(g.packages, m.workspaceMembers.value, root, i) && g.packages[i].id == Some(start)
  }

  /** The tables are what they should be, or the metadata lacks something, or it has no such package or several. */
  lemma PrepareExactly(m: Metadata, root: ManifestPath)
    ensures match Prepare(m, root)
            case Ok((g, start)) => Describes(g, start, m, root)
            case Err(Malformed) =>
              || m.packages.None? || m.workspaceMembers.None? || m.nodes.None?
              || !AllNamed(m.packages.value) || !AllIdentified(m.nodes.value)
            case Err(NoReleaseProvenance) =>
              m.packages.Some? && m.workspaceMembers.Some?
              && forall i | 0 <= i < |m.packages.value| ::
                   !IsReleaseProvenance(m.packages.value[i], m.workspaceMembers.value, root)
            case Err(ManyReleaseProvenance) =>
              m.packages.Some? && m.workspaceMembers.Some?
              && (exists i | 0 <= i < |m.packages.value| ::
                    IsReleaseProvenance(m.packages.value[i], m.workspaceMembers.value, root))
              && forall i | 0 <= i < |m.packages.value| ::
                   !OnlyStart(m.packages.value, m.workspaceMembers.value, root, i)
            case Err(Faulty(_, _)) => false
  {
    hide LastWins, IsReleaseProvenance, OnlyStart, NameTable, NodeTable, Starts, Named, Identified;
    if m.packages.Some? {
      NameTableExactly(m.packages.value);
      if m.workspaceMembers.Some? {
        StartsExactly(m.packages.value, m.workspaceMembers.value, root);
      }
    }
    if m.nodes.Some? {
      NodeTableExactly(m.nodes.value);
    }
  }

  /** The check passes exactly when every package reachable from the one release-provenance package is
      clean; a refusal of a package names one that is reachable and is not. */
  method CheckOfflineReleaseProvenanceGraph(m: Metadata, root: ManifestPath) returns (r: Result<(), Refusal>)
    ensures Prepare(m, root).Err? ==> r == Err(Prepare(m, root).error)
    ensures Prepare(m, root).Ok? ==>
              var (g, start) := Prepare(m, root).value;
              && Describes(g, start, m, root)
              && (r.Ok? <==> forall id | Reachable(g, start, id) :: Clean(g, id))
              && (r.Err? ==> r.error.Faulty? && Reachable(g, start, r.error.id) && !Clean(g, r.error.id)
                             && FaultHolds(g, r.error.id, r.error.fault))
  {
    hide Describes;
    PrepareExactly(m, root);
    var prepared := Prepare(m, root);
    if prepared.Err? {
      return Err(prepared.error);
    }
    var (g, start) := prepared.value;
    forall id | id in g.names
      ensures FindPackage(g.packages, id).Some?
    {
      NamedIsFound(g.packages, id);
    }
    var closure := CheckClosure(g, start);
    r := if closure.Ok? then Ok(()) else Err(closure.error);
  }
}
