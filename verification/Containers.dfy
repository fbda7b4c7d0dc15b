/** The ownership resolver: container rows are registered under their pod's top-level owner, with
    path compression into shared ownership objects (internal/container/container.go, collection.go). */
module Containers {
  import opened Text
  import opened OwnerGraph

  /** Letters from A to Z, and no others, are replaced by those 32 code points behind them. */
  predicate LowerOf(s: string, r: string) {
    |r| == |s| && forall i :: 0 <= i < |s| ==> r[i] as int == s[i] as int + if 65 <= s[i] as int <= 90 then 32 else 0
  }

  function ToLowerChar(c: char): char {
    if 'A' <= c <= 'Z' then (c as int + 32) as char else c
  }

  function ToLower(s: string): (r: string)
    ensures LowerOf(s, r)
  {
    if s == "" then "" else [ToLowerChar(s[0])] + ToLower(s[1..])
  }

  class Ownership {
    const directOwner: ObjectId
    var topLevelOwner: Option<ObjectId>

    /** `newOwnership`. */
    constructor (kind: string, name: string)
      ensures directOwner == ObjectId(ToLower(kind), name) && topLevelOwner == None
    {
      directOwner := ObjectId(ToLower(kind), name);
      topLevelOwner := None;
    }

    /** `getTopLevelOwner`. */
    function GetTopLevelOwner(): ObjectId
      reads this
    {
      if topLevelOwner.Some? then topLevelOwner.value else directOwner
    }
  }

  datatype ContainerType = Regular | InitNativeSidecar

  /** A row of container information; `restartAlways` is a restart policy label of `Always`. */
  datatype Row = Unlabelled | Row(ns: string, pod: string, container: string, restartAlways: bool)

  /** An owner with its containers by name. */
  datatype K8sObject = K8sObject(id: ObjectId, containers: map<string, ContainerType>)

  /** Objects by key, by namespace. */
  type Namespaces = map<string, map<string, K8sObject>>

  /** A row of ownership information about an object of the kind a pass collects. */
  datatype OwnerRow = NoOwner | OwnerRow(ns: string, owned: string, ownerKind: string, ownerName: string)

  function OwnerOf(row: OwnerRow): ObjectId
    requires row.OwnerRow?
  {
    ObjectId(ToLower(row.ownerKind), row.ownerName)
  }

  /** The direct owners after a pass over rows about objects of one kind: the last row for an object wins. */
  function WithOwners(g: Graph, kind: string, rows: seq<OwnerRow>): Graph {
    if rows == [] then g
    else
      var row, before := rows[|rows| - 1], WithOwners(g, kind, rows[..|rows| - 1]);
      if row.NoOwner? then before else before[IdKey(ObjectId(kind, row.owned), row.ns) := OwnerOf(row)]
  }

  predicate Relevant(detected: set<string>, ns: string, id: ObjectId) {
    id.kind == POD || IdKey(id, ns) in detected
  }

  /** The owners detected after such a pass: those of objects relevant when their row came. */
  function Detected(detected: set<string>, kind: string, rows: seq<OwnerRow>): set<string> {
    if rows == [] then detected
    else
      var row, before := rows[|rows| - 1], Detected(detected, kind, rows[..|rows| - 1]);
      if row.OwnerRow? && Relevant(before, row.ns, ObjectId(kind, row.owned))
      then before + {IdKey(OwnerOf(row), row.ns)} else before
  }

  /** Nothing that is detected is lost. */
  lemma {:induction false} DetectionKeeps(detected: set<string>, kind: string, rows: seq<OwnerRow>)
    ensures detected <= Detected(detected, kind, rows)
    decreases |rows|
  {
    hide Relevant, IdKey, OwnerOf;
    if rows == [] {
    } else {
      DetectionKeeps(detected, kind, rows[..|rows| - 1]);
    }
  }

  /** Detection climbs from the pods: the owner of an object that was relevant before the pass is detected. */
  lemma {:induction false} DetectionClimbs(detected: set<string>, kind: string, rows: seq<OwnerRow>, i: nat)
    requires i < |rows| && rows[i].OwnerRow?
    requires kind == "pod" || IdKey(ObjectId(kind, rows[i].owned), rows[i].ns) in detected
    ensures IdKey(OwnerOf(rows[i]), rows[i].ns) in Detected(detected, kind, rows)
    decreases |rows|
  {
    hide IdKey, OwnerOf;
    var n := |rows| - 1;
    if i == n {
      DetectionKeeps(detected, kind, rows[..n]);
    } else {
      DetectionClimbs(detected, kind, rows[..n], i);
    }
  }

  /** And every new detection is the owner of an object that is relevant after the pass. */
  lemma {:induction false} DetectedIsOwner(detected: set<string>, kind: string, rows: seq<OwnerRow>, k: string) returns (i: nat)
    requires k in Detected(detected, kind, rows) && k !in detected
    ensures i < |rows| && rows[i].OwnerRow? && k == IdKey(OwnerOf(rows[i]), rows[i].ns)
    ensures kind == "pod" || IdKey(ObjectId(kind, rows[i].owned), rows[i].ns) in Detected(detected, kind, rows)
    decreases |rows|
  {
    hide IdKey, OwnerOf;
    var n := |rows| - 1;
    if k in Detected(detected, kind, rows[..n]) {
      i := DetectedIsOwner(detected, kind, rows[..n], k);
      RelevantLater(detected, kind, rows, i);
    } else {
      i := n;
      RelevantLater(detected, kind, rows, i);
    }
  }

  lemma RelevantLater(detected: set<string>, kind: string, rows: seq<OwnerRow>, i: nat)
    requires i < |rows| && rows[i].OwnerRow?
    requires Relevant(Detected(detected, kind, rows[..|rows| - 1]), rows[i].ns, ObjectId(kind, rows[i].owned))
    ensures Relevant(Detected(detected, kind, rows), rows[i].ns, ObjectId(kind, rows[i].owned))
  {
    hide IdKey, OwnerOf;
    DetectionKeeps(Detected(detected, kind, rows[..|rows| - 1]), kind, []);
  }

  function TypeOf(row: Row): ContainerType
    requires row.Row?
  {
    if row.restartAlways then InitNativeSidecar else Regular
  }

  function PodKey(row: Row): string
    requires row.Row?
  {
    Key(POD, row.pod, row.ns)
  }

  /** A container put under an owner, which is created when it is new. */
  function Register(namespaces: Namespaces, row: Row, owner: ObjectId): Namespaces
    requires row.Row?
  {
    var objects := if row.ns in namespaces then namespaces[row.ns] else map[];
    var k := IdKey(owner, row.ns);
    var obj := if k in objects then objects[k] else K8sObject(owner, map[]);
    namespaces[row.ns := objects[k := obj.(containers := obj.containers[row.container := TypeOf(row)])]]
  }

  // ---------- what processing rows is to achieve, on values ----------

  /** Namespaces are non-empty and have no underscore, as Kubernetes demands. */
  predicate PlainRow(row: Row) {
    row.Row? ==> row.ns != "" && Plain(row.ns)
  }

  function WithPod(g: Graph, row: Row): Graph {
    if row.Unlabelled? || PodKey(row) in g then g else g[PodKey(row) := ObjectId(POD, row.pod)]
  }

  /** The owner graph after the rows: pods without an owner have become their own. */
  function GraphAfter(g: Graph, rows: seq<Row>): (g': Graph)
    ensures forall k :: k in g ==> k in g' && g'[k] == g[k]
    ensures forall i :: 0 <= i < |rows| && rows[i].Row? ==> PodKey(rows[i]) in g'
  {
    if rows == [] then g else WithPod(GraphAfter(g, rows[..|rows| - 1]), rows[|rows| - 1])
  }

  /** Every labelled row's container, in row order, put under the top-level owner of its pod. */
  ghost function RegisterAll(namespaces: Namespaces, rows: seq<Row>, g: Graph, rank: string -> nat): Namespaces
    requires Ranked(g, rank) && KnownPods(rows, g)
  {
    if rows == [] then namespaces
    else
      var row, before := rows[|rows| - 1], RegisterAll(namespaces, rows[..|rows| - 1], g, rank);
      if row.Unlabelled? then before else Register(before, row, Top(g, PodKey(row), rank))
  }

  /** The container registered under a namespace, an object key and a name. */
  function Lookup(namespaces: Namespaces, ns: string, k: string, container: string): Option<ContainerType> {
    if ns in namespaces && k in namespaces[ns] && container in namespaces[ns][k].containers
    then Some(namespaces[ns][k].containers[container])
    else None
  }

  /** The row is to be registered under this namespace, object key and container name. */
  ghost predicate Places(row: Row, g: Graph, rank: string -> nat, ns: string, k: string, container: string)
    requires Ranked(g, rank) && (row.Row? ==> PodKey(row) in g)
  {
    row.Row? && row.ns == ns && row.container == container && IdKey(Top(g, PodKey(row), rank), ns) == k
  }

  ghost predicate KnownPods(rows: seq<Row>, g: Graph) {
    forall i :: 0 <= i < |rows| && rows[i].Row? ==> PodKey(rows[i]) in g
  }

  /** The last row that is to be registered there, if any. */
  ghost function LastPlaced(rows: seq<Row>, g: Graph, rank: string -> nat, ns: string, k: string, c: string): (r: Option<nat>)
    requires Ranked(g, rank) && KnownPods(rows, g)
    ensures r.Some? ==> r.value < |rows| && rows[r.value].Row?
  {
    if rows == [] then None
    else
      var n := |rows| - 1;
      if Places(rows[n], g, rank, ns, k, c) then Some(n) else LastPlaced(rows[..n], g, rank, ns, k, c)
  }

  lemma {:induction false} LastPlacedIsLast(rows: seq<Row>, g: Graph, rank: string -> nat, ns: string, k: string, c: string)
    requires Ranked(g, rank) && KnownPods(rows, g)
    ensures var r := LastPlaced(rows, g, rank, ns, k, c);
            && (r.None? ==> forall i :: 0 <= i < |rows| ==> !Places(rows[i], g, rank, ns, k, c))
            && (r.Some? ==> Places(rows[r.value], g, rank, ns, k, c))
            && (r.Some? ==> forall i :: r.value < i < |rows| ==> !Places(rows[i], g, rank, ns, k, c))
    decreases |rows|
  {
    hide Places, Ranked;
    if rows == [] {
    } else {
      LastPlacedIsLast(rows[..|rows| - 1], g, rank, ns, k, c);
    }
  }

  /** The registered triples are exactly those some row places, each with the type of the last such row. */
  lemma {:induction false} RegisteredExactly(rows: seq<Row>, g: Graph, rank: string -> nat, ns: string, k: string, c: string)
    requires Ranked(g, rank) && KnownPods(rows, g)
    ensures Lookup(RegisterAll(map[], rows, g, rank), ns, k, c)
            == match LastPlaced(rows, g, rank, ns, k, c)
               case None => None
               case Some(i) => Some(TypeOf(rows[i]))
    decreases |rows|
  {
    hide Lookup, Register, Top, Ranked;
    if rows == [] {
      NothingRegistered(ns, k, c);
    } else {
      var n := |rows| - 1;
      RegisteredExactly(rows[..n], g, rank, ns, k, c);
      var before := RegisterAll(map[], rows[..n], g, rank);
      if rows[n].Row? {
        RegisterLookup(before, rows[n], Top(g, PodKey(rows[n]), rank), ns, k, c);
      }
    }
  }

  /** Resolutions that do not change register the same. */
  lemma {:induction false} RegisterAllStable(rows: seq<Row>, g: Graph, g': Graph, rank: string -> nat)
    requires Ranked(g, rank) && Ranked(g', rank) && KnownPods(rows, g)
    requires forall k :: k in g ==> k in g' && Top(g', k, rank) == Top(g, k, rank)
    ensures RegisterAll(map[], rows, g', rank) == RegisterAll(map[], rows, g, rank)
    decreases |rows|
  {
    hide Register, Top, Ranked;
    if rows == [] {
    } else {
      RegisterAllStable(rows[..|rows| - 1], g, g', rank);
    }
  }

  /** The graph only gains self-owned pods, so all resolutions stay. */
  lemma WithPodStable(g: Graph, row: Row, rank: string -> nat)
    requires Ranked(g, rank) && PlainRow(row)
    ensures Ranked(WithPod(g, row), rank)
    ensures forall k :: k in g ==> k in WithPod(g, row) && Top(WithPod(g, row), k, rank) == Top(g, k, rank)
  {
    if row.Row? && PodKey(row) !in g {
      KeyParts(POD, row.pod, row.ns);
      AddSelfOwnedPod(g, PodKey(row), row.pod, rank);
    }
  }

  lemma NothingRegistered(ns: string, k: string, c: string)
    ensures Lookup(map[], ns, k, c) == None
  {
  }

  lemma RegisterLookup(namespaces: Namespaces, row: Row, owner: ObjectId, ns: string, k: string, c: string)
    requires row.Row?
    ensures Lookup(Register(namespaces, row, owner), ns, k, c)
            == if row.ns == ns && IdKey(owner, ns) == k && row.container == c then Some(TypeOf(row))
               else Lookup(namespaces, ns, k, c)
  {
  }

  /** The object registered under a key has the owner of some row as its id, and that owner's key. */
  ghost predicate OwnedBy(nss: Namespaces, rows: seq<Row>, g: Graph, rank: string -> nat, ns: string, k: string, j: nat)
    requires Ranked(g, rank) && KnownPods(rows, g)
  {
    && j < |rows| && rows[j].Row? && rows[j].ns == ns && ns in nss && k in nss[ns]
    && nss[ns][k].id == Top(g, PodKey(rows[j]), rank) && IdKey(nss[ns][k].id, ns) == k
  }

  lemma {:induction false} ObjectIsOwned(rows: seq<Row>, g: Graph, rank: string -> nat, ns: string, k: string) returns (j: nat)
    requires Ranked(g, rank) && KnownPods(rows, g)
    requires var nss := RegisterAll(map[], rows, g, rank); ns in nss && k in nss[ns]
    ensures OwnedBy(RegisterAll(map[], rows, g, rank), rows, g, rank, ns, k, j)
    decreases |rows|
  {
    hide Top, Ranked, IdKey, PodKey;
    j := 0;
    if rows == [] {
    } else {
      var n := |rows| - 1;
      var before := RegisterAll(map[], rows[..n], g, rank);
      if ns in before && k in before[ns] {
        j := ObjectIsOwned(rows[..n], g, rank, ns, k);
        assert rows[..n][j] == rows[j];
      } else {
        j := n;
      }
    }
  }

  /** The kinds of the top-level owners have no underscore. */
  ghost predicate PlainOwners(rows: seq<Row>, g: Graph, rank: string -> nat)
    requires Ranked(g, rank) && KnownPods(rows, g)
  {
    forall i :: 0 <= i < |rows| && rows[i].Row? ==> Plain(Top(g, PodKey(rows[i]), rank).kind)
  }

  /** Then the object is the owner's own. */
  lemma ObjectOfOwner(rows: seq<Row>, g: Graph, rank: string -> nat, i: nat)
    requires Ranked(g, rank) && KnownPods(rows, g) && PlainOwners(rows, g, rank)
    requires i < |rows| && rows[i].Row? && PlainRow(rows[i])
    requires var k := IdKey(Top(g, PodKey(rows[i]), rank), rows[i].ns);
             var nss := RegisterAll(map[], rows, g, rank); rows[i].ns in nss && k in nss[rows[i].ns]
    ensures var owner := Top(g, PodKey(rows[i]), rank);
            RegisterAll(map[], rows, g, rank)[rows[i].ns][IdKey(owner, rows[i].ns)].id == owner
  {
    hide Top, Ranked, PodKey, Key, RegisterAll, Plain;
    var ns, owner := rows[i].ns, Top(g, PodKey(rows[i]), rank);
    var j := ObjectIsOwned(rows, g, rank, ns, IdKey(owner, ns));
    KeyInjective(owner, ns, Top(g, PodKey(rows[j]), rank), ns);
  }

  class Cluster {
    var co: map<string, Ownership>
    var namespaces: Namespaces
    /** Keys whose resolution has been asked for, with everything above them. */
    ghost var resolved: set<string>
    /** Keys of owners above pods. */
    var detectedOwners: set<string>

    constructor ()
      ensures co == map[] && namespaces == map[] && resolved == {} && detectedOwners == {}
    {
      co, namespaces, resolved, detectedOwners := map[], map[], {}, {};
    }

    /** `isRelevant`. */
    predicate IsRelevant(ns: string, id: ObjectId)
      reads this`detectedOwners
    {
      Relevant(detectedOwners, ns, id)
    }

    method PutOwner(key: string, o: Ownership)
      requires DistinctObjects() && CompressedKeys() == {}
      requires o.topLevelOwner == None && o !in co.Values
      modifies this`co
      ensures co == old(co)[key := o]
      ensures DistinctObjects() && CompressedKeys() == {}
      ensures Owners() == old(Owners())[key := o.directOwner]
    {
      hide Key;
      co := co[key := o];
    }

    /** `getOwners` on the rows about objects of one kind. */
    method GetOwners(kind: string, rows: seq<OwnerRow>)
      requires DistinctObjects() && CompressedKeys() == {}
      modifies this`co, this`detectedOwners
      ensures DistinctObjects() && CompressedKeys() == {}
      ensures Owners() == WithOwners(old(Owners()), kind, rows)
      ensures detectedOwners == Detected(old(detectedOwners), kind, rows)
      ensures forall k :: k in co ==> co[k] in old(co.Values) || fresh(co[k])
    {
      hide Key;
      ghost var g, detected := Owners(), detectedOwners;
      for n := 0 to |rows|
        invariant DistinctObjects() && CompressedKeys() == {}
        invariant Owners() == WithOwners(g, kind, rows[..n])
        invariant detectedOwners == Detected(detected, kind, rows[..n])
        invariant forall k :: k in co ==> co[k] in old(co.Values) || fresh(co[k])
      {
        assert rows[..n + 1][..n] == rows[..n];
        match rows[n]
        case NoOwner =>
        case OwnerRow(ns, owned, ownerKind, ownerName) =>
          var ownership := new Ownership(ownerKind, ownerName);
          var ownedId := ObjectId(kind, owned);
          PutOwner(IdKey(ownedId, ns), ownership);
          if IsRelevant(ns, ownedId) {
            detectedOwners := detectedOwners + {IdKey(ownership.directOwner, ns)};
          }
      }
      assert rows[..|rows|] == rows;
    }

    ghost function Owners(): Graph
      reads this`co
    {
      map k | k in co :: co[k].directOwner
    }

    ghost predicate DistinctObjects()
      reads this`co
    {
      forall j, k :: j in co && k in co && j != k ==> co[j] != co[k]
    }

    /** Whatever the compressed field says is what the plain walk says. */
    ghost predicate Agrees(rank: string -> nat)
      requires Ranked(Owners(), rank)
      reads this`co, co.Values
    {
      forall k :: k in co && co[k].topLevelOwner.Some? ==> co[k].topLevelOwner == Some(Top(Owners(), k, rank))
    }

    /** The keys whose compressed field is set. */
    ghost function CompressedKeys(): set<string>
      reads this`co, co.Values
    {
      set k | k in co && co[k].topLevelOwner.Some?
    }

    ghost predicate Valid(rank: string -> nat)
      reads this`co, this`resolved, co.Values
    {
      DistinctObjects() && Ranked(Owners(), rank) && Agrees(rank)
      && ClosedUp(Owners(), resolved, CompressedKeys())
    }

    lemma NothingResolvedYet(rank: string -> nat)
      requires DistinctObjects() && Ranked(Owners(), rank) && CompressedKeys() == {} && resolved == {}
      ensures Valid(rank)
    {
      forall k | k in co ensures co[k].topLevelOwner.None? {
        assert k !in CompressedKeys();
      }
    }

    /** For every resolved key, the compressed lookup agrees with the plain walk. */
    lemma ResolvedAgree(rank: string -> nat, k: string)
      requires Valid(rank) && k in resolved
      ensures k in co && co[k].GetTopLevelOwner() == Top(Owners(), k, rank)
    {
    }

    /** `getOwnerId`: the compressed field is trusted, nothing is walked. */
    function GetOwnerId(ns: string, id: ObjectId): ObjectId
      reads this`co, co.Values
    {
      if IdKey(id, ns) in co then co[IdKey(id, ns)].GetTopLevelOwner() else id
    }

    /** `getContainer` for the labels of a row: the container and the object it is registered in. */
    function GetContainer(ns: string, pod: string, container: string): Option<(K8sObject, ContainerType)>
      reads this`co, this`namespaces, co.Values
    {
      if ns !in namespaces then None
      else
        var k := IdKey(GetOwnerId(ns, ObjectId(POD, pod)), ns);
        if k !in namespaces[ns] || container !in namespaces[ns][k].containers then None
        else Some((namespaces[ns][k], namespaces[ns][k].containers[container]))
    }

    /** The container of a row is found in the object of its pod's top-level owner, with the type of the
        last row for that container of that object. */
    ghost predicate FindsContainer(rows: seq<Row>, i: nat, rank: string -> nat)
      requires Ranked(Owners(), rank) && KnownPods(rows, Owners()) && i < |rows| && rows[i].Row?
      reads this`co, this`namespaces, co.Values
    {
      var row := rows[i];
      var k := IdKey(Top(Owners(), PodKey(row), rank), row.ns);
      var last := LastPlaced(rows, Owners(), rank, row.ns, k, row.container);
      var found := GetContainer(row.ns, row.pod, row.container);
      && last.Some? && last.value >= i
      && row.ns in namespaces && k in namespaces[row.ns]
      && found == Some((namespaces[row.ns][k], TypeOf(rows[last.value])))
    }

    /** And the object's id is that owner, if no owner's kind has an underscore. */
    ghost predicate FindsRow(rows: seq<Row>, i: nat, rank: string -> nat)
      requires Ranked(Owners(), rank) && KnownPods(rows, Owners()) && i < |rows| && rows[i].Row?
      reads this`co, this`namespaces, co.Values
    {
      var row := rows[i];
      var found := GetContainer(row.ns, row.pod, row.container);
      && FindsContainer(rows, i, rank)
      && (PlainOwners(rows, Owners(), rank) ==> found.Some? && found.value.0.id == Top(Owners(), PodKey(row), rank))
    }

    lemma ContainerFound(rows: seq<Row>, i: nat, rank: string -> nat)
      requires Valid(rank) && KnownPods(rows, Owners())
      requires namespaces == RegisterAll(map[], rows, Owners(), rank)
      requires i < |rows| && rows[i].Row? && PlainRow(rows[i]) && PodKey(rows[i]) in resolved
      ensures FindsContainer(rows, i, rank)
    {
      hide Top, RegisterAll, LastPlaced, Ranked;
      var row, g := rows[i], Owners();
      ResolvedAgree(rank, PodKey(row));
      var k := IdKey(Top(g, PodKey(row), rank), row.ns);
      assert Places(row, g, rank, row.ns, k, row.container);
      LastPlacedIsLast(rows, g, rank, row.ns, k, row.container);
      RegisteredExactly(rows, g, rank, row.ns, k, row.container);
    }

    /** Every processed row is found again. */
    lemma EveryRowFound(rows: seq<Row>, i: nat, rank: string -> nat)
      requires Valid(rank) && KnownPods(rows, Owners())
      requires namespaces == RegisterAll(map[], rows, Owners(), rank)
      requires i < |rows| && rows[i].Row? && PlainRow(rows[i]) && PodKey(rows[i]) in resolved
      ensures FindsRow(rows, i, rank)
    {
      hide Top, RegisterAll, LastPlaced, Ranked, GetContainer, PlainRow, PodKey, IdKey, Valid;
      assert Ranked(Owners(), rank) by { ValidIsRanked(rank); }
      ContainerFound(rows, i, rank);
      if PlainOwners(rows, Owners(), rank) {
        hide PlainOwners;
        ObjectOfOwner(rows, Owners(), rank, i);
      }
    }

    lemma ValidIsRanked(rank: string -> nat)
      requires Valid(rank)
      ensures Ranked(Owners(), rank)
    {
    }

    /** The walk of `addContainerAndOwners` from a known pod: the last ownership it meets and the
        ones before it. */
    method Walk(podKey: string, ns: string, ghost rank: string -> nat)
      returns (o: Ownership, ows: seq<Ownership>, ghost keys: seq<string>)
      requires DistinctObjects() && Ranked(Owners(), rank)
      requires podKey in co && NamespaceOf(podKey) == ns && Plain(ns)
      ensures IsWalk(Owners(), keys) && keys[0] == podKey && Parent(Owners(), keys[|keys| - 1]) == None
      ensures o == co[keys[|keys| - 1]] && |ows| == |keys| - 1
      ensures forall i :: 0 <= i < |ows| ==> keys[i] in co && ows[i] == co[keys[i]]
    {
      o, ows, keys := co[podKey], [], [podKey];
      ghost var g := Owners();
      while true
        invariant IsWalk(g, keys) && keys[0] == podKey && |ows| == |keys| - 1
        invariant o == co[keys[|keys| - 1]] && NamespaceOf(keys[|keys| - 1]) == ns
        invariant forall i :: 0 <= i < |ows| ==> keys[i] in co && ows[i] == co[keys[i]]
        decreases rank(keys[|keys| - 1])
      {
        hide IsWalk, Ranked, Parent, Key, NamespaceOf;
        var parentKey := Key(o.directOwner.kind, o.directOwner.name, ns);
        WalkNext(g, keys, ns, parentKey, rank);
        if parentKey in co && co[parentKey].directOwner.kind != POD {
          ows, keys := ows + [o], keys + [parentKey];
          o := co[parentKey];
        } else {
          break;
        }
      }
    }

    /** The loop that writes the owner found into every ownership on the path to it. */
    method Compress(ows: seq<Ownership>, ghost keys: seq<string>, owner: ObjectId, ghost rank: string -> nat)
      requires DistinctObjects() && Ranked(Owners(), rank) && Agrees(rank)
      requires IsWalk(Owners(), keys) && Parent(Owners(), keys[|keys| - 1]) == None
      requires owner == Owners()[keys[|keys| - 1]]
      requires |ows| == |keys| - 1 && forall i :: 0 <= i < |ows| ==> ows[i] == co[keys[i]]
      modifies ows
      ensures Agrees(rank)
      ensures forall i :: 0 <= i < |ows| ==> keys[i] in CompressedKeys()
      ensures old(CompressedKeys()) <= CompressedKeys()
    {
      hide Parent, Top, Key, NamespaceOf;
      ghost var g := Owners();
      forall i | 0 <= i < |keys| ensures Top(g, keys[i], rank) == owner {
        SameTopOnWalk(g, keys, i, rank);
      }
      for i := 0 to |ows|
        invariant Agrees(rank)
        invariant forall j :: 0 <= j < i ==> ows[j].topLevelOwner == Some(owner)
        invariant forall k :: k in co && old(co[k].topLevelOwner.Some?) ==> co[k].topLevelOwner.Some?
      {
        assert Owners() == g && ows[i] == co[keys[i]];
        ows[i].topLevelOwner := Some(owner);
      }
    }

    /** The resolution of a known pod, with path compression. */
    method Resolve(podKey: string, ns: string, ghost rank: string -> nat) returns (owner: ObjectId)
      requires Valid(rank) && podKey in co && NamespaceOf(podKey) == ns && Plain(ns)
      modifies this`resolved, co.Values
      ensures Valid(rank) && co == old(co)
      ensures resolved == old(resolved) + Visited(Owners(), podKey, rank)
      ensures owner == Top(Owners(), podKey, rank)
    {
      hide Parent, Top, Visited, Key, NamespaceOf, ClosedUp, IsWalk;
      ghost var g := Owners();
      var o, ows, keys := Walk(podKey, ns, rank);
      Compress(ows, keys, o.directOwner, rank);
      VisitedClosedUp(g, keys, rank, CompressedKeys());
      ClosedUpUnion(g, resolved, old(CompressedKeys()), Visited(g, podKey, rank), CompressedKeys());
      resolved := resolved + Visited(g, podKey, rank);
      ghost var last := keys[|keys| - 1];
      WalkIsVisited(g, keys, 0, rank);
      assert keys[0..] == keys && last in keys;
      SameTopOnWalk(g, keys, 0, rank);
      ResolvedAgree(rank, last);
      owner := o.GetTopLevelOwner();
    }

    /** The state after `rows`, starting without namespaces and with owners `g`. */
    ghost predicate After(g: Graph, rows: seq<Row>, rank: string -> nat)
      reads this, co.Values
    {
      && Valid(rank)
      && Owners() == GraphAfter(g, rows)
      && namespaces == RegisterAll(map[], rows, Owners(), rank)
      && forall i :: 0 <= i < |rows| && rows[i].Row? ==> PodKey(rows[i]) in resolved
    }

    /** `addContainerAndOwners` on the rows of a cluster. */
    method AddContainerAndOwners(rows: seq<Row>, ghost rank: string -> nat)
      requires Valid(rank) && namespaces == map[]
      requires forall i :: 0 <= i < |rows| ==> PlainRow(rows[i])
      modifies this, co.Values
      ensures Valid(rank)
      ensures Owners() == GraphAfter(old(Owners()), rows)
      ensures namespaces == RegisterAll(map[], rows, Owners(), rank)
      ensures forall i :: 0 <= i < |rows| && rows[i].Row? ==> Visited(Owners(), PodKey(rows[i]), rank) <= resolved
    {
      ghost var g := Owners();
      for n := 0 to |rows|
        invariant After(g, rows[..n], rank)
        invariant forall k :: k in co ==> co[k] in old(co.Values) || fresh(co[k])
      {
        hide After, Valid, Owners, Key, PlainRow;
        assert rows[..n + 1] == rows[..n] + [rows[n]];
        Next(rows[n], g, rows[..n], rank);
      }
      assert rows[..|rows|] == rows;
      forall i | 0 <= i < |rows| && rows[i].Row? ensures Visited(Owners(), PodKey(rows[i]), rank) <= resolved {
        VisitedWithin(Owners(), PodKey(rows[i]), resolved, CompressedKeys(), rank);
      }
    }

    method Next(row: Row, ghost g: Graph, ghost before: seq<Row>, ghost rank: string -> nat)
      requires After(g, before, rank) && PlainRow(row)
      modifies this, co.Values
      ensures After(g, before + [row], rank)
      ensures forall k :: k in co && (k !in old(co) || co[k] != old(co[k])) ==> fresh(co[k])
    {
      hide Parent, Top, Visited, Ranked, ClosedUp, Key, Register;
      ghost var rows := before + [row];
      assert rows[..|before|] == before;
      if row.Row? {
        WithPodStable(Owners(), row, rank);
        RegisterAllStable(before, Owners(), WithPod(Owners(), row), rank);
        AddRow(row, rank);
      }
    }

    /** One row of `addContainerAndOwners`. */
    method AddRow(row: Row, ghost rank: string -> nat)
      requires Valid(rank) && row.Row? && PlainRow(row)
      modifies this, co.Values
      ensures Valid(rank)
      ensures Owners() == WithPod(old(Owners()), row)
      ensures old(resolved) <= resolved && PodKey(row) in resolved
      ensures namespaces == Register(old(namespaces), row, Top(Owners(), PodKey(row), rank))
      ensures forall k :: k in old(co) ==> k in co && co[k] == old(co[k])
      ensures forall k :: k in co && k !in old(co) ==> fresh(co[k])
    {
      hide Parent, Top, Visited, Ranked, ClosedUp, Key, GraphAfter, Register;
      var podKey := PodKey(row);
      KeyParts(POD, row.pod, row.ns);
      var owner;
      if podKey in co {
        owner := Resolve(podKey, row.ns, rank);
      } else {
        owner := AddSelfOwned(podKey, row, rank);
      }
      namespaces := Register(namespaces, row, owner);
    }

    /** A pod without an owner becomes its own. */
    method AddSelfOwned(podKey: string, row: Row, ghost rank: string -> nat) returns (owner: ObjectId)
      requires Valid(rank) && row.Row? && podKey == PodKey(row) && podKey !in co && NamespaceOf(podKey) == row.ns
      modifies this`co, this`resolved
      ensures Valid(rank)
      ensures Owners() == old(Owners())[podKey := ObjectId(POD, row.pod)]
      ensures resolved == old(resolved) + {podKey}
      ensures owner == Top(Owners(), podKey, rank)
      ensures podKey in co && fresh(co[podKey]) && co == old(co)[podKey := co[podKey]]
    {
      hide Parent, Top, Visited, Ranked, ClosedUp, Key, NamespaceOf;
      ghost var g, g', done := Owners(), Owners()[podKey := ObjectId(POD, row.pod)], CompressedKeys();
      AddSelfOwnedPod(g, podKey, row.pod, rank);
      AddedClosedUp(g, podKey, row.pod, resolved, done, rank);
      LowerPod();
      var o := new Ownership(POD, row.pod);
      Insert(podKey, o);
      resolved := resolved + {podKey};
      assert Agrees(rank) by {
        forall k | k in co && co[k].topLevelOwner.Some? ensures co[k].topLevelOwner == Some(Top(g', k, rank)) {
          assert k in CompressedKeys();
          assert k in g && co[k].topLevelOwner == Some(Top(g, k, rank));
        }
      }
      owner := o.GetTopLevelOwner();
    }

    /** A new entry that nothing has been written to. */
    method Insert(key: string, o: Ownership)
      requires DistinctObjects() && key !in co && o !in co.Values && o.topLevelOwner == None
      modifies this`co
      ensures co == old(co)[key := o] && DistinctObjects()
      ensures Owners() == old(Owners())[key := o.directOwner]
      ensures CompressedKeys() == old(CompressedKeys())
    {
      co := co[key := o];
    }
  }

  lemma LowerPod()
    ensures ToLower(POD) == POD
  {
    assert ToLower("d") == "d" && ToLower("od") == "od";
  }
}
