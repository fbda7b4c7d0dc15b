/** Who owns a pod in the end, read off the rows that were reported: a chain from the pod to an object
    about which there is no row. After a whole run every container is found there
    (internal/container/container.go, collection.go). */
module OwnerChains {
  import opened Text
  import opened OwnerGraph
  import opened Containers

  method CollectOwners(pods: seq<OwnerRow>, replicaSets: seq<OwnerRow>, jobs: seq<OwnerRow>) returns (c: Cluster)
    ensures fresh(c) && fresh(c.co.Values)
    ensures c.DistinctObjects() && c.CompressedKeys() == {} && c.resolved == {} && c.namespaces == map[]
    ensures c.Owners() == Reported(pods, replicaSets, jobs).Graph()
  {
    hide WithOwners, Detected;
    c := new Cluster();
    c.GetOwners(POD, pods);
    c.GetOwners("replicaset", replicaSets);
    c.GetOwners("job", jobs);
  }

  // ---------- chains of reported owners ----------

  /** The rows about pods, replica sets and jobs. */
  datatype Reported = Reported(pods: seq<OwnerRow>, replicaSets: seq<OwnerRow>, jobs: seq<OwnerRow>) {

    function RowsOf(kind: string): seq<OwnerRow> {
      if kind == "pod" then pods
      else if kind == "replicaset" then replicaSets
      else if kind == "job" then jobs
      else []
    }

    /** The owner graph of a run. */
    function Graph(): Graph {
      WithOwners(WithOwners(WithOwners(map[], POD, pods), "replicaset", replicaSets), "job", jobs)
    }

    predicate Plain() {
      ArePlain(pods) && ArePlain(replicaSets) && ArePlain(jobs)
    }
  }

  /** Namespaces are non-empty and have no underscore, as Kubernetes demands; kinds have none either. */
  predicate ArePlain(rows: seq<OwnerRow>) {
    forall i :: 0 <= i < |rows| && rows[i].OwnerRow? ==>
      rows[i].ns != "" && Plain(rows[i].ns) && Plain(rows[i].ownerKind)
  }

  predicate IsAbout(row: OwnerRow, ns: string, owned: string) {
    row.OwnerRow? && row.ns == ns && row.owned == owned
  }

  predicate NoneAbout(rows: seq<OwnerRow>, ns: string, owned: string) {
    forall i :: 0 <= i < |rows| ==> !IsAbout(rows[i], ns, owned)
  }

  /** The last row about the object names this owner. */
  predicate LastNames(rows: seq<OwnerRow>, ns: string, owned: string, kind: string, name: string) {
    exists j :: 0 <= j < |rows| && rows[j] == OwnerRow(ns, owned, kind, name) && NoneAbout(rows[j + 1..], ns, owned)
  }

  /** The last row about `x` names the owner `y`, up to capitals in its kind. */
  ghost predicate Owns(reported: Reported, ns: string, x: ObjectId, y: ObjectId) {
    exists kind :: LowerOf(kind, y.kind) && LastNames(reported.RowsOf(x.kind), ns, x.name, kind, y.name)
  }

  ghost predicate OwnedByPod(reported: Reported, ns: string, x: ObjectId) {
    exists name :: Owns(reported, ns, x, ObjectId("pod", name))
  }

  /** Each object owns the one before. The chain ends with an object without a row, or whose owner is a pod. */
  ghost predicate IsChain(reported: Reported, ns: string, ids: seq<ObjectId>) {
    && ids != []
    && (forall i :: 0 <= i < |ids| - 1 ==> Owns(reported, ns, ids[i], ids[i + 1]))
    && (forall i :: 2 <= i < |ids| ==> ids[i].kind != "pod")
    && var last := ids[|ids| - 1];
       (NoneAbout(reported.RowsOf(last.kind), ns, last.name) || (|ids| > 1 && OwnedByPod(reported, ns, last)))
  }

  // ---------- what the owner graph holds ----------

  lemma KeyOfRow(row: OwnerRow, kind: string, ns: string, x: ObjectId)
    requires row.OwnerRow? && row.ns != "" && Plain(row.ns) && Plain(kind) && Plain(x.kind) && Plain(ns)
    ensures Key(x.kind, x.name, ns) == IdKey(ObjectId(kind, row.owned), row.ns)
            <==> x.kind == kind && IsAbout(row, ns, x.name)
  {
    hide Key;
    if Key(x.kind, x.name, ns) == IdKey(ObjectId(kind, row.owned), row.ns) {
      KeyInjective(x, ns, ObjectId(kind, row.owned), row.ns);
    }
  }

  /** A pass changes nothing about objects of other kinds, or without rows. */
  lemma {:induction false} PassKeeps(g: Graph, kind: string, rows: seq<OwnerRow>, ns: string, x: ObjectId)
    requires ArePlain(rows) && Plain(kind) && Plain(x.kind) && Plain(ns)
    requires x.kind != kind || NoneAbout(rows, ns, x.name)
    ensures var k, g' := Key(x.kind, x.name, ns), WithOwners(g, kind, rows);
            (k in g' <==> k in g) && (k in g ==> g'[k] == g[k])
    decreases |rows|
  {
    hide Key, OwnerOf;
    if rows == [] {
    } else {
      var n := |rows| - 1;
      PassKeeps(g, kind, rows[..n], ns, x);
      if rows[n].OwnerRow? {
        KeyOfRow(rows[n], kind, ns, x);
      }
    }
  }

  /** After a pass, the last row about an object tells its owner. */
  lemma {:induction false} PassFinds(g: Graph, kind: string, rows: seq<OwnerRow>, ns: string, owned: string, j: nat)
    requires ArePlain(rows) && Plain(kind) && Plain(ns)
    requires j < |rows| && IsAbout(rows[j], ns, owned) && NoneAbout(rows[j + 1..], ns, owned)
    ensures var k, g' := Key(kind, owned, ns), WithOwners(g, kind, rows);
            k in g' && g'[k] == OwnerOf(rows[j])
    decreases |rows|
  {
    hide Key, OwnerOf;
    var n, x := |rows| - 1, ObjectId(kind, owned);
    if rows[n].OwnerRow? {
      KeyOfRow(rows[n], kind, ns, x);
    }
    if j < n {
      assert rows[j + 1..][n - (j + 1)] == rows[n];
      assert rows[..n][j + 1..] == rows[j + 1..][..n - (j + 1)];
      PassFinds(g, kind, rows[..n], ns, owned, j);
    }
  }

  lemma {:induction false} LastAbout(rows: seq<OwnerRow>, ns: string, owned: string) returns (j: nat)
    requires !NoneAbout(rows, ns, owned)
    ensures j < |rows| && IsAbout(rows[j], ns, owned) && NoneAbout(rows[j + 1..], ns, owned)
    decreases |rows|
  {
    var n := |rows| - 1;
    if IsAbout(rows[n], ns, owned) {
      j := n;
    } else {
      j := LastAbout(rows[..n], ns, owned);
      assert rows[j + 1..] == rows[..n][j + 1..] + [rows[n]];
    }
  }

  lemma NoneOfNone(ns: string, owned: string)
    ensures NoneAbout([], ns, owned)
  {
  }

  lemma NamedAbout(rows: seq<OwnerRow>, j: nat, ns: string, owned: string)
    requires j < |rows| && IsAbout(rows[j], ns, owned)
    ensures !NoneAbout(rows, ns, owned)
  {
  }

  lemma LowerIs(kind: string, k: string)
    requires LowerOf(kind, k)
    ensures k == ToLower(kind)
  {
  }

  lemma PlainKinds()
    ensures Plain("pod") && Plain("replicaset") && Plain("job")
  {
  }

  /** The graph of a run at an object, by the rows about it. */
  lemma GraphLooksUp(reported: Reported, ns: string, x: ObjectId)
    requires reported.Plain() && Plain(x.kind) && Plain(ns)
    ensures var k, g, rows := Key(x.kind, x.name, ns), reported.Graph(), reported.RowsOf(x.kind);
            && (k in g <==> !NoneAbout(rows, ns, x.name))
            && (k in g ==>
                  forall j :: 0 <= j < |rows| && IsAbout(rows[j], ns, x.name) && NoneAbout(rows[j + 1..], ns, x.name) ==>
                    g[k] == OwnerOf(rows[j]))
  {
    hide Key, OwnerOf, WithOwners, NoneAbout, ArePlain;
    PlainKinds();
    var g1 := WithOwners(map[], "pod", reported.pods);
    var g2 := WithOwners(g1, "replicaset", reported.replicaSets);
    NoneOfNone(ns, x.name);
    OnePass(map[], "pod", reported.pods, ns, x);
    OnePass(g1, "replicaset", reported.replicaSets, ns, x);
    OnePass(g2, "job", reported.jobs, ns, x);
  }

  lemma OnePass(g: Graph, kind: string, rows: seq<OwnerRow>, ns: string, x: ObjectId)
    requires ArePlain(rows) && Plain(kind) && Plain(x.kind) && Plain(ns)
    ensures var k, g' := Key(x.kind, x.name, ns), WithOwners(g, kind, rows);
            if x.kind != kind || NoneAbout(rows, ns, x.name)
            then (k in g' <==> k in g) && (k in g ==> g'[k] == g[k])
            else k in g' && forall j :: 0 <= j < |rows| && IsAbout(rows[j], ns, x.name) && NoneAbout(rows[j + 1..], ns, x.name) ==>
                   g'[k] == OwnerOf(rows[j])
  {
    hide Key, OwnerOf, WithOwners, NoneAbout, ArePlain;
    if x.kind != kind || NoneAbout(rows, ns, x.name) {
      PassKeeps(g, kind, rows, ns, x);
    } else {
      var last := LastAbout(rows, ns, x.name);
      PassFinds(g, kind, rows, ns, x.name, last);
      forall j | 0 <= j < |rows| && IsAbout(rows[j], ns, x.name) && NoneAbout(rows[j + 1..], ns, x.name)
        ensures WithOwners(g, kind, rows)[Key(x.kind, x.name, ns)] == OwnerOf(rows[j])
      {
        PassFinds(g, kind, rows, ns, x.name, j);
      }
    }
  }

  /** So it holds what owns what, exactly. */
  lemma OwnersAreHeld(reported: Reported, ns: string, x: ObjectId, y: ObjectId)
    requires reported.Plain() && Plain(x.kind) && Plain(ns)
    ensures var k, g := Key(x.kind, x.name, ns), reported.Graph();
            && (NoneAbout(reported.RowsOf(x.kind), ns, x.name) <==> k !in g)
            && (Owns(reported, ns, x, y) <==> k in g && g[k] == y)
  {
    hide Key, NoneAbout;
    GraphLooksUp(reported, ns, x);
    var k, g, rows := Key(x.kind, x.name, ns), reported.Graph(), reported.RowsOf(x.kind);
    if Owns(reported, ns, x, y) {
      var kind :| LowerOf(kind, y.kind) && LastNames(rows, ns, x.name, kind, y.name);
      LowerIs(kind, y.kind);
      var j :| 0 <= j < |rows| && rows[j] == OwnerRow(ns, x.name, kind, y.name) && NoneAbout(rows[j + 1..], ns, x.name);
      assert IsAbout(rows[j], ns, x.name);
      NamedAbout(rows, j, ns, x.name);
    }
    if k in g && g[k] == y {
      var j := LastAbout(rows, ns, x.name);
      assert LastNames(rows, ns, x.name, rows[j].ownerKind, y.name);
    }
  }

  // ---------- where chains lead ----------

  /** Processing container rows adds nothing but pods that own themselves. */
  lemma {:induction false} OnlyPodsAdded(g: Graph, rows: seq<Row>, k: string)
    requires k in GraphAfter(g, rows) && k !in g
    ensures exists j :: 0 <= j < |rows| && rows[j].Row? && k == PodKey(rows[j])
                        && GraphAfter(g, rows)[k] == ObjectId("pod", rows[j].pod)
    decreases |rows|
  {
    hide PodKey;
    var n := |rows| - 1;
    if k in GraphAfter(g, rows[..n]) {
      OnlyPodsAdded(g, rows[..n], k);
      var j :| 0 <= j < n && rows[j].Row? && k == PodKey(rows[j])
               && GraphAfter(g, rows[..n])[k] == ObjectId("pod", rows[j].pod);
      assert GraphAfter(g, rows)[k] == ObjectId("pod", rows[j].pod);
    } else {
      assert k == PodKey(rows[n]);
    }
  }

  lemma OwnerIsPlain(reported: Reported, ns: string, x: ObjectId, y: ObjectId)
    requires reported.Plain() && Owns(reported, ns, x, y)
    ensures Plain(y.kind)
  {
    hide NoneAbout;
    var rows := reported.RowsOf(x.kind);
    var kind :| LowerOf(kind, y.kind) && LastNames(rows, ns, x.name, kind, y.name);
    var j :| 0 <= j < |rows| && rows[j] == OwnerRow(ns, x.name, kind, y.name) && NoneAbout(rows[j + 1..], ns, x.name);
    assert Plain(rows[j].ownerKind);
  }

  /** The walk does not go on to the last object of a chain. */
  lemma ChainEnds(reported: Reported, ns: string, rows: seq<Row>, last: ObjectId)
    requires reported.Plain() && Plain(last.kind) && Plain(ns)
    requires NoneAbout(reported.RowsOf(last.kind), ns, last.name) || OwnedByPod(reported, ns, last)
    ensures var k, g := Key(last.kind, last.name, ns), GraphAfter(reported.Graph(), rows);
            k in g ==> g[k].kind == "pod"
  {
    hide Key, NoneAbout, PodKey, Owns;
    var k, g := Key(last.kind, last.name, ns), GraphAfter(reported.Graph(), rows);
    if OwnedByPod(reported, ns, last) {
      var name :| Owns(reported, ns, last, ObjectId("pod", name));
      OwnersAreHeld(reported, ns, last, ObjectId("pod", name));
    } else {
      OwnersAreHeld(reported, ns, last, last);
      if k in g {
        OnlyPodsAdded(reported.Graph(), rows, k);
      }
    }
  }

  /** One step of a chain is one step of the walk. */
  lemma ChainStep(reported: Reported, ns: string, rows: seq<Row>, x: ObjectId, y: ObjectId)
    requires reported.Plain() && Plain(x.kind) && Plain(ns) && Owns(reported, ns, x, y)
    ensures var k, g := Key(x.kind, x.name, ns), GraphAfter(reported.Graph(), rows);
            k in g && g[k] == y && NamespaceOf(k) == ns && Plain(y.kind)
  {
    hide Owns, Key, NamespaceOf;
    OwnersAreHeld(reported, ns, x, y);
    OwnerIsPlain(reported, ns, x, y);
    KeyParts(x.kind, x.name, ns);
  }

  /** The plain walk from an object of a chain ends where the chain does. */
  lemma {:induction false} TopOfChain(reported: Reported, ns: string, rows: seq<Row>, ids: seq<ObjectId>, i: nat,
                                      rank: string -> nat)
    requires reported.Plain() && Plain(ns) && IsChain(reported, ns, ids)
    requires i < |ids| - 1 && Plain(ids[i].kind)
    requires Ranked(GraphAfter(reported.Graph(), rows), rank)
    ensures var k, g := Key(ids[i].kind, ids[i].name, ns), GraphAfter(reported.Graph(), rows);
            k in g && Top(g, k, rank) == ids[|ids| - 1]
    decreases |ids| - i
  {
    hide Owns, Key, NamespaceOf, OwnedByPod, NoneAbout, GraphAfter, Ranked;
    var x, y, g := ids[i], ids[i + 1], GraphAfter(reported.Graph(), rows);
    ChainStep(reported, ns, rows, x, y);
    if i + 1 == |ids| - 1 {
      ChainEnds(reported, ns, rows, y);
    } else {
      ChainStep(reported, ns, rows, y, ids[i + 2]);
      TopOfChain(reported, ns, rows, ids, i + 1, rank);
    }
  }

  /** A pod without a row has become its own owner. */
  lemma TopOfUnowned(reported: Reported, rows: seq<Row>, row: Row, rank: string -> nat)
    requires reported.Plain() && row in rows && row.Row? && forall i :: 0 <= i < |rows| ==> PlainRow(rows[i])
    requires NoneAbout(reported.pods, row.ns, row.pod)
    requires Ranked(GraphAfter(reported.Graph(), rows), rank)
    ensures var g := GraphAfter(reported.Graph(), rows);
            PodKey(row) in g && Top(g, PodKey(row), rank) == ObjectId("pod", row.pod)
  {
    hide Key, NoneAbout, GraphAfter, Ranked, NamespaceOf;
    var id, g := ObjectId("pod", row.pod), GraphAfter(reported.Graph(), rows);
    var i :| 0 <= i < |rows| && rows[i] == row;
    assert PlainRow(rows[i]);
    PlainKinds();
    OwnersAreHeld(reported, row.ns, id, id);
    var k := PodKey(row);
    assert PodKey(rows[i]) in g;
    OnlyPodsAdded(reported.Graph(), rows, k);
    var j :| 0 <= j < |rows| && rows[j].Row? && k == PodKey(rows[j]) && g[k] == ObjectId("pod", rows[j].pod);
    assert PlainRow(rows[j]);
    KeyInjective(id, row.ns, ObjectId("pod", rows[j].pod), rows[j].ns);
    KeyParts("pod", row.pod, row.ns);
  }

  lemma TopOfPod(reported: Reported, rows: seq<Row>, row: Row, ids: seq<ObjectId>, rank: string -> nat)
    requires reported.Plain() && row in rows && row.Row? && forall i :: 0 <= i < |rows| ==> PlainRow(rows[i])
    requires IsChain(reported, row.ns, ids) && ids[0] == ObjectId("pod", row.pod)
    requires Ranked(GraphAfter(reported.Graph(), rows), rank)
    ensures var g := GraphAfter(reported.Graph(), rows);
            PodKey(row) in g && Top(g, PodKey(row), rank) == ids[|ids| - 1]
  {
    hide Key, NoneAbout, GraphAfter, Ranked, Owns, OwnedByPod;
    PlainKinds();
    var i :| 0 <= i < |rows| && rows[i] == row;
    assert PlainRow(rows[i]);
    if |ids| == 1 {
      TopOfUnowned(reported, rows, row, rank);
    } else {
      TopOfChain(reported, row.ns, rows, ids, 0, rank);
    }
  }

  // ---------- every pod has one chain ----------

  /** A chain from the pod ends with the object. */
  ghost predicate LeadsTo(reported: Reported, ns: string, pod: string, id: ObjectId) {
    exists ids :: IsChain(reported, ns, ids) && ids[0] == ObjectId("pod", pod) && ids[|ids| - 1] == id
  }

  lemma ChainCons(reported: Reported, ns: string, x: ObjectId, rest: seq<ObjectId>)
    requires IsChain(reported, ns, rest) && |rest| > 1 && rest[1].kind != "pod" && Owns(reported, ns, x, rest[0])
    ensures IsChain(reported, ns, [x] + rest)
  {
    hide Owns, OwnedByPod, NoneAbout;
    var ids := [x] + rest;
    forall i | 0 <= i < |ids| - 1 ensures Owns(reported, ns, ids[i], ids[i + 1]) {
      if i > 0 {
        assert ids[i] == rest[i - 1] && ids[i + 1] == rest[i];
      }
    }
    forall i | 2 <= i < |ids| ensures ids[i].kind != "pod" {
      assert ids[i] == rest[i - 1];
    }
  }

  lemma ShortChain(reported: Reported, ns: string, x: ObjectId, y: ObjectId)
    requires reported.Plain() && Plain(y.kind) && Plain(ns) && Owns(reported, ns, x, y)
    requires var p, g := Key(y.kind, y.name, ns), reported.Graph(); p in g ==> g[p].kind == "pod"
    ensures IsChain(reported, ns, [x, y])
  {
    hide Owns, NoneAbout, Key;
    var p, g := Key(y.kind, y.name, ns), reported.Graph();
    if p in g {
      OwnersAreHeld(reported, ns, y, g[p]);
      assert g[p] == ObjectId("pod", g[p].name);
    } else {
      OwnersAreHeld(reported, ns, y, y);
    }
  }

  lemma {:induction false} ChainOfOwned(reported: Reported, ns: string, x: ObjectId, rank: string -> nat) returns (ids: seq<ObjectId>)
    requires reported.Plain() && Plain(x.kind) && Plain(ns) && Key(x.kind, x.name, ns) in reported.Graph()
    requires Ranked(reported.Graph(), rank)
    ensures IsChain(reported, ns, ids) && ids[0] == x
    ensures |ids| > 1 && ids[1] == reported.Graph()[Key(x.kind, x.name, ns)]
    decreases rank(Key(x.kind, x.name, ns))
  {
    hide Owns, Key, NamespaceOf, IsChain;
    var k, g := Key(x.kind, x.name, ns), reported.Graph();
    var y := g[k];
    var p := Key(y.kind, y.name, ns);
    OwnersAreHeld(reported, ns, x, y);
    ChainStep(reported, ns, [], x, y);
    if p in g && g[p].kind != "pod" {
      assert Parent(g, k) == Some(p);
      var rest := ChainOfOwned(reported, ns, y, rank);
      ids := [x] + rest;
      ChainCons(reported, ns, x, rest);
    } else {
      ids := [x, y];
      ShortChain(reported, ns, x, y);
    }
  }

  /** Without a cycle every pod's chain leads somewhere, and not to two objects. */
  lemma LeadsToOne(reported: Reported, ns: string, pod: string, rank: string -> nat)
    requires reported.Plain() && ns != "" && Plain(ns) && Ranked(reported.Graph(), rank)
    ensures exists id :: LeadsTo(reported, ns, pod, id)
    ensures forall id, other :: LeadsTo(reported, ns, pod, id) && LeadsTo(reported, ns, pod, other) ==> id == other
  {
    hide LeadsTo, GraphAfter, PodKey, Ranked, Top;
    var _ := LedTo(reported, ns, pod, rank);
    var row := Row(ns, pod, "", false);
    var g := GraphAfter(reported.Graph(), [row]);
    OneRowRanked(reported.Graph(), row, rank);
    forall id | LeadsTo(reported, ns, pod, id) ensures PodKey(row) in g && id == Top(g, PodKey(row), rank) {
      TopIsLedTo(reported, [row], row, id, rank);
    }
  }

  lemma OneRowRanked(g: Graph, row: Row, rank: string -> nat)
    requires Ranked(g, rank) && PlainRow(row)
    ensures Ranked(GraphAfter(g, [row]), rank)
  {
    hide WithPod, Ranked;
    WithPodStable(g, row, rank);
    assert [row][..0] == [];
    assert GraphAfter(g, []) == g;
  }

  lemma LedTo(reported: Reported, ns: string, pod: string, rank: string -> nat) returns (id: ObjectId)
    requires reported.Plain() && Plain(ns) && Ranked(reported.Graph(), rank)
    ensures LeadsTo(reported, ns, pod, id)
  {
    hide Key, Owns, NoneAbout, Ranked;
    PlainKinds();
    var x := ObjectId("pod", pod);
    OwnersAreHeld(reported, ns, x, x);
    var ids := [x];
    if Key("pod", pod, ns) in reported.Graph() {
      ids := ChainOfOwned(reported, ns, x, rank);
    }
    id := ids[|ids| - 1];
  }

  lemma TopIsLedTo(reported: Reported, rows: seq<Row>, row: Row, id: ObjectId, rank: string -> nat)
    requires reported.Plain() && row in rows && row.Row? && forall i :: 0 <= i < |rows| ==> PlainRow(rows[i])
    requires Ranked(GraphAfter(reported.Graph(), rows), rank) && LeadsTo(reported, row.ns, row.pod, id)
    ensures var g := GraphAfter(reported.Graph(), rows);
            PodKey(row) in g && Top(g, PodKey(row), rank) == id
  {
    hide Owns, OwnedByPod, NoneAbout, GraphAfter, Ranked, Top, PlainRow, PodKey;
    var ids :| IsChain(reported, row.ns, ids) && ids[0] == ObjectId("pod", row.pod) && ids[|ids| - 1] == id;
    TopOfPod(reported, rows, row, ids, rank);
  }

  /** The usual chains. */
  lemma UsualOwners(reported: Reported, ns: string, pod: string, x: string, y: string)
    ensures NoneAbout(reported.pods, ns, pod) ==> LeadsTo(reported, ns, pod, ObjectId("pod", pod))
    ensures LastNames(reported.pods, ns, pod, "StatefulSet", x) ==> LeadsTo(reported, ns, pod, ObjectId("statefulset", x))
    ensures LastNames(reported.pods, ns, pod, "DaemonSet", x) ==> LeadsTo(reported, ns, pod, ObjectId("daemonset", x))
    ensures LastNames(reported.pods, ns, pod, "ReplicaSet", x) && LastNames(reported.replicaSets, ns, x, "Deployment", y) ==>
              LeadsTo(reported, ns, pod, ObjectId("deployment", y))
    ensures LastNames(reported.pods, ns, pod, "ReplicaSet", x) && NoneAbout(reported.replicaSets, ns, x) ==>
              LeadsTo(reported, ns, pod, ObjectId("replicaset", x))
    ensures LastNames(reported.pods, ns, pod, "Job", x) && LastNames(reported.jobs, ns, x, "CronJob", y) ==>
              LeadsTo(reported, ns, pod, ObjectId("cronjob", y))
    ensures LastNames(reported.pods, ns, pod, "Job", x) && NoneAbout(reported.jobs, ns, x) ==>
              LeadsTo(reported, ns, pod, ObjectId("job", x))
  {
    hide LowerOf, LeadsTo, LastNames, NoneAbout;
    LowerSets();
    LowerJobs();
    NoneOfNone(ns, x);
    Unowned(reported, ns, pod);
    OneOwner(reported, ns, pod, "StatefulSet", ObjectId("statefulset", x));
    OneOwner(reported, ns, pod, "DaemonSet", ObjectId("daemonset", x));
    OneOwner(reported, ns, pod, "ReplicaSet", ObjectId("replicaset", x));
    OneOwner(reported, ns, pod, "Job", ObjectId("job", x));
    TwoOwners(reported, ns, pod, "ReplicaSet", ObjectId("replicaset", x), "Deployment", ObjectId("deployment", y));
    TwoOwners(reported, ns, pod, "Job", ObjectId("job", x), "CronJob", ObjectId("cronjob", y));
  }

  lemma LowerSets()
    ensures LowerOf("StatefulSet", "statefulset") && LowerOf("DaemonSet", "daemonset")
    ensures LowerOf("ReplicaSet", "replicaset")
  {
  }

  lemma LowerJobs()
    ensures LowerOf("Deployment", "deployment") && LowerOf("Job", "job") && LowerOf("CronJob", "cronjob")
  {
  }

  lemma Unowned(reported: Reported, ns: string, pod: string)
    ensures NoneAbout(reported.pods, ns, pod) ==> LeadsTo(reported, ns, pod, ObjectId("pod", pod))
  {
    hide NoneAbout;
    if NoneAbout(reported.pods, ns, pod) {
      assert IsChain(reported, ns, [ObjectId("pod", pod)]);
    }
  }

  lemma OneOwner(reported: Reported, ns: string, pod: string, kind: string, x: ObjectId)
    requires LowerOf(kind, x.kind)
    ensures LastNames(reported.pods, ns, pod, kind, x.name) && NoneAbout(reported.RowsOf(x.kind), ns, x.name) ==>
              LeadsTo(reported, ns, pod, x)
  {
    hide LowerOf, LastNames, NoneAbout;
    var p := ObjectId("pod", pod);
    if LastNames(reported.pods, ns, pod, kind, x.name) && NoneAbout(reported.RowsOf(x.kind), ns, x.name) {
      assert Owns(reported, ns, p, x);
      assert IsChain(reported, ns, [p, x]);
    }
  }

  lemma TwoOwners(reported: Reported, ns: string, pod: string, kind: string, x: ObjectId, ownerKind: string, y: ObjectId)
    requires LowerOf(kind, x.kind) && LowerOf(ownerKind, y.kind) && y.kind != "pod"
    requires reported.RowsOf(y.kind) == []
    ensures LastNames(reported.pods, ns, pod, kind, x.name) && LastNames(reported.RowsOf(x.kind), ns, x.name, ownerKind, y.name) ==>
              LeadsTo(reported, ns, pod, y)
  {
    hide LowerOf, LastNames, NoneAbout;
    var p := ObjectId("pod", pod);
    if LastNames(reported.pods, ns, pod, kind, x.name) && LastNames(reported.RowsOf(x.kind), ns, x.name, ownerKind, y.name) {
      assert Owns(reported, ns, p, x);
      assert Owns(reported, ns, x, y);
      NoneOfNone(ns, y.name);
      assert IsChain(reported, ns, [p, x, y]);
    }
  }

  // ---------- a whole run ----------

  /** The row is about a container of that name, and its pod's chain leads to the object. */
  ghost predicate Belongs(reported: Reported, row: Row, ns: string, container: string, id: ObjectId) {
    row.Row? && row.ns == ns && row.container == container && LeadsTo(reported, ns, row.pod, id)
  }

  ghost predicate IsLast(reported: Reported, rows: seq<Row>, j: nat, ns: string, container: string, id: ObjectId) {
    && j < |rows| && Belongs(reported, rows[j], ns, container, id)
    && forall m :: j < m < |rows| ==> !Belongs(reported, rows[m], ns, container, id)
  }

  /** The row's container is found in the object, with the type that the last row for it says. */
  ghost predicate IsFoundIn(c: Cluster, reported: Reported, rows: seq<Row>, i: nat, id: ObjectId)
    requires i < |rows| && rows[i].Row?
    reads c, c.co.Values
  {
    var row := rows[i];
    var found := c.GetContainer(row.ns, row.pod, row.container);
    && found.Some? && found.value.0.id == id
    && forall j: nat :: IsLast(reported, rows, j, row.ns, row.container, id) ==>
         (found.value.1 == InitNativeSidecar <==> rows[j].restartAlways)
  }

  lemma LedToPlain(reported: Reported, ns: string, pod: string, id: ObjectId)
    requires reported.Plain() && LeadsTo(reported, ns, pod, id)
    ensures Plain(id.kind)
  {
    hide Owns, NoneAbout, OwnedByPod, Plain;
    PlainKinds();
    var ids :| IsChain(reported, ns, ids) && ids[0] == ObjectId("pod", pod) && ids[|ids| - 1] == id;
    if |ids| > 1 {
      OwnerIsPlain(reported, ns, ids[|ids| - 2], id);
    }
  }

  lemma TopIsPlain(reported: Reported, rows: seq<Row>, row: Row, rank: string -> nat)
    requires reported.Plain() && row in rows && row.Row? && PlainRow(row) && forall i :: 0 <= i < |rows| ==> PlainRow(rows[i])
    requires Ranked(reported.Graph(), rank) && Ranked(GraphAfter(reported.Graph(), rows), rank)
    ensures var g := GraphAfter(reported.Graph(), rows);
            PodKey(row) in g && Plain(Top(g, PodKey(row), rank).kind)
  {
    hide GraphAfter, Ranked, Top, PodKey, LeadsTo, Plain;
    assert Plain(row.ns) by { PlainNamespace(row); }
    var id := LedTo(reported, row.ns, row.pod, rank);
    LedToPlain(reported, row.ns, row.pod, id);
    TopIsLedTo(reported, rows, row, id, rank);
  }

  lemma PlainNamespace(row: Row)
    requires PlainRow(row) && row.Row?
    ensures row.ns != "" && Plain(row.ns)
  {
  }

  lemma TopsArePlain(reported: Reported, rows: seq<Row>, rank: string -> nat)
    requires reported.Plain() && forall i :: 0 <= i < |rows| ==> PlainRow(rows[i])
    requires Ranked(reported.Graph(), rank) && Ranked(GraphAfter(reported.Graph(), rows), rank)
    ensures KnownPods(rows, GraphAfter(reported.Graph(), rows))
    ensures PlainOwners(rows, GraphAfter(reported.Graph(), rows), rank)
  {
    hide GraphAfter, Ranked, Top, PodKey, PlainRow, Plain, Reported.Plain;
    var g := GraphAfter(reported.Graph(), rows);
    forall i | 0 <= i < |rows| && rows[i].Row? ensures PodKey(rows[i]) in g && Plain(Top(g, PodKey(rows[i]), rank).kind) {
      TopIsPlain(reported, rows, rows[i], rank);
    }
  }

  lemma PlacedBelongs(reported: Reported, rows: seq<Row>, row: Row, ns: string, container: string, id: ObjectId, rank: string -> nat)
    requires reported.Plain() && Plain(id.kind) && row in rows && PlainRow(row) && forall i :: 0 <= i < |rows| ==> PlainRow(rows[i])
    requires Ranked(reported.Graph(), rank) && Ranked(GraphAfter(reported.Graph(), rows), rank)
    requires row.Row? ==> PodKey(row) in GraphAfter(reported.Graph(), rows)
    ensures Places(row, GraphAfter(reported.Graph(), rows), rank, ns, IdKey(id, ns), container)
            <==> Belongs(reported, row, ns, container, id)
  {
    hide GraphAfter, Ranked, Top, PodKey, LeadsTo, Plain, Key, Reported.Plain;
    if row.Row? && row.ns == ns && row.container == container {
      assert ns != "" && Plain(ns) by { PlainNamespace(row); }
      var own := LedTo(reported, ns, row.pod, rank);
      LedToPlain(reported, ns, row.pod, own);
      TopIsLedTo(reported, rows, row, own, rank);
      if LeadsTo(reported, ns, row.pod, id) {
        TopIsLedTo(reported, rows, row, id, rank);
      } else if IdKey(own, ns) == IdKey(id, ns) {
        KeyInjective(own, ns, id, ns);
      }
    }
  }

  /** The container of the row was placed by the last row that belongs there. */
  lemma PlacedLast(reported: Reported, rows: seq<Row>, j: nat, ns: string, container: string, id: ObjectId, rank: string -> nat)
    requires reported.Plain() && Plain(id.kind) && forall i :: 0 <= i < |rows| ==> PlainRow(rows[i])
    requires Ranked(reported.Graph(), rank) && Ranked(GraphAfter(reported.Graph(), rows), rank)
    requires KnownPods(rows, GraphAfter(reported.Graph(), rows))
    requires IsLast(reported, rows, j, ns, container, id)
    ensures LastPlaced(rows, GraphAfter(reported.Graph(), rows), rank, ns, IdKey(id, ns), container) == Some(j)
  {
    hide GraphAfter, Ranked, Top, PodKey, Plain, Key, IdKey, Belongs, Places, LastPlaced, PlainRow, Reported.Plain;
    var g := GraphAfter(reported.Graph(), rows);
    LastPlacedIsLast(rows, g, rank, ns, IdKey(id, ns), container);
    var last := LastPlaced(rows, g, rank, ns, IdKey(id, ns), container);
    PlacedBelongs(reported, rows, rows[j], ns, container, id, rank);
    if last.Some? {
      PlacedBelongs(reported, rows, rows[last.value], ns, container, id, rank);
    }
  }

  lemma FoundWhereLed(c: Cluster, reported: Reported, rows: seq<Row>, i: nat, id: ObjectId, rank: string -> nat)
    requires reported.Plain() && Ranked(reported.Graph(), rank) && forall j :: 0 <= j < |rows| ==> PlainRow(rows[j])
    requires c.Owners() == GraphAfter(reported.Graph(), rows) && Ranked(c.Owners(), rank) && KnownPods(rows, c.Owners())
    requires i < |rows| && rows[i].Row? && c.FindsRow(rows, i, rank)
    requires LeadsTo(reported, rows[i].ns, rows[i].pod, id)
    ensures IsFoundIn(c, reported, rows, i, id)
  {
    hide GraphAfter, Ranked, Top, PodKey, Plain, Key, IdKey, LeadsTo, IsLast, LastPlaced, PlainRow, Reported.Plain,
      Cluster.GetContainer, KnownPods, PlainOwners, Cluster.Owners;
    var row := rows[i];
    TopsArePlain(reported, rows, rank);
    LedToPlain(reported, row.ns, row.pod, id);
    TopIsLedTo(reported, rows, row, id, rank);
    forall j: nat | IsLast(reported, rows, j, row.ns, row.container, id)
      ensures LastPlaced(rows, GraphAfter(reported.Graph(), rows), rank, row.ns, IdKey(id, row.ns), row.container) == Some(j)
    {
      PlacedLast(reported, rows, j, row.ns, row.container, id, rank);
    }
  }

  /** A whole run: owners of pods, replica sets and jobs, then the container rows. If the owners have
      no cycle, every key on the way up from a row's pod looks up its top-level owner without a walk, and
      the container of every row is found: in the object that the rows about its pod lead to. */
  method Collect(pods: seq<OwnerRow>, replicaSets: seq<OwnerRow>, jobs: seq<OwnerRow>, rows: seq<Row>,
                 ghost rank: string -> nat) returns (c: Cluster)
    requires Ranked(Reported(pods, replicaSets, jobs).Graph(), rank)
    requires forall i :: 0 <= i < |rows| ==> PlainRow(rows[i])
    ensures c.Valid(rank) && c.Owners() == GraphAfter(Reported(pods, replicaSets, jobs).Graph(), rows)
    ensures c.namespaces == RegisterAll(map[], rows, c.Owners(), rank)
    ensures forall i, k :: 0 <= i < |rows| && rows[i].Row? && k in Visited(c.Owners(), PodKey(rows[i]), rank) ==>
              k in c.co && c.co[k].GetTopLevelOwner() == Top(c.Owners(), k, rank)
    ensures KnownPods(rows, c.Owners()) && forall i :: 0 <= i < |rows| && rows[i].Row? ==> c.FindsRow(rows, i, rank)
    ensures var reported := Reported(pods, replicaSets, jobs);
            reported.Plain() ==> forall i, id :: 0 <= i < |rows| && rows[i].Row? && LeadsTo(reported, rows[i].ns, rows[i].pod, id) ==>
              IsFoundIn(c, reported, rows, i, id)
  {
    hide WithOwners, GraphAfter, Top, Visited, Parent;
    c := CollectOwners(pods, replicaSets, jobs);
    c.NothingResolvedYet(rank);
    c.AddContainerAndOwners(rows, rank);
    forall i, k | 0 <= i < |rows| && rows[i].Row? && k in Visited(c.Owners(), PodKey(rows[i]), rank)
      ensures k in c.co && c.co[k].GetTopLevelOwner() == Top(c.Owners(), k, rank)
    {
      c.ResolvedAgree(rank, k);
    }
    forall i | 0 <= i < |rows| && rows[i].Row? ensures c.FindsRow(rows, i, rank) {
      assert PodKey(rows[i]) in Visited(c.Owners(), PodKey(rows[i]), rank);
      c.EveryRowFound(rows, i, rank);
    }
    ghost var reported := Reported(pods, replicaSets, jobs);
    if reported.Plain() {
      forall i, id | 0 <= i < |rows| && rows[i].Row? && LeadsTo(reported, rows[i].ns, rows[i].pod, id)
        ensures IsFoundIn(c, reported, rows, i, id)
      {
        FoundWhereLed(c, reported, rows, i, id, rank);
      }
    }
  }
}
