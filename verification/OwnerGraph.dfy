/** Who owns what in a cluster: keys, direct owners and the plain walk to the top-level owner
    (internal/container/container.go). */
module OwnerGraph {
  import opened Text

  datatype ObjectId = ObjectId(kind: string, name: string)

  const POD := "pod"

  /** `key` of a kind, a name and a namespace. */
  function Key(kind: string, name: string, ns: string): string {
    kind + ("__" + (name + ("__" + ns)))
  }

  /** `objectId.Key`: an empty namespace is left out. */
  function IdKey(id: ObjectId, ns: string): string {
    if ns == "" then id.kind + "__" + id.name else Key(id.kind, id.name, ns)
  }

  predicate Plain(s: string) {
    '_' !in s
  }

  function KindOf(key: string): string {
    Before(key, '_')
  }

  function NamespaceOf(key: string): string {
    key[LastIndexAny(key, "_") + 1..]
  }

  /** Kinds and namespaces without underscores can be read back from a key. */
  lemma KeyParts(kind: string, name: string, ns: string)
    ensures Plain(ns) ==> NamespaceOf(Key(kind, name, ns)) == ns
    ensures Plain(kind) ==> KindOf(Key(kind, name, ns)) == kind
  {
    var key := Key(kind, name, ns);
    var n := |key| - |ns|;
    assert key[|kind|] == '_' && key[n - 1] == '_' && key[n..] == ns && key[..|kind|] == kind;
    if Plain(ns) {
      forall i | n <= i < |key| ensures key[i] !in "_" {
        assert key[i] == ns[i - n];
      }
      assert LastIndexAny(key, "_") == n - 1;
    }
    if Plain(kind) {
      forall i | 0 <= i < |kind| ensures key[i] != '_' {
        assert key[i] == kind[i];
      }
      assert IndexFrom(key, '_', 0) == |kind|;
    }
  }

  /** So keys of different objects differ. */
  lemma KeyInjective(id1: ObjectId, ns1: string, id2: ObjectId, ns2: string)
    requires Plain(id1.kind) && Plain(id2.kind) && Plain(ns1) && Plain(ns2)
    requires Key(id1.kind, id1.name, ns1) == Key(id2.kind, id2.name, ns2)
    ensures id1 == id2 && ns1 == ns2
  {
    KeyParts(id1.kind, id1.name, ns1);
    KeyParts(id2.kind, id2.name, ns2);
    var key, n := Key(id1.kind, id1.name, ns1), |id1.kind| + 2;
    assert key[n..n + |id1.name|] == id1.name;
    assert key[n..n + |id2.name|] == id2.name;
  }

  /** Direct owners by key. */
  type Graph = map<string, ObjectId>

  /** The key the walk goes to next: the direct owner's, unless that is unknown or owned by a pod. */
  function Parent(g: Graph, k: string): Option<string>
    requires k in g
  {
    var p := Key(g[k].kind, g[k].name, NamespaceOf(k));
    if p in g && g[p].kind != POD then Some(p) else None
  }

  /** The walk has no cycles: every step lowers the rank. */
  ghost predicate Ranked(g: Graph, rank: string -> nat) {
    forall k :: k in g && Parent(g, k).Some? ==> rank(Parent(g, k).value) < rank(k)
  }

  /** The top-level owner, by the plain walk. */
  ghost function Top(g: Graph, k: string, rank: string -> nat): ObjectId
    requires k in g && Ranked(g, rank)
    decreases rank(k)
  {
    match Parent(g, k)
    case None => g[k]
    case Some(p) => Top(g, p, rank)
  }

  /** The number of steps of the walk. */
  ghost function Steps(g: Graph, k: string, rank: string -> nat): nat
    requires k in g && Ranked(g, rank)
    decreases rank(k)
  {
    match Parent(g, k)
    case None => 0
    case Some(p) => 1 + Steps(g, p, rank)
  }

  /** The keys the walk visits. */
  ghost function Visited(g: Graph, k: string, rank: string -> nat): (keys: set<string>)
    requires k in g && Ranked(g, rank)
    ensures keys <= g.Keys && k in keys
    ensures forall j :: j in keys ==> rank(j) <= rank(k)
    ensures |keys| == Steps(g, k, rank) + 1
    decreases rank(k)
  {
    match Parent(g, k)
    case None => {k}
    case Some(p) => {k} + Visited(g, p, rank)
  }

  /** The walk ends within the number of ownership entries. */
  lemma WalkIsShort(g: Graph, k: string, rank: string -> nat)
    requires k in g && Ranked(g, rank)
    ensures Steps(g, k, rank) < |g|
  {
    var keys := Visited(g, k, rank);
    SubsetSize(keys, g.Keys);
  }

  /** A self-owned pod entry changes no existing resolution and adds no cycle. */
  lemma AddSelfOwnedPod(g: Graph, podKey: string, pod: string, rank: string -> nat)
    requires Ranked(g, rank) && podKey !in g
    requires podKey == Key(POD, pod, NamespaceOf(podKey))
    ensures var g' := g[podKey := ObjectId(POD, pod)];
            && Ranked(g', rank)
            && (forall k :: k in g ==> Parent(g', k) == Parent(g, k) && Top(g', k, rank) == Top(g, k, rank))
            && Parent(g', podKey) == None && Top(g', podKey, rank) == ObjectId(POD, pod)
  {
    var g' := g[podKey := ObjectId(POD, pod)];
    forall k | k in g ensures Parent(g', k) == Parent(g, k) {
    }
    assert Ranked(g', rank);
    forall k | k in g ensures Top(g', k, rank) == Top(g, k, rank) {
      SameTop(g, g', k, rank);
    }
  }

  lemma {:induction false} SameTop(g: Graph, g': Graph, k: string, rank: string -> nat)
    requires Ranked(g, rank) && Ranked(g', rank) && k in g && k in g' && g[k] == g'[k]
    requires forall j :: j in g ==> j in g' && g'[j] == g[j] && Parent(g', j) == Parent(g, j)
    ensures Top(g', k, rank) == Top(g, k, rank)
    decreases rank(k)
  {
    if Parent(g, k).Some? {
      SameTop(g, g', Parent(g, k).value, rank);
    }
  }

  /** Keys that the walk visits one after the other. */
  predicate IsWalk(g: Graph, keys: seq<string>) {
    && keys != []
    && (forall i :: 0 <= i < |keys| ==> keys[i] in g)
    && (forall i :: 0 <= i < |keys| - 1 ==> Parent(g, keys[i]) == Some(keys[i + 1]))
  }

  /** One step more of a walk, or its end. */
  lemma WalkNext(g: Graph, keys: seq<string>, ns: string, parentKey: string, rank: string -> nat)
    requires IsWalk(g, keys) && Ranked(g, rank) && Plain(ns)
    requires var last := keys[|keys| - 1]; NamespaceOf(last) == ns && parentKey == Key(g[last].kind, g[last].name, ns)
    ensures var last := keys[|keys| - 1];
            if parentKey in g && g[parentKey].kind != POD
            then IsWalk(g, keys + [parentKey]) && rank(parentKey) < rank(last) && NamespaceOf(parentKey) == ns
            else Parent(g, last) == None
  {
    var last := keys[|keys| - 1];
    KeyParts(g[last].kind, g[last].name, ns);
  }

  lemma {:induction false} SameTopOnWalk(g: Graph, keys: seq<string>, i: nat, rank: string -> nat)
    requires IsWalk(g, keys) && Ranked(g, rank) && i < |keys|
    ensures Top(g, keys[i], rank) == Top(g, keys[|keys| - 1], rank)
    ensures Parent(g, keys[|keys| - 1]) == None ==> Top(g, keys[i], rank) == g[keys[|keys| - 1]]
    decreases |keys| - i
  {
    if i < |keys| - 1 {
      SameTopOnWalk(g, keys, i + 1, rank);
    }
  }

  /** A walk that has come to its end has been at every key the walk visits. */
  lemma {:induction false} WalkIsVisited(g: Graph, keys: seq<string>, i: nat, rank: string -> nat)
    requires IsWalk(g, keys) && Ranked(g, rank) && i < |keys| && Parent(g, keys[|keys| - 1]) == None
    ensures forall k :: k in Visited(g, keys[i], rank) <==> k in keys[i..]
    decreases |keys| - i
  {
    hide Parent, Ranked;
    assert keys[i..] == [keys[i]] + keys[i + 1..];
    if i == |keys| - 1 {
    } else {
      assert Parent(g, keys[i]) == Some(keys[i + 1]);
      VisitedNext(g, keys[i], rank);
      hide Visited, IsWalk;
      WalkIsVisited(g, keys, i + 1, rank);
    }
  }

  lemma VisitedNext(g: Graph, k: string, rank: string -> nat)
    requires k in g && Ranked(g, rank) && Parent(g, k).Some?
    ensures Parent(g, k).value in g && Visited(g, k, rank) == {k} + Visited(g, Parent(g, k).value, rank)
  {
  }

  /** The keys a walk visits are closed under taking its next step. */
  lemma {:induction false} VisitedClosed(g: Graph, k: string, rank: string -> nat)
    requires k in g && Ranked(g, rank)
    ensures forall j :: j in Visited(g, k, rank) && Parent(g, j).Some? ==> Parent(g, j).value in Visited(g, k, rank)
    decreases rank(k)
  {
    if Parent(g, k).Some? {
      VisitedClosed(g, Parent(g, k).value, rank);
    }
  }

  /** Every key of `keys` with a next step is among `done`, and its next step is among `keys`. */
  predicate ClosedUp(g: Graph, keys: set<string>, done: set<string>) {
    forall k :: k in keys ==> k in g && (Parent(g, k).Some? ==> k in done && Parent(g, k).value in keys)
  }

  lemma VisitedClosedUp(g: Graph, walk: seq<string>, rank: string -> nat, done: set<string>)
    requires IsWalk(g, walk) && Ranked(g, rank) && Parent(g, walk[|walk| - 1]) == None
    requires forall i :: 0 <= i < |walk| - 1 ==> walk[i] in done
    ensures walk[0] in Visited(g, walk[0], rank) && ClosedUp(g, Visited(g, walk[0], rank), done)
  {
    WalkIsVisited(g, walk, 0, rank);
    VisitedClosed(g, walk[0], rank);
    forall k | k in Visited(g, walk[0], rank) && Parent(g, k).Some? ensures k in done {
      var i :| 0 <= i < |walk| && walk[i] == k;
    }
  }

  lemma ClosedUpUnion(g: Graph, keys: set<string>, done: set<string>, keys': set<string>, done': set<string>)
    requires ClosedUp(g, keys, done) && ClosedUp(g, keys', done') && done <= done'
    ensures ClosedUp(g, keys + keys', done')
  {
  }

  lemma AddedClosedUp(g: Graph, podKey: string, pod: string, keys: set<string>, done: set<string>, rank: string -> nat)
    requires Ranked(g, rank) && podKey !in g && podKey == Key(POD, pod, NamespaceOf(podKey))
    requires ClosedUp(g, keys, done)
    ensures var g' := g[podKey := ObjectId(POD, pod)];
            && Ranked(g', rank) && ClosedUp(g', keys + {podKey}, done)
            && Visited(g', podKey, rank) == {podKey}
  {
    AddSelfOwnedPod(g, podKey, pod, rank);
  }

  lemma {:induction false} VisitedWithin(g: Graph, k: string, keys: set<string>, done: set<string>, rank: string -> nat)
    requires Ranked(g, rank) && ClosedUp(g, keys, done) && k in keys
    ensures k in g && Visited(g, k, rank) <= keys
    decreases rank(k)
  {
    if Parent(g, k).Some? {
      VisitedWithin(g, Parent(g, k).value, keys, done, rank);
    }
  }

  // ---------- when there is a rank ----------

  /** No walk returns to a key it has visited. */
  ghost predicate Acyclic(g: Graph) {
    forall keys :: IsWalk(g, keys) ==> Distinct(keys)
  }

  /** The number of steps from a key, at most `fuel`. */
  function StepsWithin(g: Graph, k: string, fuel: nat): (n: nat)
    ensures n <= fuel
    decreases fuel
  {
    if fuel == 0 || k !in g || Parent(g, k).None? then 0 else 1 + StepsWithin(g, Parent(g, k).value, fuel - 1)
  }

  lemma {:induction false} StepsAreAWalk(g: Graph, k: string, fuel: nat) returns (keys: seq<string>)
    requires k in g
    ensures IsWalk(g, keys) && keys[0] == k && |keys| == StepsWithin(g, k, fuel) + 1
    decreases fuel
  {
    if fuel == 0 || Parent(g, k).None? {
      keys := [k];
    } else {
      var rest := StepsAreAWalk(g, Parent(g, k).value, fuel - 1);
      keys := [k] + rest;
      WalkCons(g, k, rest);
    }
  }

  lemma WalkCons(g: Graph, k: string, rest: seq<string>)
    requires k in g && IsWalk(g, rest) && Parent(g, k) == Some(rest[0])
    ensures IsWalk(g, [k] + rest)
  {
    hide Parent;
    var keys := [k] + rest;
    forall i | 0 <= i < |keys| - 1 ensures Parent(g, keys[i]) == Some(keys[i + 1]) {
      if i > 0 {
        assert keys[i] == rest[i - 1] && keys[i + 1] == rest[i];
      }
    }
  }

  /** A walk without repetition is no longer than the graph. */
  lemma {:induction false} DistinctKeys(keys: seq<string>) returns (all: set<string>)
    requires Distinct(keys)
    ensures (forall k :: k in all <==> k in keys) && |all| == |keys|
  {
    if keys == [] {
      all := {};
    } else {
      var n := |keys| - 1;
      var before := DistinctKeys(keys[..n]);
      assert keys[n] !in keys[..n];
      all := before + {keys[n]};
      assert keys == keys[..n] + [keys[n]];
    }
  }

  lemma WalkFits(g: Graph, keys: seq<string>)
    requires Acyclic(g) && IsWalk(g, keys)
    ensures |keys| <= |g|
  {
    hide Parent;
    var all := DistinctKeys(keys);
    assert all <= g.Keys;
    SubsetSize(all, g.Keys);
  }

  lemma {:induction false} MoreFuel(g: Graph, k: string, fuel: nat)
    requires StepsWithin(g, k, fuel) < fuel
    ensures StepsWithin(g, k, fuel + 1) == StepsWithin(g, k, fuel)
    decreases fuel
  {
    if fuel == 0 || k !in g || Parent(g, k).None? {
    } else {
      MoreFuel(g, Parent(g, k).value, fuel - 1);
    }
  }

  /** On an acyclic graph every step lowers the number of steps left. */
  lemma StepLowers(g: Graph, k: string)
    requires Acyclic(g) && k in g && Parent(g, k).Some?
    ensures StepsWithin(g, Parent(g, k).value, |g|) < StepsWithin(g, k, |g|)
  {
    hide Parent, Acyclic;
    var p, n := Parent(g, k).value, |g|;
    assert k in g.Keys && n > 0;
    assert p in g by { ParentIsKey(g, k); }
    var keys := StepsAreAWalk(g, p, n - 1);
    WalkCons(g, k, keys);
    WalkFits(g, [k] + keys);
    MoreFuel(g, p, n - 1);
  }

  lemma ParentIsKey(g: Graph, k: string)
    requires k in g && Parent(g, k).Some?
    ensures Parent(g, k).value in g
  {
  }

  lemma {:induction false} RankFalls(g: Graph, keys: seq<string>, i: nat, j: nat, rank: string -> nat)
    requires Ranked(g, rank) && IsWalk(g, keys) && i < j < |keys|
    ensures rank(keys[j]) < rank(keys[i])
    decreases j
  {
    hide Parent;
    assert Parent(g, keys[j - 1]) == Some(keys[j]);
    if i < j - 1 {
      RankFalls(g, keys, i, j - 1, rank);
    }
  }

  /** A rank exists exactly if no walk returns to a key it has visited. */
  lemma RankExists(g: Graph)
    ensures Acyclic(g) <==> exists rank: string -> nat :: Ranked(g, rank)
  {
    hide Parent, IsWalk;
    if Acyclic(g) {
      var rank: string -> nat := k => StepsWithin(g, k, |g|);
      forall k | k in g && Parent(g, k).Some? ensures rank(Parent(g, k).value) < rank(k) {
        StepLowers(g, k);
      }
      assert Ranked(g, rank);
    }
    if exists rank: string -> nat :: Ranked(g, rank) {
      var rank: string -> nat :| Ranked(g, rank);
      forall keys | IsWalk(g, keys) ensures Distinct(keys) {
        forall i, j | 0 <= i < j < |keys| ensures keys[i] != keys[j] {
          RankFalls(g, keys, i, j, rank);
        }
      }
    }
  }

  /** And the owner does not depend on which one is taken. */
  lemma {:induction false} AnyRank(g: Graph, k: string, rank: string -> nat, other: string -> nat)
    requires k in g && Ranked(g, rank) && Ranked(g, other)
    ensures Top(g, k, rank) == Top(g, k, other)
    decreases rank(k)
  {
    if Parent(g, k).Some? {
      AnyRank(g, Parent(g, k).value, rank, other);
    }
  }
}
