/** Registration of the cluster filters (internal/common/filter.go, internal/common/generics.go). */
module ClusterFilters {
  import opened Text

  type LabelSet = map<string, string>

  /** `ClusterFilterParameters`: the cluster and the labels that identify its series. */
  datatype Spec = Spec(name: string, identifiers: LabelSet)

  // ---------- generics ----------

  predicate Contains(m: LabelSet, k: string, v: string) {
    k in m && m[k] == v
  }

  predicate Included(sub: LabelSet, m: LabelSet) {
    forall k :: k in sub ==> Contains(m, k, sub[k])
  }

  /** A map is no larger than one that includes it. */
  lemma IncludedSize(sub: LabelSet, m: LabelSet)
    requires Included(sub, m)
    ensures |sub| <= |m|
  {
    SubsetSize(sub.Keys, m.Keys);
  }

  /** `IsSubset`: the length test is only a short cut. */
  method IsSubset(m: LabelSet, sub: LabelSet) returns (b: bool)
    ensures b <==> Included(sub, m)
  {
    if Included(sub, m) {
      IncludedSize(sub, m);
    }
    if |sub| > |m| {
      return false;
    }
    var todo := sub.Keys;
    while todo != {}
      invariant todo <= sub.Keys
      invariant forall k :: k in sub && k !in todo ==> Contains(m, k, sub[k])
      decreases |todo|
    {
      var k :| k in todo;
      if !Contains(m, k, sub[k]) {
        return false;
      }
      todo := todo - {k};
    }
    b := true;
  }

  datatype Strategy = Fail | Ignore | Override

  /** Both maps; which of two entries for a key survives is the strategy's choice. */
  function Combined<V>(m1: map<string, V>, m2: map<string, V>, strategy: Strategy): map<string, V> {
    if strategy == Ignore then m2 + m1 else m1 + m2
  }

  function Restrict<V>(m: map<string, V>, keys: set<string>): map<string, V> {
    map k | k in m && k in keys :: m[k]
  }

  lemma CombinedStep<V>(m1: map<string, V>, m2: map<string, V>, strategy: Strategy, done: set<string>, k: string)
    requires k in m2 && k !in done
    ensures var r := Combined(m1, Restrict(m2, done), strategy);
            && (k in r <==> k in m1)
            && Combined(m1, Restrict(m2, done + {k}), strategy)
            == if k in m1 && strategy == Ignore then r else r[k := m2[k]]
  {
  }

  /** `Merge`; `None` is the error. */
  method Merge<V(==)>(m1: map<string, V>, m2: map<string, V>, strategy: Strategy) returns (m: Option<map<string, V>>)
    ensures m.None? <==> strategy == Fail && !(m1.Keys !! m2.Keys)
    ensures m.Some? ==> m.value == Combined(m1, m2, strategy)
  {
    hide Combined, Restrict;
    var r := m1;
    var todo := m2.Keys;
    CombinedEnds(m1, m2, strategy);
    while todo != {}
      invariant todo <= m2.Keys
      invariant strategy == Fail ==> m1.Keys !! (m2.Keys - todo)
      invariant r == Combined(m1, Restrict(m2, m2.Keys - todo), strategy)
      decreases |todo|
    {
      var k :| k in todo;
      CombinedStep(m1, m2, strategy, m2.Keys - todo, k);
      assert m2.Keys - (todo - {k}) == m2.Keys - todo + {k};
      if k in r {
        match strategy {
          case Fail => return None;
          case Override => r := r[k := m2[k]];
          case Ignore =>
        }
      } else {
        r := r[k := m2[k]];
      }
      todo := todo - {k};
    }
    assert m2.Keys - todo == m2.Keys;
    m := Some(r);
  }

  lemma CombinedEnds<V>(m1: map<string, V>, m2: map<string, V>, strategy: Strategy)
    ensures Restrict(m2, m2.Keys) == m2
    ensures Combined(m1, Restrict(m2, m2.Keys - m2.Keys), strategy) == m1
  {
    assert Restrict(m2, m2.Keys - m2.Keys) == map[];
  }

  // ---------- registration ----------

  /** Two filters that a series could both match by one label. */
  predicate ShareLabel(a: LabelSet, b: LabelSet) {
    exists k :: k in a && k in b && a[k] == b[k]
  }

  /** When two filters may be registered together. */
  predicate Compatible(a: Spec, b: Spec) {
    Apart(a, b) && a.identifiers != map[] && b.identifiers != map[]
  }

  /** What `validateDistinct` compares. */
  predicate Apart(a: Spec, b: Spec) {
    a.name != b.name && !ShareLabel(a.identifiers, b.identifiers)
  }

  predicate AllCompatibleWith(specs: seq<Spec>, cf: Spec) {
    forall i :: 0 <= i < |specs| ==> Compatible(specs[i], cf)
  }

  predicate AllCompatible(specs: seq<Spec>) {
    && (forall i :: 0 <= i < |specs| ==> specs[i].name != "")
    && (forall i, j :: 0 <= i < j < |specs| ==> Compatible(specs[i], specs[j]))
  }

  /** Filters may be registered together exactly if all have a name, no two have the same one, no two want the
      same value of a label, and one without identifiers is the only filter. */
  lemma CompatibleMeans(specs: seq<Spec>)
    ensures AllCompatible(specs)
            <==> && (forall i :: 0 <= i < |specs| ==> specs[i].name != "")
                 && (forall i, j :: 0 <= i < j < |specs| ==> specs[i].name != specs[j].name)
                 && (forall i :: 0 <= i < |specs| && specs[i].identifiers == map[] ==> |specs| == 1)
                 && (forall i, j, k :: 0 <= i < j < |specs| && k in specs[i].identifiers && k in specs[j].identifiers ==>
                       specs[i].identifiers[k] != specs[j].identifiers[k])
  {
    if AllCompatible(specs) {
      forall i | 0 <= i < |specs| ensures specs[i].identifiers == map[] ==> |specs| == 1 {
        assert i > 0 ==> Compatible(specs[i - 1], specs[i]);
        assert i + 1 < |specs| ==> Compatible(specs[i], specs[i + 1]);
      }
      forall i, j | 0 <= i < j < |specs|
        ensures specs[i].name != specs[j].name && !ShareLabel(specs[i].identifiers, specs[j].identifiers)
      {
        assert Compatible(specs[i], specs[j]);
      }
    }
  }

  predicate HasNoIdentifiers(specs: seq<Spec>) {
    exists i :: 0 <= i < |specs| && specs[i].identifiers == map[]
  }

  class Registry {
    /** `filtersByName`, in the order of `ClusterNames`. */
    var specs: seq<Spec>
    var filtersByName: map<string, Spec>
    /** `labelFilters`: one group for every set of label names. */
    var labelFilters: map<set<string>, seq<Spec>>
    var noIdentifiersFilter: bool

    /** Names are unique, every filter is in the group of its label names and in no other, and any two
        filters are compatible: they share no label, and one without identifiers is alone. */
    ghost predicate Valid()
      reads this
    {
      && AllCompatible(specs)
      && NamesAreRight(specs, filtersByName)
      && GroupsAreRight(specs, labelFilters)
      && (HasNoIdentifiers(specs) ==> noIdentifiersFilter)
    }

    /** No registration has been refused for want of identifiers. */
    ghost predicate Settled()
      reads this
    {
      noIdentifiersFilter <==> HasNoIdentifiers(specs)
    }

    constructor ()
      ensures Valid() && Settled() && specs == []
    {
      specs, filtersByName, labelFilters, noIdentifiersFilter := [], map[], map[], false;
    }

    /** `validateDistinct` of one registered filter. */
    method ValidateDistinct(cf: Spec, other: Spec) returns (ok: bool)
      ensures ok <==> !noIdentifiersFilter && Apart(cf, other)
      ensures ok <==> !noIdentifiersFilter && cf.name != other.name
                      && forall k :: k in cf.identifiers && k in other.identifiers ==> cf.identifiers[k] != other.identifiers[k]
    {
      if noIdentifiersFilter || cf.name == other.name {
        return false;
      }
      var todo := other.identifiers.Keys;
      while todo != {}
        invariant todo <= other.identifiers.Keys
        invariant forall k :: k in other.identifiers && k !in todo ==> !Contains(cf.identifiers, k, other.identifiers[k])
        decreases |todo|
      {
        var ln :| ln in todo;
        if Contains(cf.identifiers, ln, other.identifiers[ln]) {
          return false;
        }
        todo := todo - {ln};
      }
      ok := true;
    }

    /** The checks against what is registered. */
    method ValidateAll(cf: Spec) returns (ok: bool)
      requires Valid() && cf.name != "" && (cf.identifiers == map[] ==> noIdentifiersFilter)
      ensures ok <==> specs == [] || (!noIdentifiersFilter && AllCompatibleWith(specs, cf))
    {
      hide AllCompatible, GroupsAreRight, ShareLabel, HasNoIdentifiers;
      var todo := filtersByName.Keys;
      while todo != {}
        invariant todo <= filtersByName.Keys
        invariant todo != filtersByName.Keys ==> !noIdentifiersFilter
        invariant forall n :: n in filtersByName && n !in todo ==> Apart(filtersByName[n], cf)
        decreases |todo|
      {
        var name :| name in todo;
        ok := ValidateDistinct(filtersByName[name], cf);
        if !ok {
          ByName(name);
          CompatibleWhenApart(cf);
          return;
        }
        todo := todo - {name};
      }
      CompatibleWhenApart(cf);
      if specs != [] {
        assert specs[0].name in filtersByName;
      }
      ok := true;
    }

    lemma ByName(name: string)
      requires Valid() && name in filtersByName
      ensures exists i :: 0 <= i < |specs| && specs[i] == filtersByName[name]
    {
      var i :| 0 <= i < |specs| && specs[i] == filtersByName[name];
    }

    lemma CompatibleWhenApart(cf: Spec)
      requires Valid() && (cf.identifiers == map[] ==> noIdentifiersFilter)
      ensures !noIdentifiersFilter ==> (AllCompatibleWith(specs, cf) <==> forall i :: 0 <= i < |specs| ==> Apart(specs[i], cf))
    {
    }

    /** `registerClusterFilter`. A refused filter leaves at most the flag behind. */
    method Register(cf: Spec) returns (ok: bool)
      requires Valid()
      modifies this
      ensures Valid()
      ensures ok ==> AllCompatible(old(specs) + [cf])
      ensures old(Settled()) ==> (ok <==> AllCompatible(old(specs) + [cf]))
      ensures old(Settled()) && ok ==> Settled()
      ensures specs == if ok then old(specs) + [cf] else old(specs)
      ensures labelFilters == if ok then Grouped(old(labelFilters), cf) else old(labelFilters)
    {
      hide AllCompatibleWith, HasNoIdentifiers, GroupsAreRight, Grouped;
      if cf.name == "" {
        assert (specs + [cf])[|specs|] == cf;
        return false;
      }
      OneMore(specs, cf);
      hide AllCompatible;
      if |cf.identifiers| == 0 {
        noIdentifiersFilter := true;
      }
      ok := ValidateAll(cf);
      if ok {
        Enroll(cf);
      }
    }

    /** `RegisterClusterFilters`: it succeeds exactly on compatible filters. */
    method RegisterAll(cfs: seq<Spec>) returns (ok: bool)
      requires Valid() && Settled()
      modifies this
      ensures Valid()
      ensures ok <==> AllCompatible(old(specs) + cfs)
      ensures ok ==> specs == old(specs) + cfs && Settled()
    {
      hide AllCompatible, HasNoIdentifiers, GroupsAreRight, NamesAreRight, Grouped;
      for n := 0 to |cfs|
        invariant Valid() && Settled() && specs == old(specs) + cfs[..n]
      {
        ok := Register(cfs[n]);
        assert old(specs) + cfs[..n] + [cfs[n]] == old(specs) + cfs[..n + 1];
        if !ok {
          assert old(specs) + cfs[..n + 1] == (old(specs) + cfs)[..|old(specs)| + n + 1];
          if AllCompatible(old(specs) + cfs) {
            PrefixCompatible(old(specs) + cfs, |old(specs)| + n + 1);
          }
          return;
        }
      }
      assert cfs[..|cfs|] == cfs;
      ok := true;
    }

    method Enroll(cf: Spec)
      requires Valid() && AllCompatible(specs + [cf])
      requires HasNoIdentifiers(specs + [cf]) ==> noIdentifiersFilter
      modifies this`specs, this`filtersByName, this`labelFilters
      ensures Valid() && specs == old(specs) + [cf]
      ensures labelFilters == Grouped(old(labelFilters), cf)
    {
      hide AllCompatible, Compatible, HasNoIdentifiers, GroupsAreRight, NamesAreRight, Group;
      GroupsGrow(specs, labelFilters, cf);
      NamesGrow(specs, filtersByName, cf);
      specs := specs + [cf];
      filtersByName := filtersByName[cf.name := cf];
      var lns := cf.identifiers.Keys;
      if lns !in labelFilters {
        labelFilters := labelFilters[lns := []];
      }
      labelFilters := labelFilters[lns := labelFilters[lns] + [cf]];
      assert labelFilters == Grouped(old(labelFilters), cf);
    }
  }

  lemma PrefixCompatible(specs: seq<Spec>, n: nat)
    requires n <= |specs| && AllCompatible(specs)
    ensures AllCompatible(specs[..n])
  {
  }

  ghost predicate NamesAreRight(specs: seq<Spec>, byName: map<string, Spec>) {
    && (forall i :: 0 <= i < |specs| ==> specs[i].name in byName && byName[specs[i].name] == specs[i])
    && (forall n :: n in byName ==> byName[n] in specs && byName[n].name == n)
  }

  lemma NamesGrow(specs: seq<Spec>, byName: map<string, Spec>, cf: Spec)
    requires NamesAreRight(specs, byName) && AllCompatible(specs + [cf])
    ensures NamesAreRight(specs + [cf], byName[cf.name := cf])
  {
    var all := specs + [cf];
    assert all[|specs|] == cf;
    forall i | 0 <= i < |specs| ensures all[i].name != cf.name && specs[i] == all[i] {
      assert Compatible(all[i], all[|specs|]);
    }
    hide AllCompatible, Compatible;
    forall n | n in byName && n != cf.name ensures byName[n] in all {
      var i :| 0 <= i < |specs| && specs[i] == byName[n];
      assert all[i] == byName[n];
    }
  }

  lemma GroupsGrow(specs: seq<Spec>, groups: map<set<string>, seq<Spec>>, cf: Spec)
    requires GroupsAreRight(specs, groups)
    ensures GroupsAreRight(specs + [cf], Grouped(groups, cf))
  {
    hide Group;
    forall lns ensures Group(specs + [cf], lns) == Group(specs, lns) + (if cf.identifiers.Keys == lns then [cf] else []) {
      GroupSnoc(specs, cf, lns);
    }
  }

  lemma GroupSnoc(specs: seq<Spec>, cf: Spec, lns: set<string>)
    ensures Group(specs + [cf], lns) == Group(specs, lns) + (if cf.identifiers.Keys == lns then [cf] else [])
  {
    assert (specs + [cf])[..|specs|] == specs;
  }

  lemma OneMore(specs: seq<Spec>, cf: Spec)
    requires AllCompatible(specs) && cf.name != ""
    ensures AllCompatible(specs + [cf]) <==> AllCompatibleWith(specs, cf)
    ensures HasNoIdentifiers(specs + [cf]) <==> HasNoIdentifiers(specs) || cf.identifiers == map[]
    ensures HasNoIdentifiers(specs) && specs != [] ==> !AllCompatibleWith(specs, cf)
    ensures cf.identifiers == map[] && specs != [] ==> !AllCompatibleWith(specs, cf)
  {
    hide Apart;
    var all := specs + [cf];
    assert all[|specs|] == cf && forall i :: 0 <= i < |specs| ==> all[i] == specs[i];
    if AllCompatible(all) {
      forall i | 0 <= i < |specs| ensures Compatible(specs[i], cf) {
        assert Compatible(all[i], all[|specs|]);
      }
    }
    if HasNoIdentifiers(specs) {
      var i :| 0 <= i < |specs| && specs[i].identifiers == map[];
      assert all[i].identifiers == map[] && !Compatible(specs[i], cf);
    }
    if specs != [] && cf.identifiers == map[] {
      assert !Compatible(specs[0], cf);
    }
  }

  /** One filter more in the group of its label names. */
  function Grouped(groups: map<set<string>, seq<Spec>>, cf: Spec): map<set<string>, seq<Spec>> {
    var lns := cf.identifiers.Keys;
    groups[lns := (if lns in groups then groups[lns] else []) + [cf]]
  }

  /** The filters with the label names `lns`, in order. */
  function Group(specs: seq<Spec>, lns: set<string>): (r: seq<Spec>)
    ensures forall cf :: cf in r <==> cf in specs && cf.identifiers.Keys == lns
  {
    if specs == [] then []
    else
      var n := |specs| - 1;
      Group(specs[..n], lns) + (if specs[n].identifiers.Keys == lns then [specs[n]] else [])
  }

  ghost predicate GroupsAreRight(specs: seq<Spec>, groups: map<set<string>, seq<Spec>>) {
    && (forall lns :: lns in groups <==> Group(specs, lns) != [])
    && (forall lns :: lns in groups ==> groups[lns] == Group(specs, lns))
  }

  /** Every filter is in the group of its label names, once, and in no other. */
  lemma ExactlyOneGroup(specs: seq<Spec>, groups: map<set<string>, seq<Spec>>, i: nat)
    requires AllCompatible(specs) && GroupsAreRight(specs, groups) && i < |specs|
    ensures specs[i].identifiers.Keys in groups
    ensures forall lns :: lns in groups ==> (specs[i] in groups[lns] <==> lns == specs[i].identifiers.Keys)
    ensures forall lns, a, b :: lns in groups && 0 <= a < b < |groups[lns]| ==> Compatible(groups[lns][a], groups[lns][b])
  {
    assert specs[i] in Group(specs, specs[i].identifiers.Keys);
    forall lns | lns in groups
      ensures forall a, b :: 0 <= a < b < |groups[lns]| ==> Compatible(groups[lns][a], groups[lns][b])
    {
      GroupCompatible(specs, lns);
    }
  }

  lemma NoGroup(lns: set<string>)
    ensures Group([], lns) == []
  {
  }

  /** A group holds its filters in the order of registration. */
  lemma {:induction false} GroupKeepsOrder(specs: seq<Spec>, lns: set<string>) returns (at: seq<nat>)
    ensures |Group(specs, lns)| == |at|
    ensures forall j :: 0 <= j < |at| ==> at[j] < |specs| && Group(specs, lns)[j] == specs[at[j]]
    ensures forall j, k :: 0 <= j < k < |at| ==> at[j] < at[k]
    ensures forall i :: 0 <= i < |specs| ==> (i in at <==> specs[i].identifiers.Keys == lns)
    decreases |specs|
  {
    hide Group;
    at := [];
    if specs == [] {
      assert Group([], lns) == [] by { NoGroup(lns); }
    } else {
      var n := |specs| - 1;
      at := GroupKeepsOrder(specs[..n], lns);
      assert specs == specs[..n] + [specs[n]];
      GroupSnoc(specs[..n], specs[n], lns);
      if specs[n].identifiers.Keys == lns {
        at := at + [n];
      }
    }
  }

  lemma {:induction false} GroupCompatible(specs: seq<Spec>, lns: set<string>)
    requires AllCompatible(specs)
    ensures forall a, b :: 0 <= a < b < |Group(specs, lns)| ==> Compatible(Group(specs, lns)[a], Group(specs, lns)[b])
    decreases |specs|
  {
    if specs == [] {
    } else {
      var n := |specs| - 1;
      GroupCompatible(specs[..n], lns);
      forall cf | cf in Group(specs[..n], lns) ensures Compatible(cf, specs[n]) {
        assert cf in specs[..n];
      }
    }
  }
}
