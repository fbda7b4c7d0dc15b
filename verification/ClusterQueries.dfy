/** Splitting results, and the series every cluster gets (internal/common/filter.go,
    internal/common/prometheus.go). */
module ClusterQueries {
  import opened Text
  import opened QueryLabels
  import opened QueryCleaning
  import opened ClusterFilters
  import opened LabelMatchers
  import opened RunQueries
  import opened GroupQueries
  import Rewriter
  import OutsideRanges

  lemma BothIncluded(s: LabelSet, a: LabelSet, b: LabelSet)
    requires Included(a, s) && Included(b, s) && a.Keys == b.Keys && a != map[]
    ensures ShareLabel(a, b)
  {
    var k :| k in a;
    assert k in b && Contains(s, k, a[k]) && Contains(s, k, b[k]);
  }

  /** No series has the identifiers of two clusters of a group. */
  lemma NoneHasBoth(s: LabelSet, a: Spec, b: Spec)
    requires Compatible(a, b) && a.identifiers.Keys == b.identifiers.Keys
    ensures !(Included(a.identifiers, s) && Included(b.identifiers, s))
  {
    if Included(a.identifiers, s) && Included(b.identifiers, s) {
      BothIncluded(s, a.identifiers, b.identifiers);
    }
  }

  // ---------- splitting and collecting ----------

  function Names(cfs: seq<Spec>): set<string> {
    set i | 0 <= i < |cfs| :: cfs[i].name
  }

  function Identifiers(cfs: seq<Spec>): (lss: seq<LabelSet>)
    ensures |lss| == |cfs| && forall i :: 0 <= i < |cfs| ==> lss[i] == cfs[i].identifiers
  {
    seq(|cfs|, i requires 0 <= i < |cfs| => cfs[i].identifiers)
  }

  predicate DistinctNames(cfs: seq<Spec>) {
    forall i, j :: 0 <= i < j < |cfs| ==> cfs[i].name != cfs[j].name
  }

  /** The series of a result that have the identifiers of a cluster. */
  method SeriesOf(result: seq<LabelSet>, sub: LabelSet) returns (r: seq<LabelSet>)
    ensures r == Including(result, sub)
  {
    r := [];
    for k := 0 to |result|
      invariant r == Including(result[..k], sub)
    {
      assert result[..k + 1][..k] == result[..k];
      var b := IsSubset(result[k], sub);
      if b {
        r := r + [result[k]];
      }
    }
    assert result[..|result|] == result;
  }

  /** `split`; an empty cluster name means the result is for all clusters of the group. */
  method SplitResult(result: seq<LabelSet>, cluster: string, cfs: seq<Spec>) returns (crm: map<string, seq<LabelSet>>)
    requires DistinctNames(cfs)
    ensures cluster != "" ==> crm == map[cluster := result]
    ensures cluster == "" ==> crm.Keys == Names(cfs)
    ensures cluster == "" ==> forall i :: 0 <= i < |cfs| ==> cfs[i].name in crm && crm[cfs[i].name] == Including(result, cfs[i].identifiers)
  {
    hide Included, Including;
    crm := map[];
    if cluster == "" {
      for n := 0 to |cfs|
        invariant crm.Keys == Names(cfs[..n])
        invariant forall i :: 0 <= i < n ==> cfs[i].name in crm && crm[cfs[i].name] == Including(result, cfs[i].identifiers)
      {
        var r := SeriesOf(result, cfs[n].identifiers);
        NamesStep(cfs, n);
        crm := crm[cfs[n].name := r];
      }
      assert cfs[..|cfs|] == cfs;
    } else {
      crm := crm[cluster := result];
    }
  }

  lemma NamesStep(cfs: seq<Spec>, n: nat)
    requires n < |cfs|
    ensures Names(cfs[..n + 1]) == Names(cfs[..n]) + {cfs[n].name}
  {
    var a, b := cfs[..n], cfs[..n + 1];
    assert forall i :: 0 <= i < n ==> a[i] == b[i];
    assert b[n] == cfs[n];
    forall x | x in Names(a) + {cfs[n].name} ensures x in Names(b) {
      if x in Names(a) {
        var i :| 0 <= i < |a| && a[i].name == x;
        assert b[i].name == x;
      }
    }
  }

  /** The series of a metric, the registered groups, the query mode, the order of label names, and what the
      interval passes read. */
  datatype Setting = Setting(re: Regex, metric: string, db: seq<LabelSet>, groups: map<set<string>, seq<Spec>>,
                             perCluster: bool, sorted: set<string> -> seq<string>,
                             exporters: map<string, map<string, Rewriter.Exporter>>, parseDuration: string -> Option<int>)

  ghost predicate IsSetting(setting: Setting) {
    && IsMetric(setting.metric) && !Occurs(LABEL_NAMES_PLACEHOLDER, setting.metric)
    && forall keys :: keys in setting.groups ==> IsOrderOf(setting.sorted(keys), keys)
  }

  function GroupOf(setting: Setting, cf: Spec): seq<Spec> {
    if cf.identifiers.Keys in setting.groups then setting.groups[cf.identifiers.Keys] else []
  }

  function NamesOf(setting: Setting, cf: Spec): seq<string> {
    setting.sorted(cf.identifiers.Keys)
  }

  /** The query for a cluster, by itself or with its group. */
  function QueryFor(setting: Setting, cf: Spec): string {
    RunQuery(setting.metric, if setting.perCluster then [cf.identifiers] else Identifiers(GroupOf(setting, cf)), NamesOf(setting, cf))
  }

  function EnvOf(setting: Setting, cluster: string): Rewriter.Env {
    Rewriter.Env(if cluster in setting.exporters then setting.exporters[cluster] else map[], setting.parseDuration)
  }

  /** A query as it is run; without a cluster the interval passes are left out. */
  function AdjustedFor(setting: Setting, cluster: string, q: string): string {
    if cluster == "" then q else Rewriter.AdjustAll(EnvOf(setting, cluster), q, Rewriter.ALL_FUNCTIONS).0
  }

  function FinalQuery(setting: Setting, cf: Spec): string {
    AdjustedFor(setting, if setting.perCluster then cf.name else "", QueryFor(setting, cf))
  }

  /** No pass finds anything to change. */
  predicate Untouched(setting: Setting, cf: Spec) {
    FinalQuery(setting, cf) == QueryFor(setting, cf)
  }

  /** What the queries answer for a cluster. */
  function Answer(setting: Setting, cf: Spec): seq<LabelSet> {
    var result := Selection(setting.re, setting.db, FinalQuery(setting, cf), setting.metric);
    if setting.perCluster then result else Including(result, cf.identifiers)
  }

  /** When that is the series with the cluster's identifiers, if the passes change nothing. */
  ghost predicate AnswersRight(setting: Setting, cf: Spec) {
    if setting.perCluster then Unharmed(cf.identifiers, Join(NamesOf(setting, cf), ',')) && NoneEmpty(cf.identifiers)
    else Answerable(setting.re, Identifiers(GroupOf(setting, cf)), NamesOf(setting, cf), cf.identifiers)
  }

  lemma AnswerIsInclusion(setting: Setting, cf: Spec, i: nat)
    requires IsSetting(setting) && cf.identifiers.Keys in setting.groups && AnswersRight(setting, cf) && Untouched(setting, cf)
    requires i < |GroupOf(setting, cf)| && GroupOf(setting, cf)[i] == cf
    requires IsGroupOf(Identifiers(GroupOf(setting, cf)), NamesOf(setting, cf))
    ensures Answer(setting, cf) == Including(setting.db, cf.identifiers)
  {
    hide Selection, Including, IsGroupOf, IsMetric, Occurs, IsOrderOf, RunQuery, Unharmed, NoneEmpty, Answerable, Join;
    if setting.perCluster {
      OwnSelection(setting.re, setting.metric, setting.db, cf.identifiers, NamesOf(setting, cf));
    } else {
      SplitOfCombined(setting.re, setting.metric, setting.db, Identifiers(GroupOf(setting, cf)), NamesOf(setting, cf), i);
    }
  }

  lemma {:induction false} InSelection(db: seq<LabelSet>, sub: LabelSet, s: LabelSet)
    requires s in Including(db, sub)
    ensures Included(sub, s)
    decreases |db|
  {
    hide Included;
    if db == [] {
    } else if s in Including(db[..|db| - 1], sub) {
      InSelection(db[..|db| - 1], sub, s);
    }
  }

  /** No series is answered for two clusters of a group, if both are answered right. When the clusters are
      queried together no condition is needed. */
  lemma NoSeriesTwice(setting: Setting, a: Spec, b: Spec, s: LabelSet)
    requires Compatible(a, b) && a.identifiers.Keys == b.identifiers.Keys
    requires setting.perCluster ==>
               Answer(setting, a) == Including(setting.db, a.identifiers) && Answer(setting, b) == Including(setting.db, b.identifiers)
    ensures !(s in Answer(setting, a) && s in Answer(setting, b))
  {
    hide Selection, Including, RunQuery, Compatible, Included;
    NoneHasBoth(s, a, b);
    if s in Answer(setting, a) && s in Answer(setting, b) {
      var result := Selection(setting.re, setting.db, FinalQuery(setting, a), setting.metric);
      var other := Selection(setting.re, setting.db, FinalQuery(setting, b), setting.metric);
      InSelection(if setting.perCluster then setting.db else result, a.identifiers, s);
      InSelection(if setting.perCluster then setting.db else other, b.identifiers, s);
    }
  }

  /** What has been collected for some of the clusters. */
  ghost predicate Collected(crm: map<string, seq<LabelSet>>, done: set<Spec>, setting: Setting) {
    && crm.Keys == (set cf | cf in done :: cf.name)
    && forall cf :: cf in done ==> cf.name in crm && crm[cf.name] == Answer(setting, cf)
  }

  ghost predicate NamesDiffer(cfs: set<Spec>) {
    forall a, b :: a in cfs && b in cfs && a.name == b.name ==> a == b
  }

  /** One result more. */
  method MergeOne(crm: map<string, seq<LabelSet>>, m: map<string, seq<LabelSet>>,
                  ghost done: set<Spec>, ghost more: set<Spec>, ghost setting: Setting)
    returns (r: Option<map<string, seq<LabelSet>>>)
    requires Collected(crm, done, setting) && Collected(m, more, setting)
    requires done !! more && NamesDiffer(done + more)
    ensures r.Some? && Collected(r.value, done + more, setting)
  {
    hide Answer, Collected, NamesDiffer;
    NoNameTwice(crm, m, done, more, setting);
    r := Merge(crm, m, Fail);
    assert r.Some? && r.value == crm + m;
    CollectedBoth(crm, m, done, more, setting);
  }

  lemma NoNameTwice(crm: map<string, seq<LabelSet>>, m: map<string, seq<LabelSet>>, done: set<Spec>,
                    more: set<Spec>, setting: Setting)
    requires Collected(crm, done, setting) && Collected(m, more, setting)
    requires done !! more && NamesDiffer(done + more)
    ensures crm.Keys !! m.Keys
  {
    hide Answer;
    forall n | n in crm ensures n !in m {
      var a :| a in done && a.name == n;
      forall b | b in more ensures b.name != n {
        assert a in done + more && b in done + more;
      }
    }
  }

  lemma CollectedBoth(crm: map<string, seq<LabelSet>>, m: map<string, seq<LabelSet>>, done: set<Spec>,
                      more: set<Spec>, setting: Setting)
    requires Collected(crm, done, setting) && Collected(m, more, setting) && crm.Keys !! m.Keys
    ensures Collected(crm + m, done + more, setting)
  {
    hide Answer;
    var all := crm + m;
    forall cf | cf in done + more ensures cf.name in all && all[cf.name] == Answer(setting, cf) {
      if cf in done {
        assert cf.name in crm && cf.name !in m;
      }
    }
  }

  function Members(cfs: seq<Spec>): set<Spec> {
    set cf | cf in cfs
  }

  /** A group of filters as registered: the same label names, distinct clusters, no shared label. */
  ghost predicate IsClusterGroup(group: seq<Spec>, names: set<string>) {
    && IsGroup(Identifiers(group), names) && DistinctNames(group) && NoneShare(Identifiers(group))
    && forall i :: 0 <= i < |group| ==> group[i].name != ""
  }

  lemma NamesOfGroup(group: seq<Spec>, names: set<string>, i: nat)
    requires IsClusterGroup(group, names) && i < |group|
    ensures group[i].identifiers.Keys == names
  {
    assert Identifiers(group)[i] == group[i].identifiers;
  }

  /** The filter's labels in the embedded query, and the passes; an empty name stands for no cluster. */
  method QueryToRun(setting: Setting, cluster: string, lss: seq<LabelSet>, names: seq<string>) returns (q: string)
    requires lss != []
    ensures q == AdjustedFor(setting, cluster, RunQuery(setting.metric, lss, names))
  {
    hide Join, Clean;
    var labelNames, labels := CalculateFilter(lss, names);
    var qr := ReplacePlaceholders(WithPlaceholder(setting.metric), labels, labelNames);
    var si;
    q, si := Rewriter.AdjustIntervalToScrapeInterval(setting.exporters, setting.parseDuration, cluster, qr);
  }

  /** One query for all the clusters of the group, split afterwards. */
  method QueryCombined(names: set<string>, setting: Setting) returns (m: map<string, seq<LabelSet>>)
    requires names in setting.groups && IsClusterGroup(setting.groups[names], names) && !setting.perCluster
    requires setting.groups[names] != []
    ensures Collected(m, Members(setting.groups[names]), setting)
  {
    hide Selection, Including, IsGroup, RunQuery, NoneShare;
    var group := setting.groups[names];
    var q := QueryToRun(setting, "", Identifiers(group), setting.sorted(names));
    m := SplitResult(Selection(setting.re, setting.db, q, setting.metric), "", group);
    forall i | 0 <= i < |group| ensures m[group[i].name] == Answer(setting, group[i]) {
      NamesOfGroup(group, names, i);
    }
    NamesOfMembers(group);
  }

  lemma NamesOfMembers(cfs: seq<Spec>)
    ensures Names(cfs) == (set cf | cf in Members(cfs) :: cf.name)
  {
    var a, b := Names(cfs), set cf | cf in Members(cfs) :: cf.name;
    forall n | n in a ensures n in b {
      var i :| 0 <= i < |cfs| && cfs[i].name == n;
      assert cfs[i] in Members(cfs);
    }
  }

  lemma OwnAnswer(setting: Setting, cf: Spec)
    requires setting.perCluster
    ensures var q := RunQuery(setting.metric, [cf.identifiers], setting.sorted(cf.identifiers.Keys));
            Answer(setting, cf) == Selection(setting.re, setting.db, AdjustedFor(setting, cf.name, q), setting.metric)
  {
    hide Selection, RunQuery, AdjustedFor;
  }

  lemma GroupIsNamed(group: seq<Spec>, names: set<string>)
    requires IsClusterGroup(group, names)
    ensures DistinctNames(group) && forall i :: 0 <= i < |group| ==> group[i].name != ""
  {
  }

  /** One query for one cluster. */
  method QueryOne(names: set<string>, i: nat, setting: Setting) returns (m: map<string, seq<LabelSet>>)
    requires names in setting.groups && IsClusterGroup(setting.groups[names], names) && setting.perCluster
    requires i < |setting.groups[names]|
    ensures Collected(m, {setting.groups[names][i]}, setting)
  {
    hide Selection, Including, RunQuery, IsClusterGroup, Answer, AdjustedFor;
    var group := setting.groups[names];
    NamesOfGroup(group, names, i);
    OwnAnswer(setting, group[i]);
    GroupIsNamed(group, names);
    var q := QueryToRun(setting, group[i].name, [group[i].identifiers], setting.sorted(names));
    m := SplitResult(Selection(setting.re, setting.db, q, setting.metric), group[i].name, group);
  }

  /** The queries of one group, and the merging of their results. */
  method CollectGroup(names: set<string>, setting: Setting, crm: map<string, seq<LabelSet>>, ghost done: set<Spec>)
    returns (r: Option<map<string, seq<LabelSet>>>)
    requires names in setting.groups && IsClusterGroup(setting.groups[names], names) && setting.groups[names] != []
    requires Collected(crm, done, setting)
    requires done !! Members(setting.groups[names]) && NamesDiffer(done + Members(setting.groups[names]))
    ensures r.Some? && Collected(r.value, done + Members(setting.groups[names]), setting)
  {
    hide Including, Collected, IsGroup, NamesDiffer;
    var group := setting.groups[names];
    r := Some(crm);
    if setting.perCluster {
      assert done + Members(group[..0]) == done;
      for i := 0 to |group|
        invariant r.Some? && Collected(r.value, done + Members(group[..i]), setting)
      {
        var m := QueryOne(names, i, setting);
        MembersStep(group, i);
        SomeNamesDiffer(done + Members(group), done + Members(group[..i]) + {group[i]});
        r := MergeOne(r.value, m, done + Members(group[..i]), {group[i]}, setting);
        assert done + Members(group[..i]) + {group[i]} == done + Members(group[..i + 1]);
      }
      assert group[..|group|] == group;
    } else {
      var m := QueryCombined(names, setting);
      r := MergeOne(crm, m, done, Members(group), setting);
    }
  }

  lemma SomeNamesDiffer(all: set<Spec>, some: set<Spec>)
    requires NamesDiffer(all) && some <= all
    ensures NamesDiffer(some)
  {
  }

  lemma MembersStep(group: seq<Spec>, i: nat)
    requires i < |group| && DistinctNames(group)
    ensures Members(group[..i + 1]) == Members(group[..i]) + {group[i]}
    ensures group[i] !in group[..i] && Members(group[..i + 1]) <= Members(group)
  {
    assert group[..i + 1] == group[..i] + [group[i]];
  }

  /** The groups in the order in which the map happens to be walked. */
  ghost predicate IsWalk(order: seq<set<string>>, groups: map<set<string>, seq<Spec>>) {
    && (forall i :: 0 <= i < |order| ==> order[i] in groups)
    && (forall i, j :: 0 <= i < j < |order| ==> order[i] != order[j])
    && (forall names :: names in groups ==> names in order)
  }

  /** The groups of a registration. */
  ghost predicate AreClusterGroups(specs: seq<Spec>, groups: map<set<string>, seq<Spec>>) {
    AllCompatible(specs) && GroupsAreRight(specs, groups)
  }

  ghost function Walked(order: seq<set<string>>, groups: map<set<string>, seq<Spec>>, n: nat): set<Spec>
    requires n <= |order| && forall i :: 0 <= i < |order| ==> order[i] in groups
  {
    if n == 0 then {} else Walked(order, groups, n - 1) + Members(groups[order[n - 1]])
  }

  // ---------- exactly when the answers are right ----------

  ghost predicate AlwaysRight(setting: Setting, cf: Spec) {
    forall db :: Answer(setting.(db := db), cf) == Including(db, cf.identifiers)
  }

  lemma OneSeries(re: Regex, s: LabelSet, text: string, metric: string, ls: LabelSet)
    requires Selection(re, [s], text, metric) == Including([s], ls)
    ensures Selects(re, text, metric, s) <==> Included(ls, s)
  {
    hide Selects, Included;
    assert [s][..0] == [];
    assert Selection(re, [s], text, metric) == Selection(re, [], text, metric) + (if Selects(re, text, metric, s) then [s] else []);
    assert Including([s], ls) == Including([], ls) + (if Included(ls, s) then [s] else []);
  }

  lemma OwnAnswerIsExact(setting: Setting, cf: Spec)
    requires IsSetting(setting) && cf.identifiers.Keys in setting.groups && setting.perCluster && Untouched(setting, cf)
    ensures AlwaysRight(setting, cf) <==> AnswersRight(setting, cf)
  {
    hide Selection, Selects, Including, Included, IsMetric, Occurs, IsOrderOf, RunQuery, Unharmed, NoneEmpty, Join;
    var metric, ls, names := setting.metric, cf.identifiers, NamesOf(setting, cf);
    var q := RunQuery(metric, [ls], names);
    OwnFilterIsExact(setting.re, metric, ls, names);
    if AnswersRight(setting, cf) {
      forall db ensures Answer(setting.(db := db), cf) == Including(db, ls) {
        OwnSelection(setting.re, metric, db, ls, names);
      }
    }
    if AlwaysRight(setting, cf) {
      forall s: LabelSet ensures Selects(setting.re, q, metric, s) <==> Included(ls, s) {
        assert Answer(setting.(db := [s]), cf) == Including([s], ls);
        OneSeries(setting.re, s, q, metric, ls);
      }
    }
  }

  ghost predicate AllAlwaysRight(setting: Setting, group: seq<Spec>) {
    forall i :: 0 <= i < |group| ==> AlwaysRight(setting, group[i])
  }

  ghost predicate AllAnswerRight(setting: Setting, group: seq<Spec>) {
    forall i :: 0 <= i < |group| ==> AnswersRight(setting, group[i])
  }

  /** No value of the group has a metacharacter other than a bar. */
  ghost predicate HasPlainValues(setting: Setting, names: set<string>)
    requires names in setting.groups
  {
    IsEngine(setting.re) && ArePlainValues(Identifiers(setting.groups[names]), setting.sorted(names))
  }

  /** In either mode all clusters of a group are answered right, whatever the series, exactly if the
      condition holds for all of them. */
  lemma AnswersRightIsExact(setting: Setting, names: set<string>)
    requires IsSetting(setting) && names in setting.groups && IsClusterGroup(setting.groups[names], names)
    requires forall i :: 0 <= i < |setting.groups[names]| ==> Untouched(setting, setting.groups[names][i])
    requires !setting.perCluster && |setting.groups[names]| > 1 ==> HasPlainValues(setting, names)
    ensures AllAlwaysRight(setting, setting.groups[names]) <==> AllAnswerRight(setting, setting.groups[names])
  {
    hide AlwaysRight, AnswersRight, IsSetting, IsClusterGroup;
    var group := setting.groups[names];
    if setting.perCluster {
      forall i | 0 <= i < |group| ensures AlwaysRight(setting, group[i]) <==> AnswersRight(setting, group[i]) {
        NamesOfGroup(group, names, i);
        OwnAnswerIsExact(setting, group[i]);
      }
    } else {
      CombinedAnswersAreExact(setting, names);
    }
  }

  lemma CombinedAnswersAreExact(setting: Setting, names: set<string>)
    requires IsSetting(setting) && names in setting.groups && IsClusterGroup(setting.groups[names], names) && !setting.perCluster
    requires |setting.groups[names]| > 1 ==> HasPlainValues(setting, names)
    ensures AllAlwaysRight(setting, setting.groups[names]) <==> AllAnswerRight(setting, setting.groups[names])
  {
    hide SplitsRight, Answerable, IsGroupOf, IsClusterGroup, AlwaysRight, AnswersRight;
    var group := setting.groups[names];
    var lss, order := Identifiers(group), setting.sorted(names);
    RegisteredGroup(setting, group, names);
    SplitOfCombinedIsExact(setting.re, setting.metric, lss, order);
    forall i | 0 <= i < |group|
      ensures AlwaysRight(setting, group[i]) <==> SplitsRight(setting.re, setting.metric, lss, order, lss[i])
      ensures AnswersRight(setting, group[i]) <==> Answerable(setting.re, lss, order, lss[i])
    {
      NamesOfGroup(group, names, i);
      CombinedCondition(setting, group[i]);
      CombinedAnswer(setting, group[i], lss, order);
    }
  }

  lemma CombinedCondition(setting: Setting, cf: Spec)
    requires !setting.perCluster
    ensures AnswersRight(setting, cf)
       <==> Answerable(setting.re, Identifiers(GroupOf(setting, cf)), NamesOf(setting, cf), cf.identifiers)
  {
    hide Answerable;
  }

  lemma CombinedAnswerFor(setting: Setting, cf: Spec, db: seq<LabelSet>)
    requires !setting.perCluster
    ensures var q := RunQuery(setting.metric, Identifiers(GroupOf(setting, cf)), NamesOf(setting, cf));
            Answer(setting.(db := db), cf) == Including(Selection(setting.re, db, q, setting.metric), cf.identifiers)
  {
    hide RunQuery, Selection, Including;
  }

  lemma CombinedAnswer(setting: Setting, cf: Spec, lss: seq<LabelSet>, order: seq<string>)
    requires !setting.perCluster && lss == Identifiers(GroupOf(setting, cf)) && order == NamesOf(setting, cf)
    ensures AlwaysRight(setting, cf) <==> SplitsRight(setting.re, setting.metric, lss, order, cf.identifiers)
  {
    hide RunQuery, Selection, Including, Answer;
    var re, metric := setting.re, setting.metric;
    var q := RunQuery(metric, lss, order);
    if AlwaysRight(setting, cf) {
      forall db ensures Including(Selection(re, db, q, metric), cf.identifiers) == Including(db, cf.identifiers) {
        CombinedAnswerFor(setting, cf, db);
      }
    }
    if SplitsRight(re, metric, lss, order, cf.identifiers) {
      forall db ensures Answer(setting.(db := db), cf) == Including(db, cf.identifiers) {
        CombinedAnswerFor(setting, cf, db);
      }
    }
  }

  // ---------- the interval passes ----------

  /** The passes change nothing in a query without brackets, and nothing if clusters are queried together. */
  lemma IntervalsUntouched(setting: Setting, cf: Spec)
    requires setting.perCluster ==> '[' !in QueryFor(setting, cf)
    ensures Untouched(setting, cf)
  {
    hide RunQuery, QueryFor;
    if setting.perCluster {
      OutsideRanges.NoBracketNoChange(EnvOf(setting, cf.name), QueryFor(setting, cf), Rewriter.ALL_FUNCTIONS);
    }
  }

  /** The merge loop of `CollectMetric`: whether every cluster is queried by itself or a group is queried
      at once, and whatever the order of the groups, merging never fails and every registered cluster
      gets what was answered for it; that is the series with its identifiers, if its values allow. */
  method CollectMetric(specs: seq<Spec>, order: seq<set<string>>, setting: Setting)
    returns (crm: Option<map<string, seq<LabelSet>>>)
    requires IsSetting(setting) && AreClusterGroups(specs, setting.groups) && IsWalk(order, setting.groups)
    ensures crm.Some? && Collected(crm.value, Members(specs), setting)
    ensures forall cf :: cf in specs && AnswersRight(setting, cf) && Untouched(setting, cf) ==>
              cf.name in crm.value && crm.value[cf.name] == Including(setting.db, cf.identifiers)
    ensures forall cf :: cf in specs ==> cf.name in crm.value && IsAnswer(setting, cf, crm.value[cf.name])
  {
    hide Including, Collected, IsClusterGroup, NamesDiffer, AllCompatible, GroupsAreRight, AnswersRight, Answer, IsAnswer;
    var groups := setting.groups;
    crm := Some(map[]);
    assert Collected(map[], {}, setting) by { NothingCollected(setting); }
    for n := 0 to |order|
      invariant crm.Some? && Collected(crm.value, Walked(order, groups, n), setting)
    {
      var names := order[n];
      ghost var done := Walked(order, groups, n);
      NextGroup(specs, groups, order, n);
      crm := CollectGroup(names, setting, crm.value, done);
    }
    AllWalked(specs, groups, order);
    forall cf | cf in specs && AnswersRight(setting, cf) && Untouched(setting, cf)
      ensures cf.name in crm.value && crm.value[cf.name] == Including(setting.db, cf.identifiers)
    {
      RightAnswer(specs, setting, cf);
      CollectedFor(crm.value, Members(specs), setting, cf);
    }
    forall cf | cf in specs ensures cf.name in crm.value && IsAnswer(setting, cf, crm.value[cf.name]) {
      CollectedFor(crm.value, Members(specs), setting, cf);
      AnswerIs(setting, cf);
    }
  }

  /** What is answered for a cluster: what its own query selects after the interval passes for this cluster, or
      what the query of its group selects without them, split by its identifiers. */
  predicate IsAnswer(setting: Setting, cf: Spec, series: seq<LabelSet>) {
    if setting.perCluster then
      var own := RunQuery(setting.metric, [cf.identifiers], setting.sorted(cf.identifiers.Keys));
      var exporters := if cf.name in setting.exporters then setting.exporters[cf.name] else map[];
      var run := if cf.name == "" then own
                 else Rewriter.AdjustAll(Rewriter.Env(exporters, setting.parseDuration), own, Rewriter.ALL_FUNCTIONS).0;
      series == Selection(setting.re, setting.db, run, setting.metric)
    else
      var group := if cf.identifiers.Keys in setting.groups then setting.groups[cf.identifiers.Keys] else [];
      var combined := RunQuery(setting.metric, Identifiers(group), setting.sorted(cf.identifiers.Keys));
      series == Including(Selection(setting.re, setting.db, combined, setting.metric), cf.identifiers)
  }

  lemma AnswerIs(setting: Setting, cf: Spec)
    ensures IsAnswer(setting, cf, Answer(setting, cf))
  {
    hide Selection, RunQuery, Including;
  }

  lemma CollectedFor(crm: map<string, seq<LabelSet>>, done: set<Spec>, setting: Setting, cf: Spec)
    requires Collected(crm, done, setting) && cf in done
    ensures cf.name in crm && crm[cf.name] == Answer(setting, cf)
  {
    hide Answer;
  }

  lemma RightAnswer(specs: seq<Spec>, setting: Setting, cf: Spec)
    requires IsSetting(setting) && AreClusterGroups(specs, setting.groups) && cf in specs
    requires AnswersRight(setting, cf) && Untouched(setting, cf)
    ensures Answer(setting, cf) == Including(setting.db, cf.identifiers)
  {
    hide Including, AnswersRight, Answer, Group, IsClusterGroup, IsSetting, AllCompatible;
    var names := cf.identifiers.Keys;
    GroupIsClusterGroup(specs, names);
    var group := Group(specs, names);
    assert cf in group && names in setting.groups && GroupOf(setting, cf) == group;
    var i :| 0 <= i < |group| && group[i] == cf;
    RegisteredGroup(setting, group, names);
    AnswerIsInclusion(setting, cf, i);
  }

  lemma RegisteredGroup(setting: Setting, group: seq<Spec>, names: set<string>)
    requires IsSetting(setting) && names in setting.groups && IsClusterGroup(group, names)
    ensures IsGroupOf(Identifiers(group), setting.sorted(names))
  {
    hide IsOrderOf, NoneShare, IsMetric, Occurs;
  }

  lemma NothingCollected(setting: Setting)
    ensures Collected(map[], {}, setting)
  {
  }

  lemma {:induction false} WalkedHolds(specs: seq<Spec>, groups: map<set<string>, seq<Spec>>,
                                       order: seq<set<string>>, n: nat)
    requires GroupsAreRight(specs, groups) && IsWalk(order, groups) && n <= |order|
    ensures forall cf :: cf in Walked(order, groups, n) <==> cf in specs && cf.identifiers.Keys in order[..n]
  {
    hide Group;
    if n == 0 {
    } else {
      WalkedHolds(specs, groups, order, n - 1);
      var names := order[n - 1];
      assert groups[names] == Group(specs, names);
      assert order[..n] == order[..n - 1] + [names];
    }
  }

  lemma NextGroup(specs: seq<Spec>, groups: map<set<string>, seq<Spec>>, order: seq<set<string>>, n: nat)
    requires AreClusterGroups(specs, groups) && IsWalk(order, groups) && n < |order|
    ensures IsClusterGroup(groups[order[n]], order[n]) && groups[order[n]] != []
    ensures Walked(order, groups, n) !! Members(groups[order[n]])
    ensures NamesDiffer(Walked(order, groups, n) + Members(groups[order[n]]))
  {
    hide Group, Walked, IsClusterGroup, NamesDiffer;
    var names := order[n];
    WalkedHolds(specs, groups, order, n);
    assert groups[names] == Group(specs, names);
    GroupIsClusterGroup(specs, names);
    SpecNamesDiffer(specs);
    SomeNamesDiffer(Members(specs), Walked(order, groups, n) + Members(groups[names]));
    assert names !in order[..n];
  }

  lemma GroupIsClusterGroup(specs: seq<Spec>, names: set<string>)
    requires AllCompatible(specs)
    ensures IsClusterGroup(Group(specs, names), names)
  {
    var group := Group(specs, names);
    GroupCompatible(specs, names);
    hide Group;
    forall i | 0 <= i < |group| ensures group[i].name != "" && group[i].identifiers.Keys == names {
      assert group[i] in specs;
    }
  }

  lemma SpecNamesDiffer(specs: seq<Spec>)
    requires AllCompatible(specs)
    ensures NamesDiffer(Members(specs))
  {
    forall a, b | a in Members(specs) && b in Members(specs) && a.name == b.name ensures a == b {
      var i :| 0 <= i < |specs| && specs[i] == a;
      var j :| 0 <= j < |specs| && specs[j] == b;
      assert i < j ==> Compatible(specs[i], specs[j]);
      assert j < i ==> Compatible(specs[j], specs[i]);
    }
  }

  lemma AllWalked(specs: seq<Spec>, groups: map<set<string>, seq<Spec>>, order: seq<set<string>>)
    requires GroupsAreRight(specs, groups) && IsWalk(order, groups)
    ensures Walked(order, groups, |order|) == Members(specs)
  {
    hide Group, Walked;
    WalkedHolds(specs, groups, order, |order|);
    assert order[..|order|] == order;
    forall cf | cf in specs ensures cf.identifiers.Keys in order {
      assert cf in Group(specs, cf.identifiers.Keys);
    }
  }
}
