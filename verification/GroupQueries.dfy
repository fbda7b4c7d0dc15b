/** The combined query of a group of clusters, and the splitting of its result by the identifiers of every
    cluster (internal/common/filter.go:152-255). */
module GroupQueries {
  import opened Text
  import opened QueryLabels
  import opened QueryCleaning
  import opened ClusterFilters
  import opened LabelMatchers
  import opened LabelCleaning
  import opened RunQueries

  predicate IsGroup(lss: seq<LabelSet>, names: set<string>) {
    forall i :: 0 <= i < |lss| ==> lss[i].Keys == names
  }

  predicate NoneBarred(ls: LabelSet) {
    forall n :: n in ls ==> '|' !in ls[n]
  }

  // ---------- alternatives ----------

  /** The matcher of a group accepts the values of its label sets, when they have no bar or other
      metacharacter. */
  lemma MatchesAlternatives(re: Regex, s: LabelSet, lss: seq<LabelSet>, names: set<string>, n: string)
    requires IsEngine(re) && IsGroup(lss, names) && n in names && lss != []
    requires |lss| > 1 ==> forall i :: 0 <= i < |lss| ==> '|' !in lss[i][n] && IsPlainPattern(lss[i][n])
    ensures Matches(re, s, MatcherOf(lss, n)) <==> exists i :: 0 <= i < |lss| && Label(s, n) == lss[i][n]
  {
    hide Split, Join, IsPlainPattern;
    var vs := Values(lss, n);
    assert forall i :: 0 <= i < |lss| ==> vs[i] == lss[i][n];
    if |lss| > 1 {
      PlainJoin(vs);
      SplitJoin(vs, '|');
    } else {
      JoinOne(vs);
    }
  }

  lemma {:induction false} PlainJoin(vs: seq<string>)
    requires forall i :: 0 <= i < |vs| ==> IsPlainPattern(vs[i])
    ensures IsPlainPattern(Join(vs, '|'))
    decreases |vs|
  {
    if |vs| <= 1 {
    } else {
      PlainJoin(vs[1..]);
    }
  }

  /** What comes through has no metacharacters that were not there. */
  lemma PlainThrough(x: string, names: string)
    requires IsPlainPattern(x) && IsNameList(names)
    ensures IsPlainPattern(Through(x, names))
  {
    hide Through, Count;
    var w := Through(x, names);
    forall i | 0 <= i < |w| ensures w[i] !in METACHARACTERS {
      if w[i] in METACHARACTERS {
        assert w[i] !in names && w[i] !in LABEL_NAMES_PLACEHOLDER;
        ThroughAddsNone(x, names, w[i]);
        CountNone(x, w[i]);
        CountNone(w, w[i]);
      }
    }
  }

  lemma JoinOne(vs: seq<string>)
    requires |vs| == 1
    ensures Join(vs, '|') == vs[0]
  {
  }

  lemma {:induction false} PartsBehindBar(a: string, t: string)
    ensures forall p :: p in Split(t, '|') ==> p in Split(a + (['|'] + t), '|')
    decreases |a|
  {
    hide Split;
    if '|' in a {
      var a0, a1 := CutAt(a, '|');
      PartsBehindBar(a1, t);
      SplitFirst(a0, a1 + (['|'] + t), '|');
      Assoc4(a0, ['|'], a1, ['|'] + t);
      Assoc(a0, ['|'] + a1, ['|'] + t);
      Assoc(['|'], a1, ['|'] + t);
    } else {
      SplitFirst(a, t, '|');
    }
  }

  /** A value without a bar is one of the alternatives, whatever the other values. */
  lemma {:induction false} PartOfJoin(vs: seq<string>, i: nat)
    requires i < |vs| && '|' !in vs[i]
    ensures vs[i] in Split(Join(vs, '|'), '|')
    decreases |vs|
  {
    var first, rest := vs[0], vs[1..];
    assert vs == [first] + rest;
    if |vs| == 1 {
      JoinOne(vs);
      SplitFirst(first, "", '|');
    } else {
      hide Split, Join;
      JoinCons(first, rest, '|');
      if i == 0 {
        SplitFirst(first, Join(rest, '|'), '|');
      } else {
        PartOfJoin(rest, i - 1);
        PartsBehindBar(first, Join(rest, '|'));
      }
    }
  }

  function ThroughAll(vs: seq<string>, names: string): (r: seq<string>)
    ensures |r| == |vs| && forall i :: 0 <= i < |vs| ==> r[i] == Through(vs[i], names)
  {
    seq(|vs|, i requires 0 <= i < |vs| => Through(vs[i], names))
  }

  /** The alternatives come through one by one. */
  lemma {:induction false} JoinThrough(vs: seq<string>, names: string)
    ensures Through(Join(vs, '|'), names) == Join(ThroughAll(vs, names), '|')
    decreases |vs|
  {
    hide Through;
    if vs == [] {
      EmptyThrough(names);
    } else if |vs| == 1 {
    } else {
      JoinThrough(vs[1..], names);
      assert ThroughAll(vs, names)[1..] == ThroughAll(vs[1..], names);
      ThroughAround(vs[0], '|', Join(vs[1..], '|'), names);
    }
  }

  lemma {:induction false} InJoin(vs: seq<string>, c: char)
    requires c != '|'
    ensures c in Join(vs, '|') <==> exists i :: 0 <= i < |vs| && c in vs[i]
    decreases |vs|
  {
    if |vs| <= 1 {
    } else {
      InJoin(vs[1..], c);
      assert forall i :: 0 <= i < |vs| - 1 ==> vs[1..][i] == vs[i + 1];
      if exists i :: 0 <= i < |vs| && c in vs[i] {
        var i :| 0 <= i < |vs| && c in vs[i];
        assert i > 0 ==> vs[1..][i - 1] == vs[i];
      }
    }
  }

  lemma LiteralJoin(vs: seq<string>)
    ensures IsLiteral(Join(vs, '|')) <==> forall i :: 0 <= i < |vs| ==> IsLiteral(vs[i])
  {
    hide Join;
    InJoin(vs, '"');
    InJoin(vs, '\\');
    InJoin(vs, '\n');
  }

  // ---------- when the combined query finds the series of a cluster ----------

  /** The query can be read as it was meant: names come through, and values are such as a literal can hold. */
  ghost predicate Legible(lss: seq<LabelSet>, names: seq<string>) {
    forall n :: n in names ==> Kept(n, Join(names, ',')) && forall i :: 0 <= i < |lss| ==> IsLiteral(Label(lss[i], n))
  }

  /** Every value of the label set is matched by the alternatives that came through. */
  predicate Findable(re: Regex, lss: seq<LabelSet>, names: seq<string>, ls: LabelSet) {
    forall n :: n in names ==> re(Through(Join(Values(lss, n), '|'), Join(names, ',')), Label(ls, n))
  }

  predicate ArePlainValues(lss: seq<LabelSet>, names: seq<string>) {
    forall i, n :: 0 <= i < |lss| && n in names ==> IsPlainPattern(Label(lss[i], n))
  }

  lemma AlternativesArePlain(lss: seq<LabelSet>, names: seq<string>, n: string)
    requires ArePlainValues(lss, names) && n in names && AreLabelNames(names)
    ensures IsPlainPattern(Join(Values(lss, n), '|')) && IsPlainPattern(Through(Join(Values(lss, n), '|'), Join(names, ',')))
  {
    hide IsPlainPattern, Join, Through, IsNameList, IsLabelName;
    PlainJoin(Values(lss, n));
    JoinedNames(names);
    PlainThrough(Join(Values(lss, n), '|'), Join(names, ','));
  }

  /** A value that comes through and has no bar is, if no value has another metacharacter. */
  lemma FindableWhenKept(re: Regex, lss: seq<LabelSet>, names: seq<string>, i: nat)
    requires IsEngine(re) && ArePlainValues(lss, names)
    requires i < |lss| && (forall n :: n in names ==> n in lss[i])
    requires NoneBarred(lss[i]) && names != [] && AreLabelNames(names)
    requires forall n :: n in names ==> Kept(lss[i][n], Join(names, ','))
    ensures Findable(re, lss, names, lss[i])
  {
    hide Kept, Through, Split, Join, IsNameList, IsLabelName, IsPlainPattern, ArePlainValues;
    var l := Join(names, ',');
    JoinedNames(names);
    forall n | n in names ensures re(Through(Join(Values(lss, n), '|'), l), lss[i][n]) {
      var vs := Values(lss, n);
      assert vs[i] == lss[i][n];
      AlternativesArePlain(lss, names, n);
      ThroughIsExact(vs[i], l);
      JoinThrough(vs, l);
      PartOfJoin(ThroughAll(vs, l), i);
    }
  }

  lemma LegibleRuns(lss: seq<LabelSet>, names: seq<string>, j: nat)
    requires Legible(lss, names)
    requires AreLabelNames(names) && j < |names|
    ensures var l := Join(names, ',');
            Ran(MatcherOf(lss, names[j]), l) == MatcherOf(lss, names[j]).(text := Through(MatcherOf(lss, names[j]).text, l))
            && Readable(Ran(MatcherOf(lss, names[j]), l))
  {
    hide Kept, Through, Join, IsNameList, IsLabelName, IsLiteral, ReplaceAll;
    var l, m := Join(names, ','), MatcherOf(lss, names[j]);
    assert names[j] in names;
    JoinedNames(names);
    LiteralJoin(Values(lss, names[j]));
    SameMarks(m.text, l);
    NameKept(names[j], l);
    RanName(m, l);
  }

  /** What a legible query of several clusters selects. */
  lemma SelectsLegible(re: Regex, metric: string, lss: seq<LabelSet>, names: seq<string>, s: LabelSet)
    requires IsMetric(metric) && !Occurs(LABEL_NAMES_PLACEHOLDER, metric) && AreLabelNames(names) && |lss| > 1
    requires Legible(lss, names)
    ensures Selects(re, RunQuery(metric, lss, names), metric, s)
       <==> forall n :: n in names ==> re(Through(Join(Values(lss, n), '|'), Join(names, ',')), Label(s, n))
  {
    hide RunQuery, ReadSelector, ReadMatchers, PrintMatchers, Occurs, IsMetric, Ran;
    hide Join, Through, Split, Legible, Readable, IsLabelName;
    if names == [] {
      ReadsPlain(metric, lss);
    } else {
      var ms, l := Matchers(lss, names), Join(names, ',');
      var rs := RanAll(ms, l);
      forall j | 0 <= j < |names| ensures Readable(rs[j]) && rs[j] == ms[j].(text := Through(ms[j].text, l)) {
        LegibleRuns(lss, names, j);
      }
      ReadsRun(metric, lss, names);
      ReadsAll(rs, "");
      forall j | 0 <= j < |names|
        ensures Matches(re, s, rs[j]) <==> re(Through(Join(Values(lss, names[j]), '|'), l), Label(s, names[j]))
      {
        assert rs[j] == ms[j].(text := Through(ms[j].text, l));
      }
    }
  }

  /** The combined query, if legible, selects all series of a cluster exactly if the cluster is findable. */
  lemma FoundWhenLegible(re: Regex, metric: string, lss: seq<LabelSet>, names: seq<string>, i: nat)
    requires IsMetric(metric) && !Occurs(LABEL_NAMES_PLACEHOLDER, metric) && |lss| > 1 && i < |lss|
    requires IsOrderOf(names, lss[i].Keys) && Legible(lss, names)
    ensures (forall s: LabelSet :: Included(lss[i], s) ==> Selects(re, RunQuery(metric, lss, names), metric, s))
       <==> Findable(re, lss, names, lss[i])
  {
    hide RunQuery, Selects, Occurs, IsMetric, Join, Through, Split, Legible, AreLabelNames;
    var ls := lss[i];
    forall s: LabelSet | Included(ls, s)
      ensures Selects(re, RunQuery(metric, lss, names), metric, s) <==> Findable(re, lss, names, ls)
    {
      SelectsLegible(re, metric, lss, names, s);
      assert forall n :: n in names ==> Contains(s, n, ls[n]);
    }
    assert Included(ls, ls);
  }

  // ---------- an illegible query misses some cluster ----------

  function Length(s: string): nat {
    |s|
  }

  function Total(vs: seq<string>, f: string -> nat): nat {
    if vs == [] then 0 else f(vs[0]) + Total(vs[1..], f)
  }

  lemma {:induction false} TotalOver(vs: seq<string>, ws: seq<string>, f: string -> nat)
    ensures Total(vs + ws, f) == Total(vs, f) + Total(ws, f)
  {
    if vs == [] {
      assert vs + ws == ws;
    } else {
      assert (vs + ws)[1..] == vs[1..] + ws;
      TotalOver(vs[1..], ws, f);
    }
  }

  lemma TotalWithout(vs: seq<string>, k: nat, f: string -> nat)
    requires k < |vs|
    ensures Total(vs, f) == Total(vs[..k] + vs[k + 1..], f) + f(vs[k])
  {
    TotalOver(vs[..k], vs[k + 1..], f);
    TotalOver(vs[..k], vs[k..], f);
    assert vs == vs[..k] + vs[k..] && vs[k..][1..] == vs[k + 1..];
  }

  /** Different texts out of a list have no more in all than the list. */
  lemma {:induction false} TotalOfSome(vs: seq<string>, parts: seq<string>, f: string -> nat)
    requires Distinct(vs) && forall i :: 0 <= i < |vs| ==> vs[i] in parts
    ensures Total(vs, f) <= Total(parts, f)
    decreases |vs|
  {
    if vs == [] {
    } else {
      var k :| 0 <= k < |parts| && parts[k] == vs[0];
      var others := parts[..k] + parts[k + 1..];
      forall i | 0 <= i < |vs| - 1 ensures vs[1..][i] in others {
        assert vs[1..][i] == vs[i + 1] != vs[0];
        var j :| 0 <= j < |parts| && parts[j] == vs[i + 1];
        assert if j < k then others[j] == parts[j] else others[j - 1] == parts[j];
      }
      TotalOfSome(vs[1..], others, f);
      TotalWithout(parts, k, f);
    }
  }

  lemma QuoteInParts(d: string)
    ensures '"' in d <==> exists p :: p in Split(d, '|') && '"' in p
  {
    hide Split, Join;
    var parts := Split(d, '|');
    JoinSplit(d, '|');
    InJoin(parts, '"');
    if exists p :: p in parts && '"' in p {
      var p :| p in parts && '"' in p;
      var i :| 0 <= i < |parts| && parts[i] == p;
    }
  }

  /** Without backslashes the literal ends at the first quote. */
  lemma EndsAtFirstQuote(w: string, t: string)
    requires '\\' !in w
    ensures var r := ReadLiteral(w + (['"'] + t));
            r.Some? ==> r.value.0 == BeforeQuote(w) && IsLiteral(BeforeQuote(w))
  {
    hide ReadLiteral, BeforeQuote, Count;
    var w0 := BeforeQuote(w);
    assert '\\' !in w0 by { assert w0 <= w; }
    CountNone(w0, '\\');
    var behind := AroundQuote(w, t);
    var d0 := ReadToQuote(w0, behind);
  }

  /** A text without metacharacters that is read as a pattern is read without any. */
  lemma ReadPlain(x: string, names: string, t: string, text: string)
    requires IsNameList(names) && IsPlainPattern(x) && TextReadAs(Through(x, names), t, text)
    ensures IsPlainPattern(text) && text == BeforeQuote(Through(x, names)) && IsLiteral(text)
  {
    hide ReadLiteral, Through, BeforeQuote, IsNameList;
    var w := Through(x, names);
    PlainThrough(x, names);
    EndsAtFirstQuote(w, t);
    assert text <= w;
  }

  /** If all values are among its alternatives, it was a literal. */
  lemma FoundAreLiteral(vs: seq<string>, names: string, t: string, text: string)
    requires IsNameList(names) && IsPlainPattern(Join(vs, '|')) && TextReadAs(Through(Join(vs, '|'), names), t, text)
    requires forall i :: 0 <= i < |vs| ==> vs[i] in Split(text, '|')
    ensures IsLiteral(Join(vs, '|'))
  {
    hide ReadLiteral, Join, Split, Through, BeforeQuote, IsNameList, Count, IsPlainPattern;
    var x := Join(vs, '|');
    MarksComeThrough(x, names);
    ReadPlain(x, names, t, text);
    QuoteInParts(text);
    InJoin(vs, '"');
    SameMarks(x, names);
  }

  /** Of the matchers before the first that is illegible. */
  ghost predicate IsLegible(m: Matcher, names: string) {
    Kept(m.name, names) && IsLiteral(m.text)
  }

  lemma LegibleByMatcher(lss: seq<LabelSet>, names: seq<string>)
    ensures Legible(lss, names) <==> forall k :: 0 <= k < |names| ==> IsLegible(MatcherOf(lss, names[k]), Join(names, ','))
  {
    hide Kept, IsLiteral, Join;
    forall k | 0 <= k < |names|
      ensures IsLegible(MatcherOf(lss, names[k]), Join(names, ','))
         <==> Kept(names[k], Join(names, ',')) && forall i :: 0 <= i < |lss| ==> IsLiteral(Label(lss[i], names[k]))
    {
      LiteralJoin(Values(lss, names[k]));
    }
    if forall k :: 0 <= k < |names| ==> IsLegible(MatcherOf(lss, names[k]), Join(names, ',')) {
      forall n | n in names
        ensures Kept(n, Join(names, ',')) && forall i :: 0 <= i < |lss| ==> IsLiteral(Label(lss[i], n))
      {
        var k :| 0 <= k < |names| && names[k] == n;
      }
    }
  }

  lemma FirstIllegible(lss: seq<LabelSet>, names: seq<string>) returns (k: nat)
    requires !Legible(lss, names)
    ensures k < |names| && !IsLegible(MatcherOf(lss, names[k]), Join(names, ','))
    ensures forall j :: 0 <= j < k ==> IsLegible(MatcherOf(lss, names[j]), Join(names, ','))
  {
    hide IsLegible, MatcherOf, Join, Legible;
    LegibleByMatcher(lss, names);
    k := 0;
    while IsLegible(MatcherOf(lss, names[k]), Join(names, ','))
      invariant k < |names| && forall j :: 0 <= j < k ==> IsLegible(MatcherOf(lss, names[j]), Join(names, ','))
      decreases |names| - k
    {
      if k + 1 == |names| {
        assert false;
      }
      k := k + 1;
    }
  }

  lemma LegibleIsReadable(m: Matcher, names: string)
    requires IsLabelName(m.name) && IsNameList(names) && IsLegible(m, names)
    ensures Readable(Ran(m, names))
  {
    hide Kept, Through, IsNameList, IsLabelName, IsLiteral, ReplaceAll;
    SameMarks(m.text, names);
    NameKept(m.name, names);
    RanName(m, names);
  }

  /** What can be read of a matcher that ran: its name, and some text. */
  ghost predicate ReadSoAs(m: Matcher, names: string, got: Matcher) {
    && IsLabelName(got.name) && got.regex == m.regex && got.name == Ran(m, names).name
    && exists t :: TextReadAs(Through(m.text, names), t, got.text)
  }

  predicate TextReadAs(w: string, t: string, text: string) {
    var d := ReadLiteral(w + (['"'] + t));
    d.Some? && text == d.value.0
  }

  /** What is read of the first illegible matcher. */
  lemma ReadsIllegible(ms: seq<Matcher>, names: string, k: nat)
    requires AllNamed(ms) && IsNameList(names) && k < |ms| && forall j :: 0 <= j < k ==> IsLegible(ms[j], names)
    ensures var r := ReadMatchers(PrintMatchers(RanAll(ms, names)) + (['}'] + ""));
            r.Some? ==> |r.value.0| > k && ReadSoAs(ms[k], names, r.value.0[k])
  {
    hide PrintMatchers, ReadMatchers, IsNameList, IsLabelName, IsLegible, Ran, Behind, ReadLiteral, Through;
    var rs := RanAll(ms, names);
    forall j | 0 <= j < k ensures Readable(rs[j]) {
      LegibleIsReadable(ms[j], names);
    }
    RanNameIsText(ms[k], names);
    ReadsUpTo(rs, k, "");
    RanName(ms[k], names);
    var r := ReadMatchers(PrintMatchers(rs) + (['}'] + ""));
    if r.Some? {
      assert TextReadAs(Through(ms[k].text, names), Behind(rs[k + 1..], ""), r.value.0[k].text);
    }
  }

  /** No two label sets share a label. */
  predicate NoneShare(lss: seq<LabelSet>) {
    forall i, j :: 0 <= i < j < |lss| ==> !ShareLabel(lss[i], lss[j])
  }

  ghost predicate IsGroupOf(lss: seq<LabelSet>, names: seq<string>) {
    NoneShare(lss) && forall i :: 0 <= i < |lss| ==> IsOrderOf(names, lss[i].Keys)
  }

  lemma DifferentValues(lss: seq<LabelSet>, names: seq<string>, n: string)
    requires IsGroupOf(lss, names) && n in names
    ensures Distinct(Values(lss, n)) && forall i :: 0 <= i < |lss| ==> n in lss[i] && Values(lss, n)[i] == lss[i][n]
  {
    hide IsLabelName;
    forall i, j | 0 <= i < j < |lss| ensures Values(lss, n)[i] != Values(lss, n)[j] {
      assert !ShareLabel(lss[i], lss[j]) && n in lss[i] && n in lss[j];
    }
  }

  /** A matcher of several clusters that is read for the first illegible one misses one of them. */
  lemma IllegibleMissed(re: Regex, lss: seq<LabelSet>, names: seq<string>, k: nat,
                        got: Matcher) returns (i: nat, s: LabelSet)
    requires IsEngine(re) && ArePlainValues(lss, names) && IsGroupOf(lss, names) && |lss| > 1 && k < |names|
    requires !IsLegible(MatcherOf(lss, names[k]), Join(names, ',')) && ReadSoAs(MatcherOf(lss, names[k]), Join(names, ','), got)
    ensures i < |lss| && Included(lss[i], s) && !Matches(re, s, got)
  {
    hide Kept, Through, IsNameList, IsLabelName, IsLiteral, ReplaceAll, ReadLiteral, Join, Split, Distinct;
    var n, l := names[k], Join(names, ',');
    assert n in names && IsLabelName(n) && AreLabelNames(names) && IsOrderOf(names, lss[0].Keys);
    JoinedNames(names);
    var m := MatcherOf(lss, n);
    RanName(m, l);
    NameKept(n, l);
    AlternativesArePlain(lss, names, n);
    var t :| TextReadAs(Through(m.text, l), t, got.text);
    ReadPlain(m.text, l, t, got.text);
    if got.name != n {
      i, s := 0, lss[0];
      if |names| > 1 {
        CommaInName(n, names);
      }
      assert forall x :: x in lss[0] ==> x in names;
      s := OtherLabelMissed(re, lss[0], got);
    } else {
      i := OneNotRead(Values(lss, n), l, t, got.text);
      s := lss[i];
      SelfIncluded(s);
    }
  }

  lemma OneNotRead(vs: seq<string>, names: string, t: string, text: string) returns (i: nat)
    requires IsNameList(names) && IsPlainPattern(Join(vs, '|')) && !IsLiteral(Join(vs, '|'))
    requires TextReadAs(Through(Join(vs, '|'), names), t, text)
    ensures i < |vs| && vs[i] !in Split(text, '|')
  {
    hide Through, IsNameList, IsLiteral, ReadLiteral, Join, Split, IsPlainPattern;
    if forall i :: 0 <= i < |vs| ==> vs[i] in Split(text, '|') {
      FoundAreLiteral(vs, names, t, text);
      assert false;
    }
    i :| 0 <= i < |vs| && vs[i] !in Split(text, '|');
  }

  lemma IllegibleMisses(re: Regex, metric: string, lss: seq<LabelSet>, names: seq<string>) returns (i: nat, s: LabelSet)
    requires IsMetric(metric) && !Occurs(LABEL_NAMES_PLACEHOLDER, metric)
    requires IsEngine(re) && ArePlainValues(lss, names) && IsGroupOf(lss, names) && |lss| > 1 && !Legible(lss, names)
    ensures i < |lss| && Included(lss[i], s) && !Selects(re, RunQuery(metric, lss, names), metric, s)
  {
    hide RunQuery, ReadMatchers, PrintMatchers, Occurs, Matches, IsMetric, IsLegible, Legible;
    hide ReadSoAs, Join, IsNameList, Ran, MatcherOf, IsLabelName, Included;
    var l, ms := Join(names, ','), Matchers(lss, names);
    assert AreLabelNames(names) by { assert IsOrderOf(names, lss[0].Keys); }
    var k := FirstIllegible(lss, names);
    JoinedNames(names);
    assert AllNamed(ms) && forall j :: 0 <= j < |ms| ==> ms[j] == MatcherOf(lss, names[j]);
    ReadsIllegible(ms, l, k);
    ReadsRun(metric, lss, names);
    var r := ReadMatchers(PrintMatchers(RanAll(ms, l)) + (['}'] + ""));
    if r.Some? {
      i, s := IllegibleMissed(re, lss, names, k, r.value.0[k]);
    } else {
      i, s := 0, lss[0];
      SelfIncluded(lss[0]);
    }
  }

  // ---------- the exact conditions ----------

  /** When the combined query of a group finds every series of one of its clusters. */
  ghost predicate Answerable(re: Regex, lss: seq<LabelSet>, names: seq<string>, ls: LabelSet) {
    if |lss| == 1 then Unharmed(ls, Join(names, ',')) else Legible(lss, names) && Findable(re, lss, names, ls)
  }

  lemma FoundWhenAnswerable(re: Regex, metric: string, lss: seq<LabelSet>, names: seq<string>, i: nat, s: LabelSet)
    requires IsMetric(metric) && !Occurs(LABEL_NAMES_PLACEHOLDER, metric) && IsGroupOf(lss, names)
    requires i < |lss| && Answerable(re, lss, names, lss[i]) && Included(lss[i], s)
    ensures Selects(re, RunQuery(metric, lss, names), metric, s)
  {
    hide RunQuery, Selects, Occurs, IsMetric, Legible, Findable, Kept, IsLiteral, Join, IsOrderOf;
    if |lss| == 1 {
      assert lss == [lss[0]];
      FoundAlone(re, metric, lss[0], names, s);
    } else {
      FoundWhenLegible(re, metric, lss, names, i);
    }
  }

  lemma FoundAlone(re: Regex, metric: string, ls: LabelSet, names: seq<string>, s: LabelSet)
    requires IsMetric(metric) && !Occurs(LABEL_NAMES_PLACEHOLDER, metric) && IsOrderOf(names, ls.Keys)
    requires Unharmed(ls, Join(names, ',')) && Included(ls, s)
    ensures Selects(re, RunQuery(metric, [ls], names), metric, s)
  {
    hide RunQuery, Selects, Occurs, IsMetric, Join, Kept, IsLiteral, MatcherOf, Intact, AreLabelNames;
    forall i | 0 <= i < |names|
      ensures Intact(MatcherOf([ls], names[i]), Join(names, ',')) && Matches(re, s, MatcherOf([ls], names[i]))
    {
      assert names[i] in names;
      OwnMatcher(ls, names[i], Join(names, ','));
      assert Contains(s, names[i], ls[names[i]]);
    }
    assert AreLabelNames(names) by { assert IsOrderOf(names, ls.Keys); }
    SelectsIntact(re, metric, [ls], names, s);
  }

  /** A cluster of the group whose series are not all found, if there is one that is not answerable. */
  lemma SomeMissed(re: Regex, metric: string, lss: seq<LabelSet>, names: seq<string>) returns (i: nat, s: LabelSet)
    requires IsMetric(metric) && !Occurs(LABEL_NAMES_PLACEHOLDER, metric) && IsGroupOf(lss, names)
    requires |lss| > 1 ==> IsEngine(re) && ArePlainValues(lss, names)
    requires exists i :: 0 <= i < |lss| && !Answerable(re, lss, names, lss[i])
    ensures i < |lss| && Included(lss[i], s) && !Selects(re, RunQuery(metric, lss, names), metric, s)
  {
    hide RunQuery, Selects, Occurs, IsMetric, Legible, Findable, Unharmed, Join, IsOrderOf, NoneShare;
    i :| 0 <= i < |lss| && !Answerable(re, lss, names, lss[i]);
    if |lss| == 1 {
      assert lss == [lss[0]];
      s := OffIsMissed(re, metric, lss[0], names);
    } else if Legible(lss, names) {
      FoundWhenLegible(re, metric, lss, names, i);
      s :| Included(lss[i], s) && !Selects(re, RunQuery(metric, lss, names), metric, s);
    } else {
      i, s := IllegibleMisses(re, metric, lss, names);
    }
  }

  // ---------- results and their splitting ----------

  /** The series of a metric that a query selects. */
  function Selection(re: Regex, db: seq<LabelSet>, text: string, metric: string): seq<LabelSet> {
    if db == [] then []
    else
      var n := |db| - 1;
      Selection(re, db[..n], text, metric) + (if Selects(re, text, metric, db[n]) then [db[n]] else [])
  }

  function Including(db: seq<LabelSet>, sub: LabelSet): seq<LabelSet> {
    if db == [] then []
    else
      var n := |db| - 1;
      Including(db[..n], sub) + (if Included(sub, db[n]) then [db[n]] else [])
  }

  /** These are the series with all the labels, each once and in their order. */
  lemma {:induction false} IncludingIs(db: seq<LabelSet>, sub: LabelSet) returns (at: seq<nat>)
    ensures |Including(db, sub)| == |at|
    ensures forall j :: 0 <= j < |at| ==> at[j] < |db| && Including(db, sub)[j] == db[at[j]]
    ensures forall j, k :: 0 <= j < k < |at| ==> at[j] < at[k]
    ensures forall i :: 0 <= i < |db| ==> (i in at <==> forall k :: k in sub ==> k in db[i] && db[i][k] == sub[k])
    decreases |db|
  {
    at := [];
    if db != [] {
      var n := |db| - 1;
      at := IncludingIs(db[..n], sub);
      if Included(sub, db[n]) {
        at := at + [n];
      }
    }
  }

  lemma IncludingSnoc(db: seq<LabelSet>, s: LabelSet, sub: LabelSet)
    ensures Including(db + [s], sub) == Including(db, sub) + (if Included(sub, s) then [s] else [])
  {
    assert (db + [s])[..|db|] == db;
  }

  /** The query of one cluster alone, run for all its series. */
  lemma {:induction false} OwnSelection(re: Regex, metric: string, db: seq<LabelSet>, ls: LabelSet, names: seq<string>)
    requires IsMetric(metric) && !Occurs(LABEL_NAMES_PLACEHOLDER, metric) && IsOrderOf(names, ls.Keys)
    requires Unharmed(ls, Join(names, ',')) && NoneEmpty(ls)
    ensures Selection(re, db, RunQuery(metric, [ls], names), metric) == Including(db, ls)
    decreases |db|
  {
    hide Selects, Included, RunQuery, Occurs, IsMetric, IsOrderOf, Unharmed, NoneEmpty, Join;
    if db == [] {
    } else {
      OwnSelection(re, metric, db[..|db| - 1], ls, names);
      OwnFilterIsInclusion(re, metric, ls, names, db[|db| - 1]);
    }
  }

  /** Splitting the result of a query that finds all series of a cluster. */
  lemma {:induction false} SplitOfSelection(re: Regex, db: seq<LabelSet>, text: string, metric: string, ls: LabelSet)
    requires forall s :: s in db && Included(ls, s) ==> Selects(re, text, metric, s)
    ensures Including(Selection(re, db, text, metric), ls) == Including(db, ls)
    decreases |db|
  {
    hide Selects, Included;
    if db == [] {
    } else {
      var n := |db| - 1;
      SplitOfSelection(re, db[..n], text, metric, ls);
      var selected := Selection(re, db[..n], text, metric);
      if Selects(re, text, metric, db[n]) {
        IncludingSnoc(selected, db[n], ls);
      } else {
        assert selected + [] == selected && db[n] in db;
      }
    }
  }

  /** Running the combined query and splitting by the identifiers of a cluster gives the series that
      include them, in the same order. */
  lemma SplitOfCombined(re: Regex, metric: string, db: seq<LabelSet>, lss: seq<LabelSet>, names: seq<string>, i: nat)
    requires IsMetric(metric) && !Occurs(LABEL_NAMES_PLACEHOLDER, metric) && IsGroupOf(lss, names)
    requires i < |lss| && Answerable(re, lss, names, lss[i])
    ensures Including(Selection(re, db, RunQuery(metric, lss, names), metric), lss[i]) == Including(db, lss[i])
  {
    hide Selects, Included, RunQuery, Occurs, IsMetric, IsGroupOf, Answerable, Including, Selection;
    forall s | s in db && Included(lss[i], s) ensures Selects(re, RunQuery(metric, lss, names), metric, s) {
      FoundWhenAnswerable(re, metric, lss, names, i, s);
    }
    SplitOfSelection(re, db, RunQuery(metric, lss, names), metric, lss[i]);
  }

  lemma MissedInResult(re: Regex, s: LabelSet, text: string, metric: string, ls: LabelSet)
    requires Included(ls, s) && !Selects(re, text, metric, s)
    ensures Including(Selection(re, [s], text, metric), ls) != Including([s], ls)
  {
    hide Selects, Included;
    assert [s][..0] == [];
    assert Selection(re, [s], text, metric) == Selection(re, [], text, metric) + [];
    assert Including([s], ls) == Including([], ls) + [s];
  }

  ghost predicate SplitsRight(re: Regex, metric: string, lss: seq<LabelSet>, names: seq<string>, ls: LabelSet) {
    forall db :: Including(Selection(re, db, RunQuery(metric, lss, names), metric), ls) == Including(db, ls)
  }

  /** It does for all clusters of the group, whatever the series, only if all of them are answerable. */
  lemma SplitOfCombinedIsExact(re: Regex, metric: string, lss: seq<LabelSet>, names: seq<string>)
    requires IsMetric(metric) && !Occurs(LABEL_NAMES_PLACEHOLDER, metric) && IsGroupOf(lss, names)
    requires |lss| > 1 ==> IsEngine(re) && ArePlainValues(lss, names)
    ensures (forall i :: 0 <= i < |lss| ==> SplitsRight(re, metric, lss, names, lss[i]))
       <==> forall i :: 0 <= i < |lss| ==> Answerable(re, lss, names, lss[i])
  {
    hide Selects, Included, RunQuery, Occurs, IsMetric, IsGroupOf, Answerable, Including, Selection;
    if forall i :: 0 <= i < |lss| ==> Answerable(re, lss, names, lss[i]) {
      forall i, db | 0 <= i < |lss|
        ensures Including(Selection(re, db, RunQuery(metric, lss, names), metric), lss[i]) == Including(db, lss[i])
      {
        SplitOfCombined(re, metric, db, lss, names, i);
      }
    } else {
      var i, s := SomeMissed(re, metric, lss, names);
      MissedInResult(re, s, RunQuery(metric, lss, names), metric, lss[i]);
    }
  }

  // ---------- the condition value by value ----------

  lemma {:induction false} TotalAtMost(vs: seq<string>, ws: seq<string>)
    requires |vs| == |ws| && forall i :: 0 <= i < |vs| ==> |ws[i]| <= |vs[i]|
    ensures Total(ws, Length) <= Total(vs, Length)
    ensures Total(ws, Length) == Total(vs, Length) ==> forall i :: 0 <= i < |vs| ==> |ws[i]| == |vs[i]|
  {
    if vs == [] {
    } else {
      TotalAtMost(vs[1..], ws[1..]);
      assert forall i :: 1 <= i < |vs| ==> vs[i] == vs[1..][i - 1] && ws[i] == ws[1..][i - 1];
    }
  }

  /** Without the placeholder nothing grows, so values that are all found are found as they are. */
  lemma FoundAsTheyAre(vs: seq<string>, names: string)
    requires Distinct(vs) && vs != [] && IsNameList(names)
    requires forall i :: 0 <= i < |vs| ==> !Occurs(LABEL_NAMES_PLACEHOLDER, vs[i])
    requires forall i :: 0 <= i < |vs| ==> vs[i] in Split(Through(Join(vs, '|'), names), '|')
    ensures forall i :: 0 <= i < |vs| ==> '|' !in vs[i] && Kept(vs[i], names)
  {
    hide Split, Join, Occurs, Distinct, IsNameList, Total, Through, Tidy;
    var ws := ThroughAll(vs, names);
    JoinThrough(vs, names);
    PartsHaveNoBar(Join(ws, '|'));
    forall i | 0 <= i < |vs| ensures '|' !in ws[i] && |ws[i]| <= |vs[i]| {
      ThroughWithout(vs[i], names);
    }
    SplitJoin(ws, '|');
    TotalOfSome(vs, ws, Length);
    TotalAtMost(vs, ws);
    forall i | 0 <= i < |vs| ensures Kept(vs[i], names) {
      ThroughWithout(vs[i], names);
    }
  }

  lemma ThroughWithout(v: string, names: string)
    requires !Occurs(LABEL_NAMES_PLACEHOLDER, v) && IsNameList(names)
    ensures |Through(v, names)| <= |v|
    ensures |Through(v, names)| == |v| ==> Kept(v, names)
    ensures '|' !in v ==> '|' !in Through(v, names)
  {
    hide ReplaceAll, Occurs, Clean, Tidy, Count;
    ReplaceAbsent(v, LABEL_NAMES_PLACEHOLDER, names);
    CleanShrinks(v);
    CleanIsExact(v);
    CleanKeepsCount(v, '|');
    CountNone(v, '|');
    CountNone(Clean(v), '|');
  }

  /** For several clusters without the placeholder in their values: all are answerable exactly if their
      identifiers are unharmed and have no bars. */
  lemma AnswerableValueByValue(re: Regex, lss: seq<LabelSet>, names: seq<string>)
    requires IsEngine(re) && ArePlainValues(lss, names) && IsGroupOf(lss, names) && |lss| > 1
    requires forall i, n :: 0 <= i < |lss| && n in lss[i] ==> !Occurs(LABEL_NAMES_PLACEHOLDER, lss[i][n])
    ensures (forall i :: 0 <= i < |lss| ==> Answerable(re, lss, names, lss[i]))
       <==> forall i :: 0 <= i < |lss| ==> Unharmed(lss[i], Join(names, ',')) && NoneBarred(lss[i])
  {
    hide Split, Join, Through, Kept, IsLiteral, Occurs, Distinct, NoneShare, IsNameList;
    var l := Join(names, ',');
    assert AreLabelNames(names) by { assert IsOrderOf(names, lss[0].Keys); }
    if names != [] {
      JoinedNames(names);
    }
    if forall i :: 0 <= i < |lss| ==> Answerable(re, lss, names, lss[i]) {
      forall i, n | 0 <= i < |lss| && n in lss[i]
        ensures IsLiteral(lss[i][n]) && Kept(n, l) && Kept(lss[i][n], l) && '|' !in lss[i][n]
      {
        assert IsOrderOf(names, lss[i].Keys) && n in names;
        ValueAsItIs(re, lss, names, n, i);
      }
    }
    if forall i :: 0 <= i < |lss| ==> Unharmed(lss[i], l) && NoneBarred(lss[i]) {
      forall i | 0 <= i < |lss| ensures Answerable(re, lss, names, lss[i]) {
        AnswerableAsItIs(re, lss, names, i);
      }
    }
  }

  lemma ValueAsItIs(re: Regex, lss: seq<LabelSet>, names: seq<string>, n: string, i: nat)
    requires IsEngine(re) && ArePlainValues(lss, names)
    requires IsGroupOf(lss, names) && |lss| > 1 && n in names && i < |lss| && IsNameList(Join(names, ','))
    requires forall i, n :: 0 <= i < |lss| && n in lss[i] ==> !Occurs(LABEL_NAMES_PLACEHOLDER, lss[i][n])
    requires forall i :: 0 <= i < |lss| ==> Legible(lss, names) && Findable(re, lss, names, lss[i])
    ensures n in lss[i] && IsLiteral(lss[i][n]) && Kept(n, Join(names, ',')) && Kept(lss[i][n], Join(names, ',')) && '|' !in lss[i][n]
  {
    hide Split, Join, Through, Kept, IsLiteral, Occurs, Distinct, IsGroupOf, IsNameList;
    DifferentValues(lss, names, n);
    var vs := Values(lss, n);
    assert forall j :: 0 <= j < |lss| ==> vs[j] == lss[j][n] == Label(lss[j], n);
    assert Findable(re, lss, names, lss[i]) && Legible(lss, names);
    assert AreLabelNames(names) by { hide AreLabelNames; GroupNames(lss, names); }
    AlternativesArePlain(lss, names, n);
    forall j | 0 <= j < |lss| ensures vs[j] in Split(Through(Join(vs, '|'), Join(names, ',')), '|') {
      assert Findable(re, lss, names, lss[j]);
    }
    FoundAsTheyAre(vs, Join(names, ','));
    assert vs[i] == lss[i][n];
  }

  lemma GroupNames(lss: seq<LabelSet>, names: seq<string>)
    requires IsGroupOf(lss, names) && lss != []
    ensures AreLabelNames(names)
  {
    assert IsOrderOf(names, lss[0].Keys);
  }

  lemma AnswerableAsItIs(re: Regex, lss: seq<LabelSet>, names: seq<string>, i: nat)
    requires IsEngine(re) && ArePlainValues(lss, names) && IsGroupOf(lss, names) && |lss| > 1 && i < |lss|
    requires forall i :: 0 <= i < |lss| ==> Unharmed(lss[i], Join(names, ',')) && NoneBarred(lss[i])
    ensures Answerable(re, lss, names, lss[i])
  {
    hide Split, Join, Through, Kept, IsLiteral, NoneBarred, NoneShare, AreLabelNames, Distinct;
    forall n | n in names
      ensures Kept(n, Join(names, ',')) && n in lss[i] && Kept(lss[i][n], Join(names, ','))
      ensures forall j :: 0 <= j < |lss| ==> IsLiteral(Label(lss[j], n))
    {
      forall j | 0 <= j < |lss| ensures n in lss[j] && IsLiteral(lss[j][n]) && Kept(n, Join(names, ',')) {
        assert IsOrderOf(names, lss[j].Keys) && Unharmed(lss[j], Join(names, ','));
      }
      assert Unharmed(lss[i], Join(names, ','));
    }
    assert IsOrderOf(names, lss[i].Keys);
    if names != [] {
      FindableWhenKept(re, lss, names, i);
    }
  }

  // ---------- the same series for two clusters ----------

  lemma OwnTextRuns(ls: LabelSet, names: seq<string>, j: nat)
    requires IsOrderOf(names, ls.Keys) && Legible([ls], names) && j < |names|
    ensures names[j] in ls
    ensures Ran(MatcherOf([ls], names[j]), Join(names, ',')) == Matcher(names[j], false, Through(ls[names[j]], Join(names, ',')))
    ensures Readable(Ran(MatcherOf([ls], names[j]), Join(names, ',')))
  {
    hide Kept, Through, Join, IsNameList, IsLabelName, IsLiteral, ReplaceAll, Ran, Readable, Legible, MatcherOf;
    assert names[j] in names;
    LegibleRuns([ls], names, j);
    OwnMatcher(ls, names[j], Join(names, ','));
  }

  /** What the legible query of one cluster selects. */
  lemma SelectsOwn(re: Regex, metric: string, ls: LabelSet, names: seq<string>, s: LabelSet)
    requires IsMetric(metric) && !Occurs(LABEL_NAMES_PLACEHOLDER, metric) && IsOrderOf(names, ls.Keys) && Legible([ls], names)
    ensures Selects(re, RunQuery(metric, [ls], names), metric, s)
       <==> forall n :: n in ls ==> Label(s, n) == Through(ls[n], Join(names, ','))
  {
    hide RunQuery, ReadSelector, ReadMatchers, PrintMatchers, Occurs, IsMetric, Ran;
    hide Join, Through, Legible, Readable, IsLabelName, Distinct, MatcherOf;
    var l := Join(names, ',');
    if names == [] {
      ReadsPlain(metric, [ls]);
    } else {
      var rs := RanAll(Matchers([ls], names), l);
      forall j | 0 <= j < |names|
        ensures names[j] in ls && Readable(rs[j]) && rs[j] == Matcher(names[j], false, Through(ls[names[j]], l))
      {
        OwnTextRuns(ls, names, j);
      }
      ReadsRun(metric, [ls], names);
      ReadsAll(rs, "");
      forall n | n in ls ensures exists j :: 0 <= j < |names| && names[j] == n {
        assert n in names;
      }
    }
  }

  /** Two clusters with the same label names are never given the same series exactly if what came through
      differs for some label. */
  lemma NoSeriesTwiceIsExact(re: Regex, metric: string, a: LabelSet, b: LabelSet, names: seq<string>)
    requires IsMetric(metric) && !Occurs(LABEL_NAMES_PLACEHOLDER, metric) && IsOrderOf(names, a.Keys) && a.Keys == b.Keys
    requires Legible([a], names) && Legible([b], names)
    ensures (forall s: LabelSet :: !(Selects(re, RunQuery(metric, [a], names), metric, s) && Selects(re, RunQuery(metric, [b], names), metric, s)))
       <==> exists n :: n in a && Through(a[n], Join(names, ',')) != Through(b[n], Join(names, ','))
  {
    hide RunQuery, Selects, Occurs, IsMetric, Join, Through, Legible, IsOrderOf;
    var l := Join(names, ',');
    forall s: LabelSet
      ensures Selects(re, RunQuery(metric, [a], names), metric, s)
         <==> forall n :: n in a ==> Label(s, n) == Through(a[n], l)
      ensures Selects(re, RunQuery(metric, [b], names), metric, s)
         <==> forall n :: n in b ==> Label(s, n) == Through(b[n], l)
    {
      SelectsOwn(re, metric, a, names, s);
      SelectsOwn(re, metric, b, names, s);
    }
    if forall n :: n in a ==> Through(a[n], l) == Through(b[n], l) {
      var s: LabelSet := map n | n in a :: Through(a[n], l);
      assert forall n :: n in a ==> Label(s, n) == Through(a[n], l);
      assert Selects(re, RunQuery(metric, [a], names), metric, s) && Selects(re, RunQuery(metric, [b], names), metric, s);
    }
  }

  const DOUBLE: LabelSet := map["site" := "a,,c"]
  const SINGLE: LabelSet := map["site" := "a,c"]

  lemma CommasClean()
    ensures Clean(",,") == "," && Clean(",") == ","
  {
    hide ReplaceAll;
    ShortIsClean();
    ReplaceWhole(",,", "", ",");
    ReplaceShort(",", "{,", "{");
    ReplaceShort(",", ",}", "}");
    ReplaceShort(",", "(,", "(");
    ReplaceShort(",", ",)", ")");
    ReplaceShort(",", " by ()", "");
    ReplaceShort(",", "{}", "");
  }

  lemma LettersAround(x: string, names: string)
    requires |x| < 4
    ensures Through("a" + (x + "c"), names) == "a" + (Clean(x) + "c")
  {
    hide Clean, ReplaceAll;
    EmptyThrough(names);
    assert Through(x, names) == Clean(x) by { ReplaceShort(x, LABEL_NAMES_PLACEHOLDER, names); }
    hide Through;
    ThroughAround("", 'a', x + (['c'] + ""), names);
    ThroughAround(x, 'c', "", names);
    assert "" + (['a'] + (x + (['c'] + ""))) == "a" + (x + "c");
    assert "" + (['a'] + (Clean(x) + (['c'] + ""))) == "a" + (Clean(x) + "c");
  }

  /** `a,,c` comes through as `a,c`. */
  lemma DoubleCommaThrough(names: string)
    ensures Through("a,,c", names) == "a,c" == Through("a,c", names)
  {
    hide Clean, Through;
    CommasClean();
    LettersAround(",,", names);
    LettersAround(",", names);
    assert "a" + (",," + "c") == "a,,c" && "a" + ("," + "c") == "a,c";
  }

  /** So a cluster whose site is `a,,c` can be registered beside one whose site is `a,c`, and is then given
      the series of that one and none of its own. */
  lemma CleanedTogether(re: Regex, metric: string, s: LabelSet)
    requires IsMetric(metric) && !Occurs(LABEL_NAMES_PLACEHOLDER, metric)
    ensures AllCompatible([Spec("first", DOUBLE), Spec("second", SINGLE)])
    ensures Selects(re, RunQuery(metric, [DOUBLE], ["site"]), metric, s) <==> Included(SINGLE, s)
    ensures Included(DOUBLE, s) ==> !Selects(re, RunQuery(metric, [DOUBLE], ["site"]), metric, s)
  {
    hide RunQuery, Selects, Occurs, IsMetric, Through;
    DoubleCommaThrough(Join(["site"], ','));
    SiteIsLegible();
    SelectsOwn(re, metric, DOUBLE, ["site"], s);
    assert DOUBLE["site"] == "a,,c" && SINGLE["site"] == "a,c" && forall n :: n in SINGLE <==> n == "site";
    assert Included(SINGLE, s) <==> Label(s, "site") == "a,c";
  }

  lemma SiteIsLegible()
    ensures IsOrderOf(["site"], DOUBLE.Keys) && Legible([DOUBLE], ["site"])
  {
    hide Tidy, Occurs;
    assert IsLabelName("site");
    LabelNameIsList("site");
    NamesAreTidy("site");
    CharAbsent(LABEL_NAMES_PLACEHOLDER, "site", 0);
    assert Label([DOUBLE][0], "site") == "a,,c" && IsLiteral("a,,c");
  }
}
