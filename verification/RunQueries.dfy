/** The query that is run for a metric and the label sets of a cluster or of a group
    (internal/common/prometheus.go:31-43, internal/common/filter.go:184-255), and what it selects. */
module RunQueries {
  import opened Text
  import opened QueryLabels
  import opened QueryCleaning
  import opened ClusterFilters
  import opened LabelMatchers
  import opened LabelCleaning

  predicate IsMetric(s: string) {
    s != "" && forall i :: 0 <= i < |s| ==> IsLabelNameChar(s[i]) || s[i] == ':'
  }

  /** What is run for a metric's name: with the placeholder embedded, replaced and cleaned up. */
  function RunQuery(metric: string, lss: seq<LabelSet>, names: seq<string>): string {
    ReplacePlaceholders(WithPlaceholder(metric), Join(Printed(lss, names), ','), Join(names, ','))
  }

  // ---------- name texts ----------

  lemma LabelNameIsList(s: string)
    requires s != "" && forall i :: 0 <= i < |s| ==> IsLabelNameChar(s[i])
    ensures IsNameList(s)
  {
  }

  lemma ListsJoin(a: string, b: string)
    requires IsNameList(a) && IsNameList(b)
    ensures IsNameList(a + b) && IsNameList(a + ([','] + b))
  {
    var s, t := a + b, a + ([','] + b);
    forall i | 0 <= i < |s| - 1 ensures s[i] != ',' || s[i + 1] != ',' {
      assert i < |a| - 1 ==> s[i] == a[i] && s[i + 1] == a[i + 1];
      assert i == |a| - 1 ==> s[i] == a[|a| - 1];
      assert i >= |a| ==> s[i] == b[i - |a|] && s[i + 1] == b[i + 1 - |a|];
    }
    forall i | 0 <= i < |t| - 1 ensures t[i] != ',' || t[i + 1] != ',' {
      assert i < |a| - 1 ==> t[i] == a[i] && t[i + 1] == a[i + 1];
      assert i == |a| - 1 ==> t[i] == a[|a| - 1];
      assert i == |a| ==> t[i + 1] == b[0];
      assert i > |a| ==> t[i] == b[i - |a| - 1] && t[i + 1] == b[i - |a|];
    }
  }

  lemma {:induction false} JoinedNames(names: seq<string>)
    requires names != [] && forall i :: 0 <= i < |names| ==> IsLabelName(names[i])
    ensures IsNameList(Join(names, ','))
  {
    hide IsNameList;
    LabelNameIsList(names[0]);
    if |names| == 1 {
    } else {
      JoinedNames(names[1..]);
      ListsJoin(names[0], Join(names[1..], ','));
    }
  }

  /** A label name with the placeholder replaced. */
  lemma {:induction false} NameReplaced(s: string, names: string)
    requires s != "" && (forall i :: 0 <= i < |s| ==> IsLabelNameChar(s[i])) && IsNameList(names)
    ensures IsNameList(ReplaceAll(s, LABEL_NAMES_PLACEHOLDER, names))
    decreases |s|
  {
    hide IsNameList;
    var p := LABEL_NAMES_PLACEHOLDER;
    if |s| < |p| {
      LabelNameIsList(s);
    } else if s[..|p|] == p {
      if s[|p|..] == "" {
        assert ReplaceAll("", p, names) == "" && names + "" == names;
      } else {
        NameReplaced(s[|p|..], names);
        ListsJoin(names, ReplaceAll(s[|p|..], p, names));
      }
    } else {
      LabelNameIsList([s[0]]);
      NameReplaced(s[1..], names);
      ListsJoin([s[0]], ReplaceAll(s[1..], p, names));
    }
  }

  /** Name texts have nothing to clean up, not even behind a comma. */
  lemma NamesAreTidy(x: string)
    requires IsNameList(x)
    ensures Tidy(x) && Tidy([','] + x)
  {
    hide Occurs;
    forall s | s == x || s == [','] + x
      ensures !Occurs("{,", s) && !Occurs(",}", s) && !Occurs("(,", s) && !Occurs(",)", s) && !Occurs(" by ()", s) && !Occurs("{}", s)
    {
      CharAbsent("{,", s, 0);
      CharAbsent(",}", s, 1);
      CharAbsent("(,", s, 0);
      CharAbsent(",)", s, 1);
      CharAbsent(" by ()", s, 0);
      CharAbsent("{}", s, 0);
    }
    NoDoubleComma(x);
  }

  lemma NoDoubleComma(x: string)
    requires IsNameList(x)
    ensures !Occurs(",,", x) && !Occurs(",,", [','] + x)
  {
    forall i ensures !OccursAt(",,", x, i) {
      if 0 <= i <= |x| - 2 {
        assert x[i..i + 2][0] == x[i] && x[i..i + 2][1] == x[i + 1];
      }
    }
    var s := [','] + x;
    forall i ensures !OccursAt(",,", s, i) {
      if 0 <= i <= |s| - 2 {
        assert s[i..i + 2][0] == s[i] && s[i..i + 2][1] == s[i + 1] == x[i];
        assert i > 0 ==> s[i] == x[i - 1];
      }
    }
  }

  lemma TidyBehindBrace(metric: string, x: string)
    requires IsMetric(metric) && IsNameList(x)
    ensures Tidy(metric + ("{" + x))
  {
    var s := metric + ("{" + x);
    var n := |metric|;
    assert forall i :: 0 <= i < |s| ==> s[i] == if i < n then metric[i] else if i == n then '{' else x[i - n - 1];
    CharAbsent(",}", s, 1);
    CharAbsent("(,", s, 0);
    CharAbsent(",)", s, 1);
    CharAbsent(" by ()", s, 0);
    CharAbsent("{}", s, 1);
    forall i ensures !OccursAt(",,", s, i) && !OccursAt("{,", s, i) {
      if 0 <= i <= |s| - 2 {
        assert s[i..i + 2][0] == s[i] && s[i..i + 2][1] == s[i + 1];
      }
    }
  }

  // ---------- the run query, printed ----------

  /** A matcher whose name and text have been through the replacement and the cleaning. */
  function Ran(m: Matcher, names: string): Matcher {
    Matcher(ReplaceAll(m.name, LABEL_NAMES_PLACEHOLDER, names), m.regex, Through(m.text, names))
  }

  function RanAll(ms: seq<Matcher>, names: string): (r: seq<Matcher>)
    ensures |r| == |ms| && forall i :: 0 <= i < |ms| ==> r[i] == Ran(ms[i], names)
  {
    seq(|ms|, i requires 0 <= i < |ms| => Ran(ms[i], names))
  }

  lemma ThroughOp(x: string, m: Matcher, y: string, names: string)
    ensures Through(x + (Op(m) + (['"'] + y)), names) == Through(x, names) + (Op(m) + (['"'] + Through(y, names)))
  {
    hide Through;
    ThroughAround("", '"', y, names);
    EmptyThrough(names);
    assert "" + (['"'] + y) == ['"'] + y && "" + (['"'] + Through(y, names)) == ['"'] + Through(y, names);
    if m.regex {
      ThroughAround(x, '=', "~" + (['"'] + y), names);
      ThroughAround("", '~', ['"'] + y, names);
      assert "" + (['~'] + (['"'] + y)) == "~" + (['"'] + y);
      assert "=~" + (['"'] + y) == ['='] + ("~" + (['"'] + y));
      assert "=~" + (['"'] + Through(y, names)) == ['='] + ("" + (['~'] + (['"'] + Through(y, names))));
    } else {
      ThroughAround(x, '=', ['"'] + y, names);
    }
  }

  lemma EmptyThrough(names: string)
    ensures Through("", names) == ""
  {
    hide Clean;
    ShortIsClean();
    assert ReplaceAll("", LABEL_NAMES_PLACEHOLDER, names) == "";
  }

  /** A printed matcher with text before its name and behind it. */
  lemma ThroughMatcher(pre: string, m: Matcher, y: string, names: string)
    ensures Through(pre + (PrintMatcher(m) + y), names)
         == Through(pre + m.name, names) + (Op(m) + (['"'] + (Through(m.text, names) + (['"'] + Through(y, names)))))
  {
    hide Through, PrintMatcher;
    PrintedParts(m, y);
    Assoc(pre, m.name, Op(m) + (['"'] + (m.text + (['"'] + y))));
    ThroughOp(pre + m.name, m, m.text + (['"'] + y), names);
    ThroughAround(m.text, '"', y, names);
  }

  /** If the name comes through behind that text, the whole is the printed matcher that ran. */
  lemma ThroughNamed(pre: string, m: Matcher, y: string, names: string)
    requires Through(pre + m.name, names) == pre + Ran(m, names).name
    ensures Through(pre + (PrintMatcher(m) + y), names) == pre + (PrintMatcher(Ran(m, names)) + Through(y, names))
  {
    hide Through, PrintMatcher;
    var r := Ran(m, names);
    ThroughMatcher(pre, m, y, names);
    PrintedParts(r, Through(y, names));
    assert Op(r) == Op(m);
    Assoc(pre, r.name, Op(r) + (['"'] + (r.text + (['"'] + Through(y, names)))));
  }

  lemma NameBehindComma(name: string, names: string)
    requires IsLabelName(name) && IsNameList(names)
    ensures Through([','] + name, names) == [','] + ReplaceAll(name, LABEL_NAMES_PLACEHOLDER, names)
  {
    hide ReplaceAll, Clean, IsNameList, Tidy;
    var p := LABEL_NAMES_PLACEHOLDER;
    assert "" + ([','] + name) == [','] + name;
    ReplaceAround("", ',', name, p, names);
    ReplaceShort("", p, names);
    assert "" + ([','] + ReplaceAll(name, p, names)) == [','] + ReplaceAll(name, p, names);
    NameReplaced(name, names);
    NamesAreTidy(ReplaceAll(name, p, names));
    TidyStays([','] + ReplaceAll(name, p, names));
  }

  lemma NameBehindBrace(metric: string, name: string, names: string)
    requires IsMetric(metric) && !Occurs(LABEL_NAMES_PLACEHOLDER, metric) && IsLabelName(name) && IsNameList(names)
    ensures Through((metric + "{") + name, names) == (metric + "{") + ReplaceAll(name, LABEL_NAMES_PLACEHOLDER, names)
  {
    hide ReplaceAll, Clean, IsNameList, Tidy, IsMetric, Occurs;
    var p := LABEL_NAMES_PLACEHOLDER;
    assert (metric + "{") + name == metric + (['{'] + name);
    ReplaceAround(metric, '{', name, p, names);
    ReplaceAbsent(metric, p, names);
    NameReplaced(name, names);
    var r := ReplaceAll(name, p, names);
    TidyBehindBrace(metric, r);
    assert metric + ("{" + r) == (metric + "{") + r;
    TidyStays(metric + ("{" + r));
  }

  predicate AllNamed(ms: seq<Matcher>) {
    forall i :: 0 <= i < |ms| ==> IsLabelName(ms[i].name)
  }

  lemma {:induction false} ThroughBehind(ms: seq<Matcher>, names: string)
    requires AllNamed(ms) && IsNameList(names)
    ensures Through(Behind(ms, ""), names) == Behind(RanAll(ms, names), "")
    decreases |ms|
  {
    hide Through, PrintMatcher, IsNameList, IsLabelName, Ran;
    if ms == [] {
      assert Behind([], "") == "}" && RanAll(ms, names) == [];
      BraceThrough(names);
    } else {
      ThroughBehind(ms[1..], names);
      var m, rest := ms[0], RanAll(ms, names);
      assert RanAll(ms[1..], names) == rest[1..];
      BehindFirst(ms);
      BehindFirst(rest);
      NameBehindComma(m.name, names);
      assert Ran(m, names).name == ReplaceAll(m.name, LABEL_NAMES_PLACEHOLDER, names) by { RanName(m, names); }
      ThroughNamed([','], m, Behind(ms[1..], ""), names);
    }
  }

  lemma RanName(m: Matcher, names: string)
    ensures Ran(m, names).name == ReplaceAll(m.name, LABEL_NAMES_PLACEHOLDER, names)
    ensures Ran(m, names).regex == m.regex && Ran(m, names).text == Through(m.text, names)
  {
  }

  lemma BehindFirst(ms: seq<Matcher>)
    requires ms != []
    ensures Behind(ms, "") == [','] + (PrintMatcher(ms[0]) + Behind(ms[1..], ""))
  {
    hide PrintMatcher, PrintMatchers, Behind;
    BehindParts(ms, "");
    PrintedFirst(ms, "");
    var b := Behind(ms, "");
    assert b == [b[0]] + b[1..];
  }

  lemma BraceThrough(names: string)
    ensures Through("}", names) == "}"
  {
    hide ReplaceAll;
    ReplaceShort("}", LABEL_NAMES_PLACEHOLDER, names);
    ReplaceShort("}", ",,", ",");
    ReplaceShort("}", "{,", "{");
    ReplaceShort("}", ",}", "}");
    ReplaceShort("}", "(,", "(");
    ReplaceShort("}", ",)", ")");
    ReplaceShort("}", " by ()", "");
    ReplaceShort("}", "{}", "");
  }

  /** The printed selector with its matchers comes through matcher by matcher. */
  lemma ThroughSelector(metric: string, ms: seq<Matcher>, names: string)
    requires IsMetric(metric) && !Occurs(LABEL_NAMES_PLACEHOLDER, metric)
    requires ms != [] && AllNamed(ms) && IsNameList(names)
    ensures Through((metric + "{") + (PrintMatchers(ms) + "}"), names) == (metric + "{") + (PrintMatchers(RanAll(ms, names)) + "}")
  {
    hide Through, PrintMatcher, PrintMatchers, IsNameList, IsLabelName, Ran, IsMetric, Occurs;
    var rs := RanAll(ms, names);
    PrintedFirst(ms, "");
    PrintedFirst(rs, "");
    assert ['}'] + "" == "}";
    ThroughBehind(ms[1..], names);
    assert RanAll(ms[1..], names) == rs[1..];
    RanName(ms[0], names);
    NameBehindBrace(metric, ms[0].name, names);
    ThroughNamed(metric + "{", ms[0], Behind(ms[1..], ""), names);
  }

  // ---------- the run query, read ----------

  /** The matchers of a filter. */
  function Matchers(lss: seq<LabelSet>, names: seq<string>): (ms: seq<Matcher>)
    ensures |ms| == |names| && forall i :: 0 <= i < |names| ==> ms[i] == MatcherOf(lss, names[i]) && ms[i].name == names[i]
  {
    seq(|names|, i requires 0 <= i < |names| => MatcherOf(lss, names[i]))
  }

  lemma {:induction false} PrintedMatchers(lss: seq<LabelSet>, names: seq<string>)
    ensures Join(Printed(lss, names), ',') == PrintMatchers(Matchers(lss, names))
    decreases |names|
  {
    hide MatcherOf, PrintMatcher;
    if names == [] {
    } else {
      PrintedMatchers(lss, names[1..]);
      assert Printed(lss, names)[1..] == Printed(lss, names[1..]);
      assert Matchers(lss, names)[1..] == Matchers(lss, names[1..]);
    }
  }

  /** Embedding and replacing the labels placeholder for a metric's name. */
  lemma MetricWithLabels(metric: string, labels: string)
    requires IsMetric(metric)
    ensures ReplaceAll(WithPlaceholder(metric), LABELS_PLACEHOLDER, labels) == metric + ("{" + (labels + "}"))
  {
    hide ReplaceAll, Occurs;
    var ph := LABELS_PLACEHOLDER;
    assert '}' !in metric && ')' !in metric && '#' !in metric;
    PlaceholderChars();
    CharAbsent(ph, metric, 0);
    ReplaceAround(metric, '{', ph + "}", ph, labels);
    ReplaceAbsent(metric, ph, labels);
    ReplaceWhole(ph, "}", labels);
    ReplaceShort("}", ph, labels);
  }

  predicate AreLabelNames(names: seq<string>) {
    forall i :: 0 <= i < |names| ==> IsLabelName(names[i])
  }

  /** What ran is the metric with the matchers that came through. */
  lemma RunQueryIs(metric: string, lss: seq<LabelSet>, names: seq<string>)
    requires IsMetric(metric) && !Occurs(LABEL_NAMES_PLACEHOLDER, metric)
    requires names != [] && AreLabelNames(names)
    ensures RunQuery(metric, lss, names)
         == metric + (['{'] + (PrintMatchers(RanAll(Matchers(lss, names), Join(names, ','))) + "}"))
  {
    hide ReplaceAll, Clean, PrintMatchers, Occurs, IsMetric, IsLabelName, WithPlaceholder, MatcherOf, Join;
    var ms := Matchers(lss, names);
    PrintedMatchers(lss, names);
    MetricWithLabels(metric, PrintMatchers(ms));
    JoinedNames(names);
    ThroughSelector(metric, ms, Join(names, ','));
    Assoc(metric, "{", PrintMatchers(ms) + "}");
    Assoc(metric, "{", PrintMatchers(RanAll(ms, Join(names, ','))) + "}");
  }

  /** Without label names the selector disappears. */
  lemma RunQueryPlain(metric: string, lss: seq<LabelSet>)
    requires IsMetric(metric) && !Occurs(LABEL_NAMES_PLACEHOLDER, metric)
    ensures RunQuery(metric, lss, []) == metric
  {
    hide ReplaceAll, Clean, Occurs;
    var p := LABEL_NAMES_PLACEHOLDER;
    MetricWithLabels(metric, "");
    assert metric + ("{" + ("" + "}")) == metric + (['{'] + "}");
    ReplaceAround(metric, '{', "}", p, "");
    ReplaceAbsent(metric, p, "");
    ReplaceShort("}", p, "");
    EmptySelectorVanishes(metric);
  }

  lemma EmptySelectorVanishes(metric: string)
    requires IsMetric(metric)
    ensures Clean(metric + (['{'] + "}")) == metric
  {
    hide ReplaceAll, Occurs;
    var s := metric + "{}";
    assert metric + (['{'] + "}") == s;
    CharAbsent(",,", s, 0);
    CharAbsent("{,", s, 1);
    CharAbsent(",}", s, 0);
    CharAbsent("(,", s, 0);
    CharAbsent(",)", s, 0);
    CharAbsent(" by ()", s, 0);
    ReplaceAbsent(s, ",,", ",");
    ReplaceAbsent(s, "{,", "{");
    ReplaceAbsent(s, ",}", "}");
    ReplaceAbsent(s, "(,", "(");
    ReplaceAbsent(s, ",)", ")");
    ReplaceAbsent(s, " by ()", "");
    assert '{' !in metric && '{' !in "{}"[1..];
    CharAbsent("{}", metric, 0);
    ReplaceSplit(metric, "{}", "{}", "");
    ReplaceAbsent(metric, "{}", "");
    ReplaceWhole("{}", "", "");
    assert metric + "" == metric;
  }

  /** What a query of one metric selects. */
  predicate Selects(re: Regex, text: string, metric: string, s: LabelSet) {
    match ReadSelector(text)
    case None => false
    case Some((m, ms)) => m == metric && forall i :: 0 <= i < |ms| ==> Matches(re, s, ms[i])
  }

  lemma ReadsRun(metric: string, lss: seq<LabelSet>, names: seq<string>)
    requires IsMetric(metric) && !Occurs(LABEL_NAMES_PLACEHOLDER, metric)
    requires names != [] && AreLabelNames(names)
    ensures var r := ReadMatchers(PrintMatchers(RanAll(Matchers(lss, names), Join(names, ','))) + (['}'] + ""));
            ReadSelector(RunQuery(metric, lss, names))
            == if r.Some? && r.value.1 == "" then Some((metric, r.value.0)) else None
  {
    hide RunQuery, ReadMatchers, PrintMatchers, Occurs, AreLabelNames, IndexFrom, MatcherOf, Ran, Join;
    RunQueryIs(metric, lss, names);
    var body := PrintMatchers(RanAll(Matchers(lss, names), Join(names, ','))) + (['}'] + "");
    assert ['}'] + "" == "}";
    var s := RunQuery(metric, lss, names);
    assert s[|metric|] == '{' && s[|metric| + 1..] == body && s[..|metric|] == metric;
    assert forall k :: 0 <= k < |metric| ==> s[k] == metric[k] != '{';
    IndexOfEnd(s, '{', 0, |metric|);
  }

  lemma ReadsPlain(metric: string, lss: seq<LabelSet>)
    requires IsMetric(metric) && !Occurs(LABEL_NAMES_PLACEHOLDER, metric)
    ensures ReadSelector(RunQuery(metric, lss, [])) == Some((metric, []))
  {
    hide RunQuery, ReadMatchers, Occurs;
    RunQueryPlain(metric, lss);
    assert metric[0..] == metric && '{' !in metric;
  }

  // ---------- quotes and backslashes come through ----------

  lemma ThroughKeepsCount(x: string, names: string, c: char)
    requires IsNameList(names) && c !in TOUCHED && c !in names
    ensures Count(Through(x, names), c) == Count(x, c)
  {
    hide ReplaceAll, Clean;
    CountKept(x, LABEL_NAMES_PLACEHOLDER, names, c);
    CleanKeepsCount(ReplaceAll(x, LABEL_NAMES_PLACEHOLDER, names), c);
  }

  lemma MarksComeThrough(x: string, names: string)
    requires IsNameList(names)
    ensures forall c :: c in {'"', '\\', '\n'} ==>
              Count(Through(x, names), c) == Count(x, c) && (c in Through(x, names) <==> c in x)
  {
    hide Through, Count;
    forall c | c in {'"', '\\', '\n'}
      ensures Count(Through(x, names), c) == Count(x, c) && (c in Through(x, names) <==> c in x)
    {
      assert c !in names && c !in TOUCHED;
      ThroughKeepsCount(x, names, c);
      CountNone(x, c);
      CountNone(Through(x, names), c);
    }
  }

  lemma SameMarks(v: string, names: string)
    requires IsNameList(names)
    ensures var w := Through(v, names);
            ('"' in v <==> '"' in w) && Count(BeforeQuote(v), '\\') == Count(BeforeQuote(w), '\\')
    ensures IsLiteral(Through(v, names)) <==> IsLiteral(v)
  {
    hide Through, Count, BeforeQuote;
    MarksComeThrough(v, names);
    if '"' in v {
      var y, rest := CutAt(v, '"');
      ThroughAround(y, '"', rest, names);
      MarksComeThrough(y, names);
      QuoteAt(y, rest);
      QuoteAt(Through(y, names), Through(rest, names));
    }
  }

  lemma QuoteAt(y: string, rest: string)
    requires '"' !in y
    ensures BeforeQuote(y + (['"'] + rest)) == y
  {
    hide BeforeQuote;
    assert y + "\"" == (y + (['"'] + rest))[..|y| + 1];
    SamePrefix(y + (['"'] + rest), y);
  }

  // ---------- what the query of one cluster selects ----------

  /** The label names in the order in which they are printed. */
  ghost predicate IsOrderOf(names: seq<string>, keys: set<string>) {
    AreLabelNames(names) && Distinct(names) && forall n :: n in names <==> n in keys
  }

  /** Names and texts come through, and the texts are such as a literal can hold. */
  ghost predicate Intact(m: Matcher, names: string) {
    Kept(m.name, names) && Kept(m.text, names) && IsLiteral(m.text)
  }

  /** A label name's own replacement is all that can happen to it. */
  lemma NameKept(name: string, names: string)
    requires IsLabelName(name) && IsNameList(names)
    ensures Kept(name, names) <==> ReplaceAll(name, LABEL_NAMES_PLACEHOLDER, names) == name
  {
    hide ReplaceAll, Clean, IsNameList, Kept, Tidy;
    var r := ReplaceAll(name, LABEL_NAMES_PLACEHOLDER, names);
    ThroughIsExact(name, names);
    assert IsNameList(r) by { NameCharsReplaced(name, names); }
    NamesAreTidy(r);
    TidyStays(r);
  }

  lemma NameCharsReplaced(name: string, names: string)
    requires IsLabelName(name) && IsNameList(names)
    ensures IsNameList(ReplaceAll(name, LABEL_NAMES_PLACEHOLDER, names))
  {
    NameReplaced(name, names);
  }

  lemma IntactIsExact(m: Matcher, names: string)
    requires IsLabelName(m.name) && IsNameList(names)
    ensures Intact(m, names) <==> Ran(m, names) == m && Readable(m)
  {
    hide ReplaceAll, Clean, IsNameList, Kept, IsLabelName, IsLiteral;
    NameKept(m.name, names);
    ThroughIsExact(m.text, names);
  }

  /** The first matcher that is not intact is not read as it was meant. */
  lemma ReadsOff(ms: seq<Matcher>, names: string, i: nat)
    requires i < |ms| && AllNamed(ms) && IsNameList(names)
    requires !Intact(ms[i], names) && forall j :: 0 <= j < i ==> Intact(ms[j], names)
    ensures var r := ReadMatchers(PrintMatchers(RanAll(ms, names)) + (['}'] + ""));
            r.Some? ==> |r.value.0| > i && var got := r.value.0[i];
              && IsLabelName(got.name) && got.regex == ms[i].regex && got.name == Ran(ms[i], names).name
              && (got.name == ms[i].name ==> got.text != ms[i].text)
  {
    hide PrintMatchers, ReadMatchers, IsNameList, IsLabelName, Intact, Ran, Behind, ReadLiteral, Through;
    var rs := RanAll(ms, names);
    forall j | 0 <= j < i ensures Readable(rs[j]) {
      IntactIsExact(ms[j], names);
    }
    RanNameIsText(ms[i], names);
    ReadsUpTo(rs, i, "");
    var m, r := ms[i], ReadMatchers(PrintMatchers(rs) + (['}'] + ""));
    RanName(m, names);
    IntactIsExact(m, names);
    if r.Some? && r.value.0[i].name == m.name && r.value.0[i].text == m.text {
      SameMarks(m.text, names);
      TakenRight(m.text, rs[i].text, Behind(rs[i + 1..], ""));
    }
  }

  lemma RanNameIsText(m: Matcher, names: string)
    requires IsLabelName(m.name) && IsNameList(names)
    ensures IsNameText(Ran(m, names).name)
  {
    NameReplaced(m.name, names);
  }

  lemma FirstOff(ms: seq<Matcher>, names: string) returns (i: nat)
    requires exists i :: 0 <= i < |ms| && !Intact(ms[i], names)
    ensures i < |ms| && !Intact(ms[i], names) && forall j :: 0 <= j < i ==> Intact(ms[j], names)
  {
    hide Intact;
    i := 0;
    while Intact(ms[i], names)
      invariant i < |ms| && forall j :: 0 <= j < i ==> Intact(ms[j], names)
      decreases |ms| - i
    {
      i := i + 1;
    }
  }

  /** If all matchers are intact, the query that ran selects with them. */
  lemma SelectsIntact(re: Regex, metric: string, lss: seq<LabelSet>, names: seq<string>, s: LabelSet)
    requires IsMetric(metric) && !Occurs(LABEL_NAMES_PLACEHOLDER, metric) && AreLabelNames(names)
    requires forall i :: 0 <= i < |names| ==> Intact(MatcherOf(lss, names[i]), Join(names, ','))
    ensures Selects(re, RunQuery(metric, lss, names), metric, s)
       <==> forall i :: 0 <= i < |names| ==> Matches(re, s, MatcherOf(lss, names[i]))
  {
    hide RunQuery, ReadSelector, ReadMatchers, PrintMatchers, Occurs, Matches, MatcherOf;
    hide IsMetric, Intact, Ran, Join, IsNameList, Readable;
    if names == [] {
      ReadsPlain(metric, lss);
    } else {
      var ms, l := Matchers(lss, names), Join(names, ',');
      JoinedNames(names);
      forall i | 0 <= i < |ms| ensures Ran(ms[i], l) == ms[i] && Readable(ms[i]) {
        IntactIsExact(ms[i], l);
      }
      assert RanAll(ms, l) == ms;
      ReadsRun(metric, lss, names);
      ReadsAll(ms, "");
    }
  }

  ghost predicate Unharmed(ls: LabelSet, names: string) {
    forall n :: n in ls ==> IsLiteral(ls[n]) && Kept(n, names) && Kept(ls[n], names)
  }

  predicate NoneEmpty(ls: LabelSet) {
    forall n :: n in ls ==> ls[n] != ""
  }

  lemma OwnMatcher(ls: LabelSet, n: string, names: string)
    requires n in ls
    ensures MatcherOf([ls], n) == Matcher(n, false, ls[n])
    ensures Intact(MatcherOf([ls], n), names) <==> IsLiteral(ls[n]) && Kept(n, names) && Kept(ls[n], names)
  {
    hide Kept, IsLiteral;
    var vs := Values([ls], n);
    assert vs[0] == Label([ls][0], n) == ls[n];
  }

  /** The series that the identifiers of a cluster are included in, label by label. */
  lemma IncludedByLabel(re: Regex, ls: LabelSet, names: seq<string>, s: LabelSet)
    requires IsOrderOf(names, ls.Keys) && NoneEmpty(ls)
    ensures Included(ls, s) <==> forall i :: 0 <= i < |names| ==> Matches(re, s, MatcherOf([ls], names[i]))
  {
    hide IsLabelName;
    forall i | 0 <= i < |names| ensures Matches(re, s, MatcherOf([ls], names[i])) <==> Contains(s, names[i], ls[names[i]]) {
      OwnMatcher(ls, names[i], "");
    }
    if forall i :: 0 <= i < |names| ==> Matches(re, s, MatcherOf([ls], names[i])) {
      forall n | n in ls ensures Contains(s, n, ls[n]) {
        assert n in names;
        var i :| 0 <= i < |names| && names[i] == n;
      }
    }
  }

  /** The query that is run for a cluster selects exactly the series with its identifiers if these come
      through unharmed, and none is empty. */
  lemma OwnFilterIsInclusion(re: Regex, metric: string, ls: LabelSet, names: seq<string>, s: LabelSet)
    requires IsMetric(metric) && !Occurs(LABEL_NAMES_PLACEHOLDER, metric) && IsOrderOf(names, ls.Keys)
    requires Unharmed(ls, Join(names, ',')) && NoneEmpty(ls)
    ensures Selects(re, RunQuery(metric, [ls], names), metric, s) <==> Included(ls, s)
  {
    hide RunQuery, Occurs, Matches, MatcherOf, Kept, IsLiteral, Selects, Included, Join, IsMetric, Intact;
    forall i | 0 <= i < |names| ensures Intact(MatcherOf([ls], names[i]), Join(names, ',')) {
      assert names[i] in names;
      OwnMatcher(ls, names[i], Join(names, ','));
    }
    SelectsIntact(re, metric, [ls], names, s);
    IncludedByLabel(re, ls, names, s);
  }

  // ---------- and when it does not ----------

  lemma CommaInName(name: string, names: seq<string>)
    requires |names| > 1 && AreLabelNames(names) && IsLabelName(name)
    requires ReplaceAll(name, LABEL_NAMES_PLACEHOLDER, Join(names, ',')) != name
    ensures !IsLabelName(ReplaceAll(name, LABEL_NAMES_PLACEHOLDER, Join(names, ',')))
  {
    hide ReplaceAll, Join, Occurs;
    var p, l := LABEL_NAMES_PLACEHOLDER, Join(names, ',');
    if !Occurs(p, name) {
      ReplaceAbsent(name, p, l);
    } else {
      var a, b := FirstReplaced(name, l);
      var r := ReplaceAll(name, p, l);
      JoinHasComma(names);
      assert r == a + (l + ReplaceAll(b, p, l));
      var k :| 0 <= k < |l| && l[k] == ',';
      assert r[|a| + k] == ',';
    }
  }

  lemma JoinHasComma(names: seq<string>)
    requires |names| > 1
    ensures ',' in Join(names, ',')
  {
    assert Join(names, ',')[|names[0]|] == ',';
  }

  /** A text that the matcher does not accept. */
  function Other(m: Matcher): (v: string)
    ensures if m.regex then v !in Split(m.text, '|') else v != m.text
  {
    if m.regex then PartsHaveNoBar(m.text); "|" else if m.text == "" then "x" else ""
  }

  lemma {:induction false} PartsHaveNoBar(s: string)
    ensures forall p :: p in Split(s, '|') ==> '|' !in p
    decreases |s|
  {
    var k := IndexFrom(s, '|', 0);
    if k == -1 {
      assert s[0..] == s;
    } else {
      PartsHaveNoBar(s[k + 1..]);
    }
  }

  /** A matcher for another label does not select some series that includes the label set. */
  lemma OtherLabelMissed(re: Regex, ls: LabelSet, got: Matcher) returns (s: LabelSet)
    requires got.name !in ls && (got.regex ==> IsEngine(re) && IsPlainPattern(got.text))
    ensures Included(ls, s) && !Matches(re, s, got)
  {
    hide Split;
    s := ls[got.name := Other(got)];
  }

  lemma OffIndex(ls: LabelSet, names: seq<string>) returns (i: nat)
    requires IsOrderOf(names, ls.Keys) && !Unharmed(ls, Join(names, ','))
    ensures i < |names| && !Intact(MatcherOf([ls], names[i]), Join(names, ','))
    ensures forall j :: 0 <= j < i ==> Intact(MatcherOf([ls], names[j]), Join(names, ','))
  {
    hide MatcherOf, Intact, Kept, IsLiteral, Join, IsLabelName;
    var l, ms := Join(names, ','), Matchers([ls], names);
    var n :| n in ls && !(IsLiteral(ls[n]) && Kept(n, l) && Kept(ls[n], l));
    assert n in names;
    var k :| 0 <= k < |names| && names[k] == n;
    OwnMatcher(ls, n, l);
    assert !Intact(ms[k], l);
    i := FirstOff(ms, l);
    assert forall j :: 0 <= j < |ms| ==> ms[j] == MatcherOf([ls], names[j]);
  }

  /** A label set with a matcher that is not intact has a series that the query misses. */
  lemma OffIsMissed(re: Regex, metric: string, ls: LabelSet, names: seq<string>) returns (s: LabelSet)
    requires IsMetric(metric) && !Occurs(LABEL_NAMES_PLACEHOLDER, metric) && IsOrderOf(names, ls.Keys)
    requires !Unharmed(ls, Join(names, ','))
    ensures Included(ls, s) && !Selects(re, RunQuery(metric, [ls], names), metric, s)
  {
    hide RunQuery, ReadMatchers, PrintMatchers, Occurs, Matches, IsMetric, Intact;
    hide Unharmed, Join, IsNameList, Ran, MatcherOf, IsLabelName, Included;
    var l, ms := Join(names, ','), Matchers([ls], names);
    var i := OffIndex(ls, names);
    JoinedNames(names);
    ReadsOff(ms, l, i);
    ReadsRun(metric, [ls], names);
    RanName(ms[i], l);
    assert names[i] in names;
    OwnMatcher(ls, names[i], l);
    var r := ReadMatchers(PrintMatchers(RanAll(ms, l)) + (['}'] + ""));
    if r.Some? {
      s := OneOffIsMissed(re, ls, names, i, r.value.0[i]);
    } else {
      s := ls;
      assert Included(ls, ls) by { SelfIncluded(ls); }
    }
  }

  lemma SelfIncluded(ls: LabelSet)
    ensures Included(ls, ls)
  {
  }

  lemma OneOffIsMissed(re: Regex, ls: LabelSet, names: seq<string>, i: nat, got: Matcher) returns (s: LabelSet)
    requires IsOrderOf(names, ls.Keys) && i < |names| && IsLabelName(got.name) && !got.regex
    requires got.name == ReplaceAll(names[i], LABEL_NAMES_PLACEHOLDER, Join(names, ','))
    requires got.name == names[i] ==> got.text != MatcherOf([ls], names[i]).text
    ensures Included(ls, s) && !Matches(re, s, got)
  {
    hide ReplaceAll, Join, IsLabelName, MatcherOf;
    assert names[i] in names;
    OwnMatcher(ls, names[i], "");
    if got.name == names[i] {
      s := ls;
    } else {
      if |names| > 1 {
        CommaInName(names[i], names);
      }
      assert forall n :: n in ls ==> n in names;
      s := OtherLabelMissed(re, ls, got);
    }
  }

  /** It does for all series only then. */
  lemma OwnFilterIsExact(re: Regex, metric: string, ls: LabelSet, names: seq<string>)
    requires IsMetric(metric) && !Occurs(LABEL_NAMES_PLACEHOLDER, metric) && IsOrderOf(names, ls.Keys)
    ensures (forall s: LabelSet :: Selects(re, RunQuery(metric, [ls], names), metric, s) <==> Included(ls, s))
       <==> Unharmed(ls, Join(names, ',')) && NoneEmpty(ls)
  {
    hide RunQuery, Selects, Occurs, IsMetric, Unharmed, IsOrderOf, Join;
    var q := RunQuery(metric, [ls], names);
    if !Unharmed(ls, Join(names, ',')) {
      var s := OffIsMissed(re, metric, ls, names);
    } else if !NoneEmpty(ls) {
      var s := EmptyMatchesAbsent(re, metric, ls, names);
    } else {
      forall s: LabelSet ensures Selects(re, q, metric, s) <==> Included(ls, s) {
        OwnFilterIsInclusion(re, metric, ls, names, s);
      }
    }
  }

  /** An absent label matches the empty text. */
  lemma EmptyMatchesAbsent(re: Regex, metric: string, ls: LabelSet, names: seq<string>) returns (s: LabelSet)
    requires IsMetric(metric) && !Occurs(LABEL_NAMES_PLACEHOLDER, metric) && IsOrderOf(names, ls.Keys)
    requires Unharmed(ls, Join(names, ',')) && !NoneEmpty(ls)
    ensures !Included(ls, s) && Selects(re, RunQuery(metric, [ls], names), metric, s)
  {
    hide RunQuery, Selects, Occurs, IsMetric, Join, Kept, IsLiteral, MatcherOf, Intact, AreLabelNames;
    var n :| n in ls && ls[n] == "";
    s := ls - {n};
    forall i | 0 <= i < |names|
      ensures Intact(MatcherOf([ls], names[i]), Join(names, ',')) && Matches(re, s, MatcherOf([ls], names[i]))
    {
      assert names[i] in names;
      OwnMatcher(ls, names[i], Join(names, ','));
    }
    SelectsIntact(re, metric, [ls], names, s);
    assert !Contains(s, n, ls[n]);
  }

  // ---------- intact labels in any query ----------

  lemma PartsOfTidy(a: string, s: string, b: string)
    requires Tidy(a + (s + b))
    ensures Tidy(s)
  {
    hide Occurs;
    OccursInPart(",,", a, s, b);
    OccursInPart("{,", a, s, b);
    OccursInPart(",}", a, s, b);
    OccursInPart("(,", a, s, b);
    OccursInPart(",)", a, s, b);
    OccursInPart(" by ()", a, s, b);
    OccursInPart("{}", a, s, b);
  }

  lemma {:induction false} PrintedEnds(ms: seq<Matcher>)
    requires ms != [] && AllNamed(ms)
    ensures var s := PrintMatchers(ms); s != "" && IsLabelNameChar(s[0]) && s[|s| - 1] == '"'
    decreases |ms|
  {
    NoBraceFirst(ms[0]);
    if |ms| > 1 {
      PrintedEnds(ms[1..]);
    }
  }

  predicate NoneBraced(ms: seq<Matcher>) {
    forall i :: 0 <= i < |ms| ==> '}' !in ms[i].text
  }

  ghost predicate AllIntact(ms: seq<Matcher>, names: string) {
    forall i :: 0 <= i < |ms| ==> Intact(ms[i], names)
  }

  lemma {:induction false} PrintedBraces(ms: seq<Matcher>)
    requires AllNamed(ms) && NoneBraced(ms)
    ensures '}' !in PrintMatchers(ms)
    decreases |ms|
  {
    if ms != [] {
      assert '}' !in PrintMatcher(ms[0]);
      if |ms| > 1 {
        PrintedBraces(ms[1..]);
      }
    }
  }

  lemma IntactIsTidy(ms: seq<Matcher>, names: string)
    requires ms != [] && AllNamed(ms) && IsNameList(names) && names != LABEL_NAMES_PLACEHOLDER
    requires AllIntact(ms, names)
    ensures Tidy(PrintMatchers(ms)) && !Occurs(LABEL_NAMES_PLACEHOLDER, PrintMatchers(ms))
  {
    hide PrintMatchers, Occurs, Through, Tidy, Intact, Ran, IsNameList, IsLabelName, ReplaceAll;
    var labels := PrintMatchers(ms);
    forall i | 0 <= i < |ms| ensures Ran(ms[i], names) == ms[i] {
      IntactIsExact(ms[i], names);
    }
    assert RanAll(ms, names) == ms;
    CharAbsent(LABEL_NAMES_PLACEHOLDER, "m", 0);
    ThroughSelector("m", ms, names);
    ThroughIsExact(("m" + "{") + (labels + "}"), names);
    PartsOfTidy("m" + "{", labels, "}");
    OccursInPart(LABEL_NAMES_PLACEHOLDER, "m" + "{", labels, "}");
  }

  /** Printed matchers that are intact and hold no closing brace are labels that survive in any query. */
  lemma IntactLabels(ms: seq<Matcher>, names: string)
    requires ms != [] && AllNamed(ms) && IsNameList(names) && names != LABEL_NAMES_PLACEHOLDER
    requires AllIntact(ms, names) && NoneBraced(ms)
    ensures AreTidyLabels(PrintMatchers(ms)) && !Occurs(LABEL_NAMES_PLACEHOLDER, PrintMatchers(ms))
  {
    hide PrintMatchers, Occurs, Tidy, Intact, IsNameList, IsLabelName;
    hide IsLabelNameChar, AreTidyLabels, AllIntact, NoneBraced, AllNamed;
    IntactIsTidy(ms, names);
    PrintedEnds(ms);
    PrintedBraces(ms);
    TextIsTidyLabels(PrintMatchers(ms));
  }

  lemma TextIsTidyLabels(s: string)
    requires Tidy(s) && s != "" && IsLabelNameChar(s[0]) && s[|s| - 1] == '"' && '}' !in s
    ensures AreTidyLabels(s)
  {
    hide Tidy, Occurs;
    TidyMeans(s);
  }

  lemma TidyMeans(s: string)
    requires Tidy(s)
    ensures !Occurs(",,", s)
  {
  }
}
