/** Replacing the placeholders and cleaning up (internal/common/filter.go, `replacePlaceholders` and
    `cleanQuery`), on the queries that `QueryLabels` embeds. */
module QueryCleaning {
  import opened Text
  import opened QueryLabels

  /** The first three replacements: the commas around labels. */
  function CleanLabels(query: string): string {
    ReplaceAll(ReplaceAll(ReplaceAll(query, ",,", ","), "{,", "{"), ",}", "}")
  }

  /** The rest: commas in parentheses, then empty clauses and selectors. */
  function CleanClauses(s: string): string {
    ReplaceAll(ReplaceAll(ReplaceAll(ReplaceAll(s, "(,", "("), ",)", ")"), " by ()", ""), "{}", "")
  }

  /** `cleanQuery`. */
  function Clean(query: string): string {
    CleanClauses(CleanLabels(query))
  }

  /** `replacePlaceholders` of a filter. */
  function ReplacePlaceholders(query: string, labels: string, labelNames: string): string {
    Clean(ReplaceAll(ReplaceAll(query, LABELS_PLACEHOLDER, labels), LABEL_NAMES_PLACEHOLDER, labelNames))
  }

  lemma PlaceholderChars()
    ensures ',' !in LABELS_PLACEHOLDER && '{' !in LABELS_PLACEHOLDER && '}' !in LABELS_PLACEHOLDER
    ensures ',' !in LABEL_NAMES_PLACEHOLDER && '{' !in LABEL_NAMES_PLACEHOLDER && '}' !in LABEL_NAMES_PLACEHOLDER
    ensures LABELS_PLACEHOLDER != "" && LABEL_NAMES_PLACEHOLDER != ""
  {
  }

  // ---------- undoing the embedding ----------

  /** A query cut at its first closing brace. */
  lemma CutAtBrace(q: string) returns (p: string, rest: string)
    requires '}' in q
    ensures '}' !in p && q == p + (['}'] + rest) && |rest| < |q|
    ensures forall pat :: !Occurs(pat, q) ==> !Occurs(pat, p) && !Occurs(pat, rest)
  {
    hide Occurs;
    p, rest := CutAt(q, '}');
    forall pat | !Occurs(pat, q) ensures !Occurs(pat, p) && !Occurs(pat, rest) {
      NotInParts(pat, p, rest);
    }
  }

  lemma NotInParts(pat: string, p: string, rest: string)
    requires !Occurs(pat, p + (['}'] + rest))
    ensures !Occurs(pat, p) && !Occurs(pat, rest)
  {
    hide Occurs;
    assert "" + (p + (['}'] + rest)) == p + (['}'] + rest);
    OccursInPart(pat, "", p, ['}'] + rest);
    assert (p + ['}']) + (rest + "") == p + (['}'] + rest);
    OccursInPart(pat, p + ['}'], rest, "");
  }

  lemma NoBrace(q: string, embed: string)
    requires '}' !in q
    ensures Inserted(q, embed) == q
  {
    InsertedCons(q, "", embed);
  }

  /** Replacing a text that starts at the comma and stands before every closing brace. */
  lemma {:induction false} ReplaceInserted(q: string, embed: string, rep: string)
    requires embed != "" && '}' !in embed && embed[0] !in embed[1..] && !Occurs(embed, q)
    ensures ReplaceAll(Inserted(q, embed), embed, rep) == Inserted(q, rep)
    decreases |q|
  {
    hide Inserted, ReplaceAll, Occurs;
    if '}' in q {
      var p, rest := CutAtBrace(q);
      ReplaceInserted(rest, embed, rep);
      InsertedCons(p, rest, embed);
      InsertedCons(p, rest, rep);
      var behind := ['}'] + Inserted(rest, embed);
      assert (embed + behind)[0] == embed[0];
      ReplaceSplit(p, embed + behind, embed, rep);
      ReplaceAbsent(p, embed, rep);
      ReplaceWhole(embed, behind, rep);
      ReplaceAround("", '}', Inserted(rest, embed), embed, rep);
      assert "" + behind == behind;
      ReplaceAbsentEmpty(embed, rep);
    } else {
      NoBrace(q, embed);
      NoBrace(q, rep);
      ReplaceAbsent(q, embed, rep);
    }
  }

  lemma ReplaceAbsentEmpty(pat: string, rep: string)
    requires pat != ""
    ensures ReplaceAll("", pat, rep) == ""
    ensures forall s: string :: "" + s == s
  {
  }

  lemma {:induction false} InsertNothing(q: string)
    ensures Inserted(q, "") == q
    decreases |q|
  {
    hide Inserted;
    if '}' in q {
      var p, rest := CutAtBrace(q);
      InsertNothing(rest);
      InsertedCons(p, rest, "");
    } else {
      NoBrace(q, "");
    }
  }

  /** What the embedding adds to a query of its class. */
  function Addition(query: string): string {
    if '}' in query then [','] + LABELS_PLACEHOLDER else "{" + (LABELS_PLACEHOLDER + "}")
  }

  /** Erasing what was embedded gives back the query. */
  lemma EraseUndoesEmbedding(query: string)
    requires !Occurs(Addition(query), query)
    ensures ReplaceAll(WithPlaceholder(query), Addition(query), "") == query
  {
    hide Inserted, ReplaceAll, Occurs;
    PlaceholderChars();
    var pat := Addition(query);
    if '}' in query {
      ReplaceInserted(query, pat, "");
      InsertNothing(query);
    } else if ')' in query {
      ReplaceAbsent(query, pat, "");
    } else {
      assert pat[0] == '{' && pat[0] !in pat[1..];
      ReplaceSplit(query, pat, pat, "");
      ReplaceWhole(pat, "", "");
      ReplaceAbsent(query, pat, "");
    }
  }

  // ---------- replacing the placeholders ----------

  /** After the embedding, replacing the labels placeholder leaves a comma and the labels before every
      closing brace. */
  lemma {:induction false} LabelsReplaced(q: string, labels: string)
    requires !Occurs(LABELS_PLACEHOLDER, q)
    ensures ReplaceAll(Inserted(q, [','] + LABELS_PLACEHOLDER), LABELS_PLACEHOLDER, labels) == Inserted(q, [','] + labels)
    decreases |q|
  {
    hide Inserted, ReplaceAll, Occurs;
    PlaceholderChars();
    var ph := LABELS_PLACEHOLDER;
    if '}' in q {
      var p, rest := CutAtBrace(q);
      LabelsReplaced(rest, labels);
      InsertedCons(p, rest, [','] + ph);
      InsertedCons(p, rest, [','] + labels);
      var behind := ['}'] + Inserted(rest, [','] + ph);
      Assoc([','], ph, behind);
      ReplaceAround(p, ',', ph + behind, ph, labels);
      ReplaceAbsent(p, ph, labels);
      ReplaceWhole(ph, behind, labels);
      ReplaceAround("", '}', Inserted(rest, [','] + ph), ph, labels);
      ReplaceAbsentEmpty(ph, labels);
      Assoc([','], labels, ['}'] + Inserted(rest, [','] + labels));
    } else {
      NoBrace(q, [','] + ph);
      NoBrace(q, [','] + labels);
      ReplaceAbsent(q, ph, labels);
    }
  }

  /** The other placeholder is replaced between what was inserted. */
  lemma {:induction false} NamesReplaced(q: string, labels: string, names: string)
    requires !Occurs(LABEL_NAMES_PLACEHOLDER, labels) && '}' !in names
    ensures ReplaceAll(Inserted(q, [','] + labels), LABEL_NAMES_PLACEHOLDER, names)
         == Inserted(ReplaceAll(q, LABEL_NAMES_PLACEHOLDER, names), [','] + labels)
    decreases |q|
  {
    hide Inserted, ReplaceAll, Occurs;
    PlaceholderChars();
    var ph := LABEL_NAMES_PLACEHOLDER;
    if '}' in q {
      var p, rest := CutAtBrace(q);
      NamesReplaced(rest, labels, names);
      InsertedCons(p, rest, [','] + labels);
      Assoc([','], labels, ['}'] + Inserted(rest, [','] + labels));
      ReplaceAround(p, ',', labels + (['}'] + Inserted(rest, [','] + labels)), ph, names);
      ReplaceAround(labels, '}', Inserted(rest, [','] + labels), ph, names);
      ReplaceAbsent(labels, ph, names);
      ReplaceAround(p, '}', rest, ph, names);
      ReplaceKeepsOut(p, ph, names, '}');
      var r := ReplaceAll(rest, ph, names);
      InsertedCons(ReplaceAll(p, ph, names), r, [','] + labels);
      Assoc([','], labels, ['}'] + Inserted(r, [','] + labels));
    } else {
      NoBrace(q, [','] + labels);
      ReplaceKeepsOut(q, ph, names, '}');
      NoBrace(ReplaceAll(q, ph, names), [','] + labels);
    }
  }

  // ---------- cleaning up, brace by brace ----------

  /** The first two replacements. */
  function Collapse(s: string): string {
    ReplaceAll(ReplaceAll(s, ",,", ","), "{,", "{")
  }

  function DropComma(s: string): string {
    if s != "" && s[|s| - 1] == ',' then s[..|s| - 1] else s
  }

  lemma CollapseCons(p: string, rest: string)
    ensures Collapse(p + (['}'] + rest)) == Collapse(p) + (['}'] + Collapse(rest))
    ensures '}' !in p ==> '}' !in Collapse(p)
  {
    hide ReplaceAll;
    ReplaceAround(p, '}', rest, ",,", ",");
    ReplaceAround(ReplaceAll(p, ",,", ","), '}', ReplaceAll(rest, ",,", ","), "{,", "{");
    if '}' !in p {
      ReplaceKeepsOut(p, ",,", ",", '}');
      ReplaceKeepsOut(ReplaceAll(p, ",,", ","), "{,", "{", '}');
    }
  }

  lemma {:induction false} CommaBraceFirst(p: string, rest: string)
    requires '}' !in p
    ensures ReplaceAll(p + (['}'] + rest), ",}", "}") == DropComma(p) + (['}'] + ReplaceAll(rest, ",}", "}"))
    decreases |p|
  {
    var s := p + (['}'] + rest);
    if p == "" {
      assert s == ['}'] + rest;
      assert s[1..] == rest;
      if |s| >= 2 {
        assert s[..2][0] == '}';
      } else {
        assert ReplaceAll(rest, ",}", "}") == rest;
      }
    } else if p == "," {
      assert s[..2] == ",}" && s[2..] == rest;
    } else {
      assert s[..2][0] == p[0] && (|p| > 1 ==> s[..2][1] == p[1]);
      assert s[..2] != ",}";
      assert s[1..] == p[1..] + (['}'] + rest);
      CommaBraceFirst(p[1..], rest);
      DropCommaTail(p);
      Assoc([p[0]], DropComma(p[1..]), ['}'] + ReplaceAll(rest, ",}", "}"));
    }
  }

  lemma DropCommaTail(p: string)
    requires p != "" && p != ","
    ensures DropComma(p) == [p[0]] + DropComma(p[1..])
  {
  }

  lemma CleanLabelsCons(p: string, rest: string)
    requires '}' !in p
    ensures CleanLabels(p + (['}'] + rest)) == DropComma(Collapse(p)) + (['}'] + CleanLabels(rest))
  {
    hide ReplaceAll, DropComma;
    CollapseCons(p, rest);
    CommaBraceFirst(Collapse(p), Collapse(rest));
  }

  lemma OpenBraceComma(p: string, t: string)
    requires p != "" && p[|p| - 1] == '{'
    ensures ReplaceAll(p + ([','] + t), "{,", "{") == ReplaceAll(p, "{,", "{") + ReplaceAll(t, "{,", "{")
  {
    hide ReplaceAll;
    var front := p[..|p| - 1];
    assert p == front + "{";
    assert p + ([','] + t) == front + ("{," + t);
    ReplaceSplit(front, "{," + t, "{,", "{");
    ReplaceWhole("{,", t, "{");
    ReplaceSplit(front, "{", "{,", "{");
    assert ReplaceAll("{", "{,", "{") == "{" by { ReplaceShort("{", "{,", "{"); }
    Assoc(ReplaceAll(front, "{,", "{"), "{", ReplaceAll(t, "{,", "{"));
  }

  // ---------- what cleaning leaves alone, and by clauses ----------

  /** Nothing to clean up. */
  ghost predicate Tidy(s: string) {
    && !Occurs(",,", s) && !Occurs("{,", s) && !Occurs(",}", s)
    && !Occurs("(,", s) && !Occurs(",)", s) && !Occurs(" by ()", s) && !Occurs("{}", s)
  }

  /** A tidy text is left as it is. */
  lemma TidyStays(s: string)
    requires Tidy(s)
    ensures Clean(s) == s
  {
    hide ReplaceAll, Occurs;
    ReplaceAbsent(s, ",,", ",");
    ReplaceAbsent(s, "{,", "{");
    ReplaceAbsent(s, ",}", "}");
    ReplaceAbsent(s, "(,", "(");
    ReplaceAbsent(s, ",)", ")");
    ReplaceAbsent(s, " by ()", "");
    ReplaceAbsent(s, "{}", "");
  }

  /** No proper end of the pattern is a beginning of it. */
  predicate BorderFree(pat: string) {
    forall k :: 0 < k < |pat| ==> pat[k..] != pat[..|pat| - k]
  }

  lemma NoMatchBefore(s: string, pat: string, t: string)
    requires s != "" && pat != "" && BorderFree(pat) && !Occurs(pat, s)
    ensures (s + (pat + t))[..|pat|] != pat
  {
    var whole := s + (pat + t);
    if |s| < |pat| {
      assert whole[..|pat|][|s|..] == pat[..|pat| - |s|];
    } else {
      assert !OccursAt(pat, s, 0) && s[0..0 + |pat|] == whole[..|pat|];
    }
  }

  /** The first match of a border-free pattern is where the text before it ends. */
  lemma {:induction false} ReplaceBetween(s: string, pat: string, t: string, rep: string)
    requires pat != "" && BorderFree(pat) && !Occurs(pat, s)
    ensures ReplaceAll(s + (pat + t), pat, rep) == s + (rep + ReplaceAll(t, pat, rep))
    decreases |s|
  {
    hide BorderFree, Occurs;
    if s == "" {
      ReplaceWhole(pat, t, rep);
      assert s + (pat + t) == pat + t;
    } else {
      NoMatchBefore(s, pat, t);
      assert (s + (pat + t))[1..] == s[1..] + (pat + t);
      NotInTail(pat, s);
      ReplaceBetween(s[1..], pat, t, rep);
      Assoc([s[0]], s[1..], rep + ReplaceAll(t, pat, rep));
      assert [s[0]] + s[1..] == s;
    }
  }

  lemma NotInTail(pat: string, s: string)
    requires s != "" && !Occurs(pat, s)
    ensures !Occurs(pat, s[1..])
  {
    assert [s[0]] + (s[1..] + "") == s;
    OccursInPart(pat, [s[0]], s[1..], "");
  }

  lemma {:induction false} PrefixStays(w: string, t: string, pat: string, rep: string)
    requires pat != "" && pat[0] !in w
    ensures ReplaceAll(w + t, pat, rep) == w + ReplaceAll(t, pat, rep)
    decreases |w|
  {
    if w == "" {
      assert w + t == t;
    } else {
      var s := w + t;
      assert s[1..] == w[1..] + t;
      PrefixStays(w[1..], t, pat, rep);
      if |s| >= |pat| {
        assert s[..|pat|][0] == w[0];
      } else {
        assert ReplaceAll(t, pat, rep) == t;
      }
      assert w == [w[0]] + w[1..];
      Assoc([w[0]], w[1..], ReplaceAll(t, pat, rep));
    }
  }

  /** Text that a replacement passes over, between two texts it leaves alone. */
  lemma ReplacePassesOver(a: string, w: string, b: string, pat: string, rep: string)
    requires pat != "" && w != "" && pat[0] !in w && w[0] !in pat[1..] && !Occurs(pat, a) && !Occurs(pat, b)
    ensures ReplaceAll(a + (w + b), pat, rep) == a + (w + b)
  {
    hide ReplaceAll, Occurs;
    ReplaceSplit(a, w + b, pat, rep);
    ReplaceAbsent(a, pat, rep);
    PrefixStays(w, b, pat, rep);
    ReplaceAbsent(b, pat, rep);
  }

  const EMPTY_BY_CLAUSE := " by ()"

  lemma ByClauseBorderFree()
    ensures BorderFree(EMPTY_BY_CLAUSE)
  {
    var p := EMPTY_BY_CLAUSE;
    forall k | 0 < k < |p| ensures p[k..] != p[..|p| - k] {
      assert p[k..][|p| - k - 1] == ')' && p[..|p| - k][|p| - k - 1] != ')';
    }
  }

  lemma ByClausePasses(a: string, b: string)
    requires Tidy(a) && Tidy(b)
    ensures CleanLabels(a + (EMPTY_BY_CLAUSE + b)) == a + (EMPTY_BY_CLAUSE + b)
    ensures ReplaceAll(a + (EMPTY_BY_CLAUSE + b), ",)", ")") == a + (EMPTY_BY_CLAUSE + b)
  {
    hide ReplaceAll, Occurs;
    ReplacePassesOver(a, EMPTY_BY_CLAUSE, b, ",,", ",");
    ReplacePassesOver(a, EMPTY_BY_CLAUSE, b, "{,", "{");
    ReplacePassesOver(a, EMPTY_BY_CLAUSE, b, ",}", "}");
    ReplacePassesOver(a, EMPTY_BY_CLAUSE, b, ",)", ")");
  }

  lemma ByParenPasses(a: string, b: string)
    requires Tidy(a) && Tidy(b)
    ensures ReplaceAll(a + (EMPTY_BY_CLAUSE + b), "(,", "(") == a + (EMPTY_BY_CLAUSE + b)
  {
    hide ReplaceAll, Occurs;
    var rest := "(" + ([')'] + b);
    assert EMPTY_BY_CLAUSE + b == " by " + rest by { assert EMPTY_BY_CLAUSE == " by " + ("(" + [')']); }
    ReplaceSplit(a, " by " + rest, "(,", "(");
    ReplaceAbsent(a, "(,", "(");
    PrefixStays(" by ", rest, "(,", "(");
    ReplaceAround("(", ')', b, "(,", "(");
    ReplaceShort("(", "(,", "(");
    ReplaceAbsent(b, "(,", "(");
  }

  /** A by clause that has lost all its labels disappears. */
  lemma EmptyByClauseVanishes(a: string, b: string)
    requires Tidy(a) && Tidy(b) && Tidy(a + b)
    ensures Clean(a + (EMPTY_BY_CLAUSE + b)) == a + b
  {
    hide ReplaceAll, Occurs, CleanLabels, BorderFree;
    ByClausePasses(a, b);
    ByParenPasses(a, b);
    ByClauseBorderFree();
    ReplaceBetween(a, EMPTY_BY_CLAUSE, b, "");
    ReplaceAbsent(b, EMPTY_BY_CLAUSE, "");
    assert a + ("" + b) == a + b;
    ReplaceAbsent(a + b, "{}", "");
  }

  /** So a query that groups by the cluster's labels alone does not group for a cluster without any. */
  lemma NoLabelsNoGrouping(a: string, b: string)
    requires Tidy(a) && Tidy(b) && Tidy(a + b)
    requires !Occurs(LABELS_PLACEHOLDER, a) && !Occurs(LABELS_PLACEHOLDER, b)
    requires !Occurs("LNPH", a) && !Occurs("LNPH", b)
    ensures ReplacePlaceholders(a + (" by (" + ("LNPH" + (")" + b))), "", "") == a + b
  {
    hide ReplaceAll, Occurs, Tidy, Clean;
    var ph, names := LABELS_PLACEHOLDER, LABEL_NAMES_PLACEHOLDER;
    var clause := " by (" + (names + ")");
    assert " by (" + (names + (")" + b)) == clause + b by { Assoc(" by (", names + ")", b); Assoc(names, ")", b); }
    assert ph[0] !in clause && clause[0] !in ph[1..];
    ReplacePassesOver(a, clause, b, ph, "");
    assert clause[0] !in names[1..];
    ReplaceSplit(a, " by (" + (names + (")" + b)), names, "");
    ReplaceAbsent(a, names, "");
    PrefixStays(" by (", names + (")" + b), names, "");
    ReplaceWhole(names, ")" + b, "");
    PrefixStays(")", b, names, "");
    ReplaceAbsent(b, names, "");
    assert " by (" + ("" + (")" + b)) == EMPTY_BY_CLAUSE + b by { assert " by (" + ")" == EMPTY_BY_CLAUSE; Assoc(" by (", ")", b); }
    EmptyByClauseVanishes(a, b);
  }

  // ---------- the queries of a cluster with identifiers ----------

  /** A selector: the text up to its brace, and its label matchers. */
  datatype Selector = Selector(before: string, matchers: seq<string>)

  function PrintSelector(s: Selector): string {
    s.before + ("{" + Join(s.matchers, ','))
  }

  function PrintQuery(selectors: seq<Selector>, tail: string): string {
    if selectors == [] then tail
    else PrintSelector(selectors[0]) + (['}'] + PrintQuery(selectors[1..], tail))
  }

  /** Every selector with one matcher, or several joined by commas, more. */
  function WithLabels(selectors: seq<Selector>, labels: string): (r: seq<Selector>)
    ensures |r| == |selectors|
  {
    if selectors == [] then []
    else [selectors[0].(matchers := selectors[0].matchers + [labels])] + WithLabels(selectors[1..], labels)
  }

  /** Every closing brace closes a selector. */
  predicate IsSelector(s: Selector) {
    '}' !in PrintSelector(s)
  }

  ghost predicate AreLabels(labels: string) {
    labels != "" && labels[0] != ',' && '}' !in labels && !Occurs(",,", labels)
  }

  /** An empty selector takes the labels without the comma. */
  lemma EmptySelectorTakes(p: string, labels: string)
    requires p != "" && p[|p| - 1] == '{' && !Occurs(",,", p) && AreLabels(labels)
    ensures Collapse(p + ([','] + labels)) == Collapse(p + labels)
  {
    hide ReplaceAll, Occurs;
    ReplaceSplitTwo(p, [','] + labels, ",,", ",");
    ReplaceSplitTwo(",", labels, ",,", ",");
    ReplaceShort(",", ",,", ",");
    ReplaceSplitTwo(p, labels, ",,", ",");
    ReplaceAbsent(p, ",,", ",");
    ReplaceAbsent(labels, ",,", ",");
    OpenBraceComma(p, labels);
    ReplaceSplit(p, labels, "{,", "{");
  }

  lemma SelectorTakes(s: Selector, labels: string)
    requires IsSelector(s) && AreLabels(labels) && !Occurs(",,", PrintSelector(s))
    ensures Collapse(PrintSelector(s) + ([','] + labels))
         == Collapse(PrintSelector(s.(matchers := s.matchers + [labels])))
  {
    hide Collapse, Occurs;
    var p, t := PrintSelector(s), s.(matchers := s.matchers + [labels]);
    if s.matchers == [] {
      assert s.matchers + [labels] == [labels];
      assert Join([labels], ',') == labels;
      assert p == s.before + "{";
      Assoc(s.before, "{", labels);
      EmptySelectorTakes(p, labels);
    } else {
      JoinSnoc(s.matchers, labels, ',');
      assert PrintSelector(t) == s.before + ("{" + (Join(s.matchers, ',') + ([','] + labels)));
      Assoc("{", Join(s.matchers, ','), [','] + labels);
      Assoc(s.before, "{" + Join(s.matchers, ','), [','] + labels);
    }
  }

  lemma {:induction false} EmbeddedInSelectors(selectors: seq<Selector>, tail: string, labels: string)
    requires forall i :: 0 <= i < |selectors| ==> IsSelector(selectors[i])
    requires '}' !in tail && AreLabels(labels) && !Occurs(",,", PrintQuery(selectors, tail))
    ensures CleanLabels(Inserted(PrintQuery(selectors, tail), [','] + labels))
         == CleanLabels(PrintQuery(WithLabels(selectors, labels), tail))
    decreases |selectors|
  {
    hide Inserted, CleanLabels, Collapse, DropComma, Occurs, PrintSelector, Join;
    if selectors == [] {
      NoBrace(tail, [','] + labels);
    } else {
      var s, rest := selectors[0], PrintQuery(selectors[1..], tail);
      var p, t := PrintSelector(s), s.(matchers := s.matchers + [labels]);
      NotInParts(",,", p, rest);
      EmbeddedInSelectors(selectors[1..], tail, labels);
      InsertedCons(p, rest, [','] + labels);
      Assoc(p, [','] + labels, ['}'] + Inserted(rest, [','] + labels));
      assert '}' !in p by { NoBraceInSelector(s); }
      CleanLabelsCons(p + ([','] + labels), Inserted(rest, [','] + labels));
      SelectorTakes(s, labels);
      PrintedWithLabels(s, labels);
      CleanLabelsCons(PrintSelector(t), PrintQuery(WithLabels(selectors[1..], labels), tail));
      assert WithLabels(selectors, labels)[1..] == WithLabels(selectors[1..], labels);
    }
  }

  lemma NoBraceInSelector(s: Selector)
    requires IsSelector(s)
    ensures '}' !in PrintSelector(s)
  {
  }

  lemma PrintedWithLabels(s: Selector, labels: string)
    requires IsSelector(s) && AreLabels(labels)
    ensures '}' !in PrintSelector(s.(matchers := s.matchers + [labels]))
  {
    if s.matchers == [] {
      assert s.matchers + [labels] == [labels];
    } else {
      JoinSnoc(s.matchers, labels, ',');
    }
  }

  /** For a cluster with identifiers the query that is run is the one whose selectors all carry the
      labels of the cluster as well, cleaned up. */
  lemma LabelsReachEverySelector(query: string, labels: string, names: string, selectors: seq<Selector>, tail: string)
    requires !Occurs(LABELS_PLACEHOLDER, query) && !Occurs(LABEL_NAMES_PLACEHOLDER, labels)
    requires '}' in query && '}' !in names && AreLabels(labels)
    requires ReplaceAll(query, LABEL_NAMES_PLACEHOLDER, names) == PrintQuery(selectors, tail)
    requires forall i :: 0 <= i < |selectors| ==> IsSelector(selectors[i])
    requires '}' !in tail && !Occurs(",,", PrintQuery(selectors, tail))
    ensures ReplacePlaceholders(WithPlaceholder(query), labels, names)
         == Clean(PrintQuery(WithLabels(selectors, labels), tail))
  {
    hide ReplaceAll, Inserted, Occurs, AreLabels, CleanLabels, CleanClauses, PrintQuery, WithLabels;
    LabelsReplaced(query, labels);
    NamesReplaced(query, labels, names);
    EmbeddedInSelectors(selectors, tail, labels);
  }

  // ---------- labels that survive the cleaning ----------

  /** A pattern that would have the border of two texts between two of its characters. */
  predicate Across(pat: string, s: string, t: string) {
    s != "" && t != "" && exists k :: 0 < k < |pat| && pat[k - 1] == s[|s| - 1] && pat[k] == t[0]
  }

  lemma NotAcross(pat: string, s: string, t: string)
    requires pat != "" && !Occurs(pat, s) && !Occurs(pat, t) && !Across(pat, s, t)
    ensures !Occurs(pat, s + t)
  {
    var u := s + t;
    forall i ensures !OccursAt(pat, u, i) {
      if 0 <= i <= |u| - |pat| {
        if i + |pat| <= |s| {
          assert u[i..i + |pat|] == s[i..i + |pat|];
          assert !OccursAt(pat, s, i);
        } else if i >= |s| {
          assert u[i..i + |pat|] == t[i - |s|..i - |s| + |pat|];
          assert !OccursAt(pat, t, i - |s|);
        } else {
          var w, k := u[i..i + |pat|], |s| - i;
          assert |w| == |pat| && 0 < k < |w|;
          assert w[k] == u[|s|] == t[0];
          assert w[k - 1] == u[|s| - 1] == s[|s| - 1];
        }
      }
    }
  }

  lemma TidyJoin(s: string, t: string)
    requires Tidy(s) && Tidy(t)
    requires forall pat :: pat in {",,", "{,", ",}", "(,", ",)", EMPTY_BY_CLAUSE, "{}"} ==> !Across(pat, s, t)
    ensures Tidy(s + t)
  {
    hide Occurs, Across;
    NotAcross(",,", s, t);
    NotAcross("{,", s, t);
    NotAcross(",}", s, t);
    NotAcross("(,", s, t);
    NotAcross(",)", s, t);
    NotAcross(EMPTY_BY_CLAUSE, s, t);
    NotAcross("{}", s, t);
  }

  /** A selector that can take labels: it is tidy, and does not end in the middle of its matchers. */
  ghost predicate TakesLabels(s: Selector) {
    var p := PrintSelector(s);
    && IsSelector(s) && Tidy(p)
    && p[|p| - 1] !in ",(" && (s.matchers != [] ==> p[|p| - 1] != '{')
  }

  /** Labels that can be put between commas and braces. */
  ghost predicate AreTidyLabels(labels: string) {
    && AreLabels(labels) && Tidy(labels) && labels[0] !in "{}() "
    && labels[|labels| - 1] !in ",{}( by"
  }

  lemma SelectorWithLabels(s: Selector, labels: string)
    requires TakesLabels(s) && AreTidyLabels(labels)
    ensures var p := PrintSelector(s.(matchers := s.matchers + [labels]));
            Tidy(p) && p != "" && p[|p| - 1] == labels[|labels| - 1]
  {
    hide Tidy, Join;
    var p := PrintSelector(s);
    if s.matchers == [] {
      assert s.matchers + [labels] == [labels];
      JoinFew(labels);
      assert p == s.before + "{";
      Assoc(s.before, "{", labels);
      TidyJoin(p, labels);
    } else {
      JoinSnoc(s.matchers, labels, ',');
      Assoc("{", Join(s.matchers, ','), [','] + labels);
      Assoc(s.before, "{" + Join(s.matchers, ','), [','] + labels);
      Assoc(p, ",", labels);
      assert Tidy(",") by { TidyShort(","); }
      TidyJoin(p, ",");
      TidyJoin(p + ",", labels);
    }
  }

  lemma JoinFew(part: string)
    ensures Join([part], ',') == part && Join([], ',') == ""
  {
  }

  lemma TidyShort(s: string)
    requires |s| == 1
    ensures Tidy(s)
  {
  }

  lemma {:induction false} WithLabelsTidy(selectors: seq<Selector>, tail: string, labels: string)
    requires (forall i :: 0 <= i < |selectors| ==> TakesLabels(selectors[i])) && Tidy(tail) && AreTidyLabels(labels)
    ensures Tidy(PrintQuery(WithLabels(selectors, labels), tail))
    decreases |selectors|
  {
    hide Tidy, AreLabels, TakesLabels, PrintSelector;
    if selectors == [] {
    } else {
      var rest := PrintQuery(WithLabels(selectors[1..], labels), tail);
      var p := PrintSelector(selectors[0].(matchers := selectors[0].matchers + [labels]));
      assert WithLabels(selectors, labels)[1..] == WithLabels(selectors[1..], labels);
      WithLabelsTidy(selectors[1..], tail, labels);
      SelectorWithLabels(selectors[0], labels);
      BraceJoin(p, rest);
    }
  }

  lemma BraceJoin(p: string, rest: string)
    requires Tidy(p) && Tidy(rest) && p != "" && p[|p| - 1] !in ",{"
    ensures Tidy(p + (['}'] + rest))
  {
    hide Tidy;
    Assoc(p, ['}'], rest);
    TidyShort(['}']);
    TidyJoin(p, ['}']);
    TidyJoin(p + ['}'], rest);
  }

  /** For selectors and labels without anything to clean up, that is the query that is run. */
  lemma LabelsSurvive(query: string, labels: string, names: string, selectors: seq<Selector>, tail: string)
    requires !Occurs(LABELS_PLACEHOLDER, query) && !Occurs(LABEL_NAMES_PLACEHOLDER, labels)
    requires '}' in query && '}' !in names && AreTidyLabels(labels)
    requires ReplaceAll(query, LABEL_NAMES_PLACEHOLDER, names) == PrintQuery(selectors, tail)
    requires forall i :: 0 <= i < |selectors| ==> TakesLabels(selectors[i])
    requires '}' !in tail && Tidy(tail)
    ensures ReplacePlaceholders(WithPlaceholder(query), labels, names) == PrintQuery(WithLabels(selectors, labels), tail)
  {
    hide ReplaceAll, Inserted, Occurs, AreLabels, Clean, PrintQuery, WithLabels, WithPlaceholder, ReplacePlaceholders;
    SelectorsHaveNoDouble(selectors, tail);
    LabelsReachEverySelector(query, labels, names, selectors, tail);
    WithLabelsTidy(selectors, tail, labels);
    TidyStays(PrintQuery(WithLabels(selectors, labels), tail));
  }

  lemma {:induction false} SelectorsHaveNoDouble(selectors: seq<Selector>, tail: string)
    requires (forall i :: 0 <= i < |selectors| ==> TakesLabels(selectors[i])) && Tidy(tail)
    ensures !Occurs(",,", PrintQuery(selectors, tail))
    decreases |selectors|
  {
    hide Occurs;
    if selectors == [] {
    } else {
      var p, rest := PrintSelector(selectors[0]), PrintQuery(selectors[1..], tail);
      SelectorsHaveNoDouble(selectors[1..], tail);
      CharAbsent(",,", ['}'], 0);
      NotAcross(",,", ['}'], rest);
      NotAcross(",,", p, ['}'] + rest);
    }
  }
}
