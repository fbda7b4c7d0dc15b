/** The queries of a cluster without identifiers: when the commas that were embedded with the placeholder
    are cleaned up again (internal/common/filter.go:232-255). */
module EmbeddedCommas {
  import opened Text
  import opened QueryLabels
  import opened QueryCleaning

  // ---------- runs of commas before a brace ----------

  function Commas(n: nat): (s: string)
    ensures |s| == n && forall i :: 0 <= i < n ==> s[i] == ','
  {
    seq(n, i => ',')
  }

  lemma CommasPlus(n: nat, m: nat)
    ensures Commas(n + m) == Commas(n) + Commas(m)
  {
  }

  lemma OneComma()
    ensures Commas(1) == "," && Commas(0) == ""
  {
  }

  /** The number of commas at the end. */
  function Run(p: string): (n: nat)
    ensures n <= |p|
    ensures var w := p[..|p| - n]; p == w + Commas(n) && !EndsIn(w, ',')
  {
    if p == "" then assert p == p[..0] + Commas(0); 0
    else if p[|p| - 1] != ',' then assert p == p[..|p|] + Commas(0); 0
    else
      var n := Run(p[..|p| - 1]);
      CommasPlus(n, 1);
      OneComma();
      Assoc(p[..|p| - 1 - n], Commas(n), ",");
      assert p == p[..|p| - 1] + ",";
      assert p[..|p| - 1][..|p| - 1 - n] == p[..|p| - 1 - n];
      n + 1
  }

  /** The last character stays when no match can end in it. */
  lemma {:induction false} LastStays(s: string, pat: string, rep: string)
    requires |pat| > 1 && s != "" && s[|s| - 1] != pat[|pat| - 1]
    ensures var r := ReplaceAll(s, pat, rep); r != "" && r[|r| - 1] == s[|s| - 1]
    decreases |s|
  {
    if |s| < |pat| {
    } else if s[..|pat|] == pat {
      LastStays(s[|pat|..], pat, rep);
    } else {
      LastStays(s[1..], pat, rep);
    }
  }

  lemma SameEnd(s: string, pat: string, rep: string)
    requires |pat| > 1 && !EndsIn(s, pat[|pat| - 1])
    ensures forall c :: EndsIn(ReplaceAll(s, pat, rep), c) <==> EndsIn(s, c)
  {
    if s == "" {
    } else {
      LastStays(s, pat, rep);
    }
  }

  lemma {:induction false} CommasHalved(n: nat)
    ensures ReplaceAll(Commas(n), ",,", ",") == Commas((n + 1) / 2)
  {
    OneComma();
    if n >= 2 {
      assert Commas(n)[..2] == ",," && Commas(n)[2..] == Commas(n - 2);
      CommasHalved(n - 2);
      CommasPlus(1, (n - 1) / 2);
    }
  }

  /** A run loses its first comma behind the opening character of the pattern. */
  lemma {:induction false} CommasBehind(v: string, m: nat, open: char, pat: string, rep: string)
    requires pat == [open, ','] && rep == [open] && open != ',' && !EndsIn(v, ',')
    ensures ReplaceAll(v + Commas(m), pat, rep)
         == ReplaceAll(v, pat, rep) + Commas(if m > 0 && EndsIn(v, open) then m - 1 else m)
  {
    hide ReplaceAll;
    assert pat[0] != ',';
    CommasStay(m, pat, rep);
    if m > 0 && EndsIn(v, open) {
      var front := v[..|v| - 1];
      assert v == front + [open];
      CommasStay(m - 1, pat, rep);
      CommasPlus(1, m - 1);
      OneComma();
      assert v + Commas(m) == front + (pat + Commas(m - 1));
      ReplaceSplitTwo(front, pat + Commas(m - 1), pat, rep);
      ReplaceWhole(pat, Commas(m - 1), rep);
      ReplaceSplitTwo(front, [open], pat, rep);
      ReplaceShort([open], pat, rep);
      Assoc(ReplaceAll(front, pat, rep), [open], Commas(m - 1));
    } else {
      ReplaceSplitTwo(v, Commas(m), pat, rep);
    }
  }

  lemma CommasStay(m: nat, pat: string, rep: string)
    requires pat != "" && exists k :: 0 <= k < |pat| && pat[k] != ','
    ensures ReplaceAll(Commas(m), pat, rep) == Commas(m)
  {
    var k :| 0 <= k < |pat| && pat[k] != ',';
    forall i ensures !OccursAt(pat, Commas(m), i) {
      if 0 <= i <= m - |pat| {
        assert Commas(m)[i..i + |pat|][k] == Commas(m)[i + k];
      }
    }
    ReplaceAbsent(Commas(m), pat, rep);
  }

  /** A run that the pattern ends before stays. */
  lemma CommasAfter(v: string, m: nat, pat: string, rep: string)
    requires pat == ",)" || pat == " by ()"
    ensures ReplaceAll(v + Commas(m), pat, rep) == ReplaceAll(v, pat, rep) + Commas(m)
  {
    hide ReplaceAll;
    assert pat[|pat| - 1] == ')';
    CommasStay(m, pat, rep);
    if m == 0 {
      assert v + Commas(0) == v && ReplaceAll(v, pat, rep) + Commas(0) == ReplaceAll(v, pat, rep);
    } else if pat == ",)" {
      ReplaceSplitTwo(v, Commas(m), pat, rep);
    } else {
      assert ',' !in pat[1..];
      ReplaceSplit(v, Commas(m), pat, rep);
    }
  }

  /** How many of `n` commas behind a text that ends in `c`, if in anything, and before a closing brace
      are left when the commas around labels and in parentheses are cleaned up. */
  function Left(brace: bool, paren: bool, n: nat): nat {
    var collapsed := (n + 1) / 2 - if brace && n > 0 then 1 else 0;
    var dropped := if collapsed > 0 then collapsed - 1 else 0;
    if paren && dropped > 0 then dropped - 1 else dropped
  }

  /** What is made of the text before a closing brace. */
  function CleanSegment(p: string): string {
    CleanParens(DropComma(Collapse(p)))
  }

  /** The replacements of `CleanClauses` but the last. */
  function CleanParens(s: string): string {
    ReplaceAll(ReplaceAll(ReplaceAll(s, "(,", "("), ",)", ")"), " by ()", "")
  }

  lemma CollapseRun(w: string, n: nat)
    requires !EndsIn(w, ',')
    ensures var v := Collapse(w);
            && Collapse(w + Commas(n)) == v + Commas((n + 1) / 2 - if EndsIn(w, '{') && n > 0 then 1 else 0)
            && forall c :: EndsIn(v, c) <==> EndsIn(w, c)
  {
    hide ReplaceAll;
    ReplaceSplitTwo(w, Commas(n), ",,", ",");
    CommasHalved(n);
    SameEnd(w, ",,", ",");
    var u := ReplaceAll(w, ",,", ",");
    CommasBehind(u, (n + 1) / 2, '{', "{,", "{");
    SameEnd(u, "{,", "{");
  }

  lemma DropFromRun(v: string, m: nat)
    requires !EndsIn(v, ',')
    ensures DropComma(v + Commas(m)) == v + Commas(if m > 0 then m - 1 else 0)
  {
    if m == 0 {
      assert v + Commas(0) == v;
    } else {
      CommasPlus(m - 1, 1);
      OneComma();
      assert v + Commas(m) == (v + Commas(m - 1)) + ",";
    }
  }

  lemma SegmentRun(w: string, n: nat)
    requires !EndsIn(w, ',')
    ensures CleanSegment(w + Commas(n)) == CleanParens(Collapse(w)) + Commas(Left(EndsIn(w, '{'), EndsIn(w, '('), n))
  {
    hide ReplaceAll, Collapse, DropComma;
    var v := Collapse(w);
    CollapseRun(w, n);
    var m := (n + 1) / 2 - if EndsIn(w, '{') && n > 0 then 1 else 0;
    DropFromRun(v, m);
    var k := if m > 0 then m - 1 else 0;
    CommasBehind(v, k, '(', "(,", "(");
    var left := if k > 0 && EndsIn(v, '(') then k - 1 else k;
    var x := ReplaceAll(v, "(,", "(");
    CommasAfter(x, left, ",)", ")");
    CommasAfter(ReplaceAll(x, ",)", ")"), left, " by ()", "");
  }

  // ---------- the exact condition ----------

  /** The commas before a closing brace survive one more: none, an odd number, or exactly two directly
      behind an opening brace or parenthesis. */
  predicate Tolerates(p: string) {
    var n := Run(p);
    var w := p[..|p| - n];
    n == 0 || n % 2 == 1 || (n == 2 && (EndsIn(w, '{') || EndsIn(w, '(')))
  }

  lemma LeftOneMore(brace: bool, paren: bool, n: nat)
    requires !(brace && paren)
    ensures Left(brace, paren, n + 1)
         == Left(brace, paren, n) + if n == 0 || n % 2 == 1 || (n == 2 && (brace || paren)) then 0 else 1
  {
  }

  /** One comma more before a closing brace is cleaned up again exactly if the text before it tolerates it. */
  lemma ExtraComma(p: string)
    ensures CleanSegment(p + ",") == CleanSegment(p) + if Tolerates(p) then "" else ","
  {
    var n := Run(p);
    var w := p[..|p| - n];
    hide CleanSegment, Run;
    CommasPlus(n, 1);
    OneComma();
    Assoc(w, Commas(n), ",");
    ExtraCommaInRun(w, n);
  }

  lemma ExtraCommaInRun(w: string, n: nat)
    requires !EndsIn(w, ',')
    ensures CleanSegment(w + Commas(n + 1)) == CleanSegment(w + Commas(n))
         + if n == 0 || n % 2 == 1 || (n == 2 && (EndsIn(w, '{') || EndsIn(w, '('))) then "" else ","
  {
    hide CleanSegment, CleanParens, Collapse, Left;
    SegmentRun(w, n);
    SegmentRun(w, n + 1);
    OneComma();
    var brace, paren := EndsIn(w, '{'), EndsIn(w, '(');
    LeftOneMore(brace, paren, n);
    CommasPlus(Left(brace, paren, n), 1);
    Assoc(CleanParens(Collapse(w)), Commas(Left(brace, paren, n)), ",");
    assert CleanSegment(w + Commas(n)) + "" == CleanSegment(w + Commas(n));
  }

  /** Everything but the removal of empty selectors. */
  function CleanButBraces(q: string): string {
    CleanParens(CleanLabels(q))
  }

  lemma CleanParensCons(p: string, rest: string)
    ensures CleanParens(p + (['}'] + rest)) == CleanParens(p) + (['}'] + CleanParens(rest))
  {
    hide ReplaceAll;
    ReplaceAround(p, '}', rest, "(,", "(");
    var p1, r1 := ReplaceAll(p, "(,", "("), ReplaceAll(rest, "(,", "(");
    ReplaceAround(p1, '}', r1, ",)", ")");
    ReplaceAround(ReplaceAll(p1, ",)", ")"), '}', ReplaceAll(r1, ",)", ")"), " by ()", "");
  }

  lemma CleanButBracesCons(p: string, rest: string)
    requires '}' !in p
    ensures CleanButBraces(p + (['}'] + rest)) == CleanSegment(p) + (['}'] + CleanButBraces(rest))
  {
    hide Collapse, DropComma, CleanLabels, CleanParens;
    CleanLabelsCons(p, rest);
    CleanParensCons(DropComma(Collapse(p)), CleanLabels(rest));
  }

  /** Every text before a closing brace tolerates a comma more. */
  predicate AllTolerate(q: string) {
    var parts := Split(q, '}');
    forall i :: 0 <= i < |parts| - 1 ==> Tolerates(parts[i])
  }

  lemma AllTolerateCons(p: string, rest: string)
    requires '}' !in p
    ensures AllTolerate(p + (['}'] + rest)) <==> Tolerates(p) && AllTolerate(rest)
  {
    hide Split, Tolerates;
    SplitFirst(p, rest, '}');
    var parts := Split(rest, '}');
    assert ([p] + parts)[0] == p && forall i :: 0 <= i < |parts| ==> ([p] + parts)[i + 1] == parts[i];
    if AllTolerate(p + (['}'] + rest)) {
      forall i | 0 <= i < |parts| - 1 ensures Tolerates(parts[i]) {
        assert ([p] + parts)[i + 1] == parts[i];
      }
    }
  }

  lemma NothingToTolerate(q: string)
    requires '}' !in q
    ensures AllTolerate(q)
  {
    SplitFirst(q, "", '}');
  }

  function CommaCount(s: string): nat {
    Count(s, ',')
  }

  lemma {:induction false} CountJoin(s: string, t: string)
    ensures CommaCount(s + t) == CommaCount(s) + CommaCount(t)
  {
    if s == "" {
      assert s + t == t;
    } else {
      assert (s + t)[1..] == s[1..] + t;
      CountJoin(s[1..], t);
    }
  }

  /** With the embedded commas the text before the last step is the same, or it has more commas. */
  lemma {:induction false} EmbeddedCommas(q: string)
    ensures var x, y := CleanButBraces(Inserted(q, ",")), CleanButBraces(q);
            if AllTolerate(q) then x == y else CommaCount(x) > CommaCount(y)
    decreases |q|
  {
    hide Inserted, CleanButBraces, CleanSegment, Occurs, AllTolerate, Tolerates, Count;
    if '}' in q {
      var p, rest := CutAtBrace(q);
      EmbeddedCommas(rest);
      InsertedCons(p, rest, ",");
      Assoc(p, ",", ['}'] + Inserted(rest, ","));
      assert '}' !in p + ",";
      CleanButBracesCons(p + ",", Inserted(rest, ","));
      CleanButBracesCons(p, rest);
      ExtraComma(p);
      AllTolerateCons(p, rest);
      var s, x, y := CleanSegment(p), CleanButBraces(Inserted(rest, ",")), CleanButBraces(rest);
      CountParts(CleanSegment(p + ","), x);
      CountParts(s, y);
      CountJoin(s, ",");
      assert CommaCount(",") == 1 by { CountComma(); }
      assert s + "" == s;
    } else {
      NoBrace(q, ",");
      NothingToTolerate(q);
    }
  }

  lemma CountComma()
    ensures CommaCount(",") == 1 && CommaCount("") == 0
  {
    assert ","[1..] == "";
  }

  lemma BracesHaveNoCommas()
    ensures CommaCount("{}") == 0
  {
    assert "{}"[1..] == "}" && "}"[1..] == "";
  }

  lemma CountParts(s: string, t: string)
    ensures CommaCount(s + (['}'] + t)) == CommaCount(s) + CommaCount(t)
  {
    CountJoin(s, ['}'] + t);
    assert (['}'] + t)[1..] == t;
  }

  /** Removing empty selectors removes no comma. */
  lemma {:induction false} CommasSurvive(s: string)
    ensures CommaCount(ReplaceAll(s, "{}", "")) == CommaCount(s)
    decreases |s|
  {
    if |s| < 2 {
    } else if s[..2] == "{}" {
      CommasSurvive(s[2..]);
      assert s == "{}" + s[2..];
      CountJoin("{}", s[2..]);
      BracesHaveNoCommas();
      assert "" + ReplaceAll(s[2..], "{}", "") == ReplaceAll(s[2..], "{}", "");
    } else {
      CommasSurvive(s[1..]);
      assert ([s[0]] + ReplaceAll(s[1..], "{}", ""))[1..] == ReplaceAll(s[1..], "{}", "");
    }
  }

  /** The commas that are embedded for a cluster without labels are cleaned up again exactly if all texts
      before closing braces tolerate them. */
  lemma CommasVanish(q: string)
    ensures Clean(Inserted(q, ",")) == Clean(q) <==> AllTolerate(q)
  {
    hide ReplaceAll, Inserted, AllTolerate, Count;
    EmbeddedCommas(q);
    CommasSurvive(CleanButBraces(Inserted(q, ",")));
    CommasSurvive(CleanButBraces(q));
  }

  // ---------- the queries of a cluster without identifiers ----------

  lemma CleanEmptySelector(q: string)
    ensures Clean(q + "{}") == Clean(q)
  {
    hide ReplaceAll;
    ReplaceSplit(q, "{}", ",,", ",");
    var a := ReplaceAll(q, ",,", ",");
    ReplaceSplit(a, "{}", "{,", "{");
    var b := ReplaceAll(a, "{,", "{");
    ReplaceSplit(b, "{}", ",}", "}");
    var c := ReplaceAll(b, ",}", "}");
    ReplaceSplit(c, "{}", "(,", "(");
    var d := ReplaceAll(c, "(,", "(");
    ReplaceSplit(d, "{}", ",)", ")");
    var e := ReplaceAll(d, ",)", ")");
    assert '{' !in " by ()";
    ReplaceSplit(e, "{}", " by ()", "");
    var f := ReplaceAll(e, " by ()", "");
    ReplaceSplit(f, "{}", "{}", "");
    ReplaceEmptySelector();
    assert ReplaceAll(f, "{}", "") + "" == ReplaceAll(f, "{}", "");
  }

  lemma ReplaceEmptySelector()
    ensures ReplaceAll("{}", ",,", ",") == "{}" && ReplaceAll("{}", "{,", "{") == "{}"
    ensures ReplaceAll("{}", ",}", "}") == "{}" && ReplaceAll("{}", "(,", "(") == "{}"
    ensures ReplaceAll("{}", ",)", ")") == "{}" && ReplaceAll("{}", " by ()", "") == "{}"
    ensures ReplaceAll("{}", "{}", "") == ""
  {
    hide ReplaceAll;
    NotInBraces(",,");
    NotInBraces("{,");
    NotInBraces(",}");
    NotInBraces("(,");
    NotInBraces(",)");
    NotInBraces(" by ()");
    ReplaceAbsent("{}", ",,", ",");
    ReplaceAbsent("{}", "{,", "{");
    ReplaceAbsent("{}", ",}", "}");
    ReplaceAbsent("{}", "(,", "(");
    ReplaceAbsent("{}", ",)", ")");
    ReplaceAbsent("{}", " by ()", "");
    ReplaceWhole("{}", "", "");
  }

  lemma NotInBraces(pat: string)
    requires |pat| >= 2 && pat != "{}"
    ensures !Occurs(pat, "{}")
  {
    forall i ensures !OccursAt(pat, "{}", i) {
      assert "{}"[0..2] == "{}";
    }
  }

  /** The placeholder in braces, with both placeholders replaced. */
  lemma PlainReplaced(query: string, labels: string, names: string)
    requires !Occurs(LABELS_PLACEHOLDER, query) && !Occurs(LABEL_NAMES_PLACEHOLDER, labels)
    ensures ReplaceAll(ReplaceAll(query + ("{" + (LABELS_PLACEHOLDER + "}")), LABELS_PLACEHOLDER, labels),
                       LABEL_NAMES_PLACEHOLDER, names)
         == ReplaceAll(query, LABEL_NAMES_PLACEHOLDER, names) + ("{" + (labels + "}"))
  {
    hide ReplaceAll, Occurs;
    PlaceholderChars();
    var ph := LABELS_PLACEHOLDER;
    ReplaceAround(query, '{', ph + "}", ph, labels);
    ReplaceAbsent(query, ph, labels);
    ReplaceWhole(ph, "}", labels);
    ReplaceBrace(ph, labels);
    ReplaceAround(query, '{', labels + "}", LABEL_NAMES_PLACEHOLDER, names);
    ReplaceSplit(labels, "}", LABEL_NAMES_PLACEHOLDER, names);
    ReplaceAbsent(labels, LABEL_NAMES_PLACEHOLDER, names);
    ReplaceBrace(LABEL_NAMES_PLACEHOLDER, names);
  }

  lemma ReplaceBrace(pat: string, rep: string)
    requires |pat| > 1
    ensures ReplaceAll("}", pat, rep) == "}"
  {
  }

  /** For a cluster without identifiers a query with embedded placeholders becomes exactly what the
      query itself would become, for queries of all three classes, just when every text before a closing
      brace tolerates the embedded comma. */
  lemma NoIdentifiersNoTrace(query: string)
    requires !Occurs(LABELS_PLACEHOLDER, query)
    ensures ReplacePlaceholders(WithPlaceholder(query), "", "") == ReplacePlaceholders(query, "", "")
       <==> AllTolerate(ReplaceAll(query, LABEL_NAMES_PLACEHOLDER, ""))
    ensures !Occurs(LABEL_NAMES_PLACEHOLDER, query) ==>
              (ReplacePlaceholders(WithPlaceholder(query), "", "") == Clean(query) <==> AllTolerate(query))
  {
    hide ReplaceAll, Occurs, Inserted, CleanClauses, CleanLabels, AllTolerate, Clean;
    PlaceholderChars();
    ReplaceAbsent(query, LABELS_PLACEHOLDER, "");
    NothingInEmpty(LABEL_NAMES_PLACEHOLDER);
    var q := ReplaceAll(query, LABEL_NAMES_PLACEHOLDER, "");
    if !Occurs(LABEL_NAMES_PLACEHOLDER, query) {
      ReplaceAbsent(query, LABEL_NAMES_PLACEHOLDER, "");
    }
    assert [','] + "" == ",";
    if '}' in query {
      LabelsReplaced(query, "");
      NamesReplaced(query, "", "");
      CommasVanish(q);
    } else {
      ReplaceKeepsOut(query, LABEL_NAMES_PLACEHOLDER, "", '}');
      NothingToTolerate(q);
      if ')' !in query {
        PlainReplaced(query, "", "");
        assert "" + "}" == "}" && "{" + "}" == "{}";
        CleanEmptySelector(q);
      }
    }
  }

  /** In particular without a double comma. */
  lemma {:induction false} SingleCommasTolerate(q: string)
    requires !Occurs(",,", q)
    ensures AllTolerate(q)
    decreases |q|
  {
    hide AllTolerate, Tolerates, Occurs;
    if '}' in q {
      var p, rest := CutAtBrace(q);
      SingleCommasTolerate(rest);
      SingleCommaTolerates(p);
      AllTolerateCons(p, rest);
    } else {
      NothingToTolerate(q);
    }
  }

  lemma SingleCommaTolerates(p: string)
    requires !Occurs(",,", p)
    ensures Tolerates(p)
  {
    var n := Run(p);
    hide Run, Occurs;
    if n >= 2 {
      var w := p[..|p| - n];
      assert p[|p| - 1] == Commas(n)[n - 1] && p[|p| - 2] == Commas(n)[n - 2];
      EndsInTwo(p);
    }
  }

  lemma EndsInTwo(p: string)
    requires |p| >= 2 && p[|p| - 1] == ',' && p[|p| - 2] == ','
    ensures Occurs(",,", p)
  {
    var i := |p| - 2;
    assert p[i..i + 2] == ",,";
    assert OccursAt(",,", p, i);
  }

  lemma NothingInEmpty(pat: string)
    requires pat != ""
    ensures !Occurs(pat, "")
  {
  }

  /** The exception: `m{a,,}` is cleaned to `m{a}`, but after the embedding it ends up as `m{a,}`. */
  lemma DoubleCommaLeavesATrace()
    ensures Clean("m{a,,}") == "m{a}"
    ensures ReplacePlaceholders(WithPlaceholder("m{a,,}"), "", "") == "m{a,}"
  {
    hide Inserted, CleanLabels, CleanClauses, ReplaceAll, Occurs;
    CleanedLabels();
    CleanedClauses("m{a}");
    CleanedClauses("m{a,}");
    ExampleEmbedded();
  }

  lemma ExampleEmbedded()
    ensures ReplacePlaceholders(WithPlaceholder("m{a,,}"), "", "") == Clean(Inserted("m{a,,}", ","))
  {
    hide Inserted, CleanLabels, CleanClauses, ReplaceAll, Occurs, Clean;
    var q := "m{a,,}";
    assert q[5] == '}';
    NoPlaceholders();
    NothingInEmpty(LABEL_NAMES_PLACEHOLDER);
    assert [','] + "" == ",";
    LabelsReplaced(q, "");
    NamesReplaced(q, "", "");
    ReplaceAbsent(q, LABEL_NAMES_PLACEHOLDER, "");
  }

  lemma NoPlaceholders()
    ensures !Occurs(LABELS_PLACEHOLDER, "m{a,,}") && !Occurs(LABEL_NAMES_PLACEHOLDER, "m{a,,}")
  {
    forall i ensures !OccursAt(LABEL_NAMES_PLACEHOLDER, "m{a,,}", i) {
      if 0 <= i <= 2 {
        assert "m{a,,}"[i..i + 4][0] == "m{a,,}"[i];
      }
    }
    assert |LABELS_PLACEHOLDER| == 22;
  }

  lemma CleanedClauses(s: string)
    requires s == "m{a}" || s == "m{a,}"
    ensures CleanClauses(s) == s
  {
    hide ReplaceAll, Occurs;
    CharAbsent("(,", s, 0);
    CharAbsent(",)", s, 1);
    CharAbsent(" by ()", s, 0);
    assert !Occurs("{}", s) by { NoBraces(s); }
    ReplaceAbsent(s, "(,", "(");
    ReplaceAbsent(s, ",)", ")");
    ReplaceAbsent(s, " by ()", "");
    ReplaceAbsent(s, "{}", "");
  }

  lemma NoBraces(s: string)
    requires s == "m{a}" || s == "m{a,}"
    ensures !Occurs("{}", s)
  {
    forall i ensures !OccursAt("{}", s, i) {
      if 0 <= i <= |s| - 2 {
        assert s[i..i + 2][0] == s[i] && s[i..i + 2][1] == s[i + 1];
      }
    }
  }

  lemma CleanedLabels()
    ensures CleanLabels("m{a,,}") == "m{a}"
    ensures CleanLabels(Inserted("m{a,,}", ",")) == "m{a,}"
  {
    hide Inserted, CleanLabels, Collapse, DropComma;
    var two, three := "m{" + (['a'] + ",,"), "m{" + (['a'] + ",,,");
    assert "m{a,,}" == two + (['}'] + "");
    assert '}' !in two && '}' !in three;
    InsertedCons(two, "", ",");
    InsertedCons("", "", ",");
    Assoc(two, ",", ['}'] + "");
    assert two + "," == three;
    CleanLabelsCons(two, "");
    CleanLabelsCons(three, "");
    CollapseAfter(",,");
    CollapseAfter(",,,");
    CommaRuns();
    DropAfter();
  }

  lemma CollapseAfter(t: string)
    ensures Collapse("m{" + (['a'] + t)) == "m{" + (['a'] + Collapse(t))
  {
    hide ReplaceAll;
    var u := ReplaceAll(t, ",,", ",");
    MetricStays();
    ReplaceAround("m{", 'a', t, ",,", ",");
    ReplaceAround("m{", 'a', u, "{,", "{");
  }

  lemma MetricStays()
    ensures ReplaceAll("m{", ",,", ",") == "m{" && ReplaceAll("m{", "{,", "{") == "m{"
  {
    assert "m{"[..2][0] == 'm';
  }

  lemma CommaRuns()
    ensures Collapse(",,") == "," && Collapse(",,,") == ",,"
  {
    assert ",,,"[2..] == "," && ",,"[2..] == "";
    assert ReplaceAll(",", ",,", ",") == "," && ReplaceAll("", ",,", ",") == "";
    assert ReplaceAll(",,", ",,", ",") == "," && ReplaceAll(",,,", ",,", ",") == ",,";
    assert ",,"[1..] == ",";
  }

  lemma DropAfter()
    ensures DropComma("m{" + (['a'] + ",")) + (['}'] + CleanLabels("")) == "m{a}"
    ensures DropComma("m{" + (['a'] + ",,")) + (['}'] + CleanLabels("")) == "m{a,}"
  {
    assert CleanLabels("") == "";
  }
}
