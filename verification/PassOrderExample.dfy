/** A query on which the order of the passes matters: its first range follows a selector without a name,
    so an inner call's new interval decides what an outer subquery is adjusted for. */
module PassOrderExample {
  import opened Text
  import opened Duration
  import opened Scanner
  import opened Rewriter
  import opened QueryTree
  import opened TreePasses
  import opened MetricNames
  import opened PassOrder
  import opened SettledCalls
  import opened SimpleCalls
  import opened QueryCleaning
  import opened QueryLabels

  const METRIC := "kube_pod_x"
  const LABELS := "job=\"x\""

  function ExampleText(t1: string, t2: string, u: string): string {
    "sum_over_time(" + (OperandText(t1, t2) + ("[" + (u + "])")))
  }

  /** The operand of the outer subquery, in its parentheses. */
  function OperandText(t1: string, t2: string): string {
    "(rate({job=\"x\"}[" + (t1 + ("])+rate(kube_pod_x[" + (t2 + "]))")))
  }

  function Example(t1: string, t2: string, u: string): Query {
    Chars("sum_over_time", Parens(Outer(t1, t2, u), End))
  }

  function Outer(t1: string, t2: string, u: string): Query {
    Parens(Operand(t1, t2), Range(u, End))
  }

  function Operand(t1: string, t2: string): Query {
    Chars("rate", Parens(Nameless(t1), Char('+', CallTree("rate", METRIC, t2))))
  }

  function Nameless(t: string): Query {
    Chars("{job=", Labelled(t))
  }

  // ---------- the tree and its text ----------

  lemma NamelessParts(t: string)
    ensures Print(Nameless(t)) == "{job=\"x\"}[" + (t + "]")
    ensures Print(BeforeOwn(Nameless(t))) == "{job=\"x\"}" == ToFirstRange(Nameless(t))
    ensures OwnInterval(Nameless(t)) == Some(t) && HasRange(Nameless(t)) && !HasRange(BeforeOwn(Nameless(t)))
    ensures forall t' :: SetOwnInterval(Nameless(t), t') == Nameless(t')
  {
    hide Chars, Print, OwnInterval, BeforeOwn, HasRange, ToFirstRange, SetOwnInterval;
    var x := Labelled(t);
    LabelledParts(t);
    CharsParts("{job=", x);
    CharsParts("{job=", BeforeOwn(x));
    PrintChars("{job=", x);
    PrintChars("{job=", BeforeOwn(x));
    Assoc("{job=", "\"x\"}[", t + "]");
    assert "{job=" + "\"x\"}[" == "{job=\"x\"}[";
    assert "{job=" + "\"x\"}" == "{job=\"x\"}";
  }

  function Labelled(t: string): Query {
    Literal("x", Char('}', Range(t, End)))
  }

  lemma LabelledParts(t: string)
    ensures var x := Labelled(t);
            && Print(x) == "\"x\"}[" + (t + "]")
            && Print(BeforeOwn(x)) == "\"x\"}" == ToFirstRange(x)
            && OwnInterval(x) == Some(t) && HasRange(x) && !HasRange(BeforeOwn(x))
            && forall t' :: SetOwnInterval(x, t') == Labelled(t')
  {
    hide Print, OwnInterval, BeforeOwn, HasRange, ToFirstRange, SetOwnInterval;
    EndParts();
    RangeParts(t);
    CharParts('}', Range(t, End));
    CharParts('}', End);
    LiteralParts("x", Char('}', Range(t, End)));
    LiteralParts("x", Char('}', End));
    assert "\"" + "x" + "\"" == "\"x\"" && ['}'] + "" == "}" && "\"x\"" + "}" == "\"x\"}";
    assert ['}'] + ("[" + (t + "]")) == "}[" + (t + "]");
    assert "\"x\"" + ("}[" + (t + "]")) == "\"x\"}[" + (t + "]");
  }

  lemma PrintOperand(t1: string, t2: string)
    ensures Print(Parens(Operand(t1, t2), End)) == OperandText(t1, t2)
  {
    hide Nameless, CallTree, Chars;
    NamelessParts(t1);
    PrintCallTree("rate", METRIC, t2);
    var call := Char('+', CallTree("rate", METRIC, t2));
    PrintChars("rate", Parens(Nameless(t1), call));
    OperandPieces(t1, t2);
    assert Print(Parens(Nameless(t1), call)) == "(" + Print(Nameless(t1)) + ")" + Print(call);
  }

  lemma OperandPieces(t1: string, t2: string)
    ensures "(" + ("rate" + ("(" + ("{job=\"x\"}[" + (t1 + "]")) + ")" + (['+'] + CallText("rate", METRIC, t2)))) + ")" + ""
         == OperandText(t1, t2)
  {
    CallPiece(t2);
    var mid := "])+rate(kube_pod_x[" + (t2 + "]))");
    var call := ['+'] + CallText("rate", METRIC, t2);
    assert ("]" + ")") + (call + ")") == mid by { assert "])" + ("+rate(kube_pod_x[" + (t2 + "]))")) == mid; }
    var labels := "{job=\"x\"}[";
    JoinPieces("(", "rate", "(", labels, t1, "]", ")", call);
    assert ("(" + "rate") + ("(" + labels) == "(rate({job=\"x\"}[";
  }

  lemma CallPiece(t2: string)
    ensures (['+'] + CallText("rate", METRIC, t2)) + ")" == "+rate(kube_pod_x[" + (t2 + "]))")
  {
    assert CallText("rate", METRIC, t2) == "rate(kube_pod_x[" + (t2 + "])") by {
      assert METRIC + "[" == "kube_pod_x[";
      Assoc(METRIC, "[", t2 + "])");
      assert "rate" + ("(" + "kube_pod_x[") == "rate(kube_pod_x[";
      Assoc4("rate", "(", "kube_pod_x[", t2 + "])");
    }
    assert ['+'] + "rate(kube_pod_x[" == "+rate(kube_pod_x[";
    Assoc(['+'], "rate(kube_pod_x[", t2 + "])");
    Assoc("+rate(kube_pod_x[", t2 + "])", ")");
    Assoc(t2, "])", ")");
    assert "])" + ")" == "]))";
  }

  lemma JoinPieces(a: string, b: string, c: string, d: string, t: string, e: string, f: string, g: string)
    ensures a + (b + (c + (d + (t + e)) + f + g)) + f + "" == (a + b) + (c + d) + (t + ((e + f) + (g + f)))
  {
    var x := c + (d + (t + e)) + f + g;
    assert x == c + d + t + e + f + g;
    assert a + (b + x) + f + "" == a + b + x + f;
  }

  lemma PrintExample(t1: string, t2: string, u: string)
    ensures Print(Example(t1, t2, u)) == ExampleText(t1, t2, u)
  {
    hide Operand, OperandText, Chars;
    PrintOperand(t1, t2);
    var operand := OperandText(t1, t2);
    assert Print(Range(u, End)) == "[" + (u + "]");
    assert Print(Outer(t1, t2, u)) == operand + ("[" + (u + "]"));
    var call := Parens(Outer(t1, t2, u), End);
    assert Print(call) == "(" + (operand + ("[" + (u + "]"))) + ")" + "";
    assert Print(call) == "(" + (operand + ("[" + (u + "])")));
    PrintChars("sum_over_time", call);
    assert "sum_over_time" + "(" == "sum_over_time(";
    Assoc("sum_over_time", "(", operand + ("[" + (u + "])")));
  }

  lemma NamelessWellFormed(t: string)
    requires Inert(t)
    ensures WellFormed(Nameless(t))
  {
    hide WellFormed, Inert, Chars;
    RangeParts(t);
    CharParts('}', Range(t, End));
    LiteralParts("x", Char('}', Range(t, End)));
    PlainLabels();
    CharsWellFormed("{job=", Labelled(t));
  }

  lemma PlainLabels()
    ensures Inert("{job=") && InertChar('}') && LiteralText("x") && NoCallText("x")
  {
    var s := "{job=";
    forall i | 0 <= i < |s| ensures InertChar(s[i]) {
      assert s[i] == '{' || s[i] == 'j' || s[i] == 'o' || s[i] == 'b' || s[i] == '=';
    }
    assert "x"[1..] == "";
  }

  lemma ExampleWellFormed(t1: string, t2: string, u: string)
    requires Inert(t1) && Inert(t2) && Inert(u)
    ensures WellFormed(Example(t1, t2, u))
  {
    hide Nameless, CallTree, WellFormed, Inert, Chars;
    NamelessWellFormed(t1);
    CallTreeWellFormed("rate", METRIC, t2);
    PlainNames();
    var call := Char('+', CallTree("rate", METRIC, t2));
    CharParts('+', CallTree("rate", METRIC, t2));
    ParensParts(Nameless(t1), call);
    CharsWellFormed("rate", Parens(Nameless(t1), call));
    RangeParts(u);
    ParensParts(Operand(t1, t2), Range(u, End));
    EndParts();
    ParensParts(Outer(t1, t2, u), End);
    CharsWellFormed("sum_over_time", Parens(Outer(t1, t2, u), End));
  }

  lemma PlainNames()
    ensures Inert("rate") && Inert("sum_over_time") && InertChar('+') && IsMetricName(METRIC)
    ensures forall i :: 0 <= i < |"rate"| ==> IsNameChar("rate"[i])
  {
    NamesAreInert("rate");
    NamesAreInert("sum_over_time");
  }

  // ---------- the two passes on the tree ----------

  lemma NamelessCall(env: Env, t: string, rest: Query)
    ensures Rewrite(env, Parens(Nameless(t), rest), "rate", {Rate})
         == Parens(Nameless(Or(NewInterval(env, Rate, Nameless(t)), t)), Rewrite(env, rest, "", {Rate}))
  {
    hide NewInterval, Nameless;
    ClaimedByOnly(Rate, "rate");
    RewriteOfClaimed(env, Rate, Parens(Nameless(t), rest), "rate", {Rate});
    assert {Rate} - {Rate} == {};
    RewriteNone(env, Nameless(t), "");
    NamelessParts(t);
  }

  lemma RateOperand(env: Env, t1: string, t2: string)
    ensures Rewrite(env, Operand(t1, t2), "", {Rate})
         == Operand(Or(NewInterval(env, Rate, Nameless(t1)), t1),
                    Or(AdjustedInterval(env, Rate, ScrapeInterval(env, METRIC), t2), t2))
  {
    hide NewInterval, Nameless, CallTree, Chars, AdjustedInterval, ScrapeInterval, Claims;
    assert Claims(Rate, "rate") by { RateClaimsRate(); }
    RewriteCallTree(env, Rate, "rate", METRIC, t2, {Rate});
    var call := Char('+', CallTree("rate", METRIC, t2));
    NamelessCall(env, t1, call);
    RewriteChars(env, "rate", Parens(Nameless(t1), call), "", {Rate});
    assert "" + "rate" == "rate";
  }

  lemma RateClaimsRate()
    ensures Claims(Rate, "rate") && Claims(OverTime, "sum_over_time")
  {
  }

  /** Only the two rates' own ranges change in their pass. */
  lemma RatePass(env: Env, t1: string, t2: string, u: string)
    ensures Rewrite(env, Example(t1, t2, u), "", {Rate})
         == Example(Or(NewInterval(env, Rate, Nameless(t1)), t1),
                    Or(AdjustedInterval(env, Rate, ScrapeInterval(env, METRIC), t2), t2), u)
  {
    hide NewInterval, Operand, AdjustedInterval, ScrapeInterval, Chars, Claims;
    RateOperand(env, t1, t2);
    RateClaimsRate();
    ClaimedByOnly(OverTime, "sum_over_time");
    NoName();
    var outer := Outer(t1, t2, u);
    RewriteUnclaimed(env, outer, "", {Rate});
    assert Rewrite(env, Range(u, End), "", {Rate}) == Range(u, End);
    RewriteOfOthers(env, OverTime, Parens(outer, End), "sum_over_time", {Rate});
    RewriteChars(env, "sum_over_time", Parens(outer, End), "", {Rate});
    assert "" + "sum_over_time" == "sum_over_time";
  }

  lemma NoName()
    ensures ClaimedBy("").None?
  {
    forall f: IntervalFn ensures !Claims(f, "") {
      FnNameChars(f);
    }
  }

  /** Only the subquery's range changes in the `_over_time` pass. */
  lemma OverTimePass(env: Env, t1: string, t2: string, u: string)
    ensures Rewrite(env, Example(t1, t2, u), "", {OverTime})
         == Example(t1, t2, Or(NewInterval(env, OverTime, Outer(t1, t2, u)), u))
  {
    hide NewInterval, Operand, Chars, Claims;
    var outer := Outer(t1, t2, u);
    RateClaimsRate();
    ClaimedByOnly(OverTime, "sum_over_time");
    PassOnClaimed(env, Parens(outer, End), "sum_over_time", OverTime);
    assert forall t :: SetOwnInterval(outer, t) == Outer(t1, t2, t);
    RewriteChars(env, "sum_over_time", Parens(outer, End), "", {OverTime});
    assert "" + "sum_over_time" == "sum_over_time";
  }

  // ---------- what the calls ask for ----------

  /** One exporter, scraped every second; no interval parses as a plain duration. */
  const EXPORTERS := map["kube" := Exporter(SECOND, 0)]
  const ENV := Env(EXPORTERS, (s: string) => None)

  lemma KubeInterval(rest: string)
    ensures ScrapeInterval(ENV, "kube_" + rest) == SECOND
  {
    assert '_' !in "kube";
    IntervalOfExporter(ENV, "kube", rest);
    assert "kube" + (['_'] + rest) == "kube_" + rest;
  }

  lemma NoExporter(name: string)
    requires '_' !in name && name != "kube"
    ensures ScrapeInterval(ENV, name) == 0
  {
    assert name[0..] == name;
  }

  lemma AdjustedSubquery(env: Env, scrapeInterval: int, interval: string, k: nat, d: int)
    requires k < |interval| && IndexFrom(interval, ':', 0) == k
    requires ScrapeMultiple(scrapeInterval, Trim(interval[k + 1..])) == Some(d)
    ensures AdjustedInterval(env, OverTime, scrapeInterval, interval) == Some(interval[..k] + ":" + Show(d))
  {
    hide ScrapeMultiple, Trim, IndexFrom, Show;
  }

  lemma SubqueryInterval(scrapeInterval: int)
    requires 0 <= scrapeInterval <= SECOND
    ensures AdjustedInterval(ENV, OverTime, scrapeInterval, "1h:*1") == Some("1h:" + Show(scrapeInterval))
  {
    hide AdjustedInterval, ScrapeMultiple, IndexFrom, Show;
    IndexOfEnd("1h:*1", ':', 0, 2);
    assert "1h:*1"[3..] == "*" + "1" && Decimal(1) == "1";
    TrimIdentity("*" + "1");
    hide Trim, Decimal;
    MultipleOf(scrapeInterval, 1);
    AdjustedSubquery(ENV, scrapeInterval, "1h:*1", 2, scrapeInterval);
    assert "1h:*1"[..2] + ":" == "1h:";
  }

  lemma RateInterval(scrapeInterval: int)
    requires 0 <= scrapeInterval <= SECOND
    ensures AdjustedInterval(ENV, Rate, scrapeInterval, "*3") == Some(Show(scrapeInterval * 3))
  {
    hide ScrapeMultiple, Show;
    assert "*3" == "*" + "3" && Decimal(3) == "3";
    hide Decimal;
    MultipleOf(scrapeInterval, 3);
  }

  lemma ShownSeconds()
    ensures Show(0) == "0s" && Show(SECOND) == "1s" && Show(SECOND * 3) == "3s"
  {
    hide Fraction;
    WholeSeconds(1);
    WholeSeconds(3);
    assert Decimal(1) == "1" && Decimal(3) == "3" && HoursAndMinutes(0) == "";
    assert "1" + "s" == "1s" && "3" + "s" == "3s";
  }

  /** A selector without a name, at the end of a text, names nothing. */
  lemma NamelessSelector(pre: string, labels: string)
    requires ModeAt(pre, 0, |pre|) == Code && IsLabelText(labels)
    requires pre != "" ==> !IsSpace(pre[0]) && pre[|pre| - 1] in NAME_DELIMITERS
    ensures NameAtEnd(pre + ("{" + labels + "}")) == ""
  {
    hide ModeAt, IsLabelText, LastCode, EndsWith, Before, TrimLeft, TrimRight, Trim, NameAtEnd, LastIndexAny;
    var s := pre + ("{" + labels + "}");
    assert s[0] == (if pre == "" then '{' else pre[0]) && s[|s| - 1] == '}';
    TrimIdentity(s);
    EndsInBrace(s);
    SelectorStart(pre, labels);
    assert s[..|pre|] == pre;
    NothingBehind(pre);
    NameWithSelector(s, s, |pre|, "");
    NothingNamed();
  }

  lemma NothingBehind(pre: string)
    requires pre != "" ==> pre[|pre| - 1] in NAME_DELIMITERS
    ensures pre[LastIndexAny(pre, NAME_DELIMITERS) + 1..] == ""
  {
    hide LastIndexAny;
    var k := LastIndexAny(pre, NAME_DELIMITERS);
    if pre != "" {
      var last := |pre| - 1;
      assert pre[last] in NAME_DELIMITERS;
      assert k == last;
    }
  }

  lemma NothingNamed()
    ensures Trim(Before("", '{')) == ""
  {
  }

  lemma LabelsAreText()
    ensures IsLabelText(LABELS)
  {
    var s := LABELS;
    assert ModeAt(s, 0, 0) == Code && ModeAt(s, 0, 1) == Code && ModeAt(s, 0, 2) == Code && ModeAt(s, 0, 3) == Code;
    assert ModeAt(s, 0, 4) == Code && ModeAt(s, 0, 5) == Quoted && ModeAt(s, 0, 6) == Quoted && ModeAt(s, 0, 7) == Code;
  }

  /** The first rate is adjusted for no exporter. */
  lemma NamelessInterval()
    ensures NewInterval(ENV, Rate, Nameless("*3")) == Some("0s")
  {
    hide Nameless, NameAtEnd, AdjustedInterval, ScrapeInterval, ModeAt, IsLabelText;
    NamelessParts("*3");
    LabelsAreText();
    ModeAtStart("");
    NamelessSelector("", LABELS);
    assert "" + ("{" + LABELS + "}") == "{job=\"x\"}";
    assert Metric(Nameless("*3")) == "";
    NoExporter("");
    RateInterval(0);
    ShownSeconds();
  }

  lemma NamedInterval()
    ensures AdjustedInterval(ENV, Rate, ScrapeInterval(ENV, METRIC), "*3") == Some("3s")
  {
    hide AdjustedInterval, ScrapeInterval;
    assert METRIC == "kube_" + "pod_x";
    KubeInterval("pod_x");
    RateInterval(SECOND);
    ShownSeconds();
  }

  lemma BeforeSubquery(t1: string, t2: string, u: string)
    ensures BeforeOwn(Outer(t1, t2, u)) == Parens(Operand(t1, t2), End) && OwnInterval(Outer(t1, t2, u)) == Some(u)
  {
    hide Operand;
    assert OwnInterval(Range(u, End)) == Some(u);
  }

  lemma FirstRangeOfOperand(t1: string, t2: string)
    ensures HasRange(Operand(t1, t2)) && ToFirstRange(Operand(t1, t2)) == "rate({job=\"x\"}"
  {
    hide Nameless, CallTree, Print, Chars;
    NamelessParts(t1);
    var call := Parens(Nameless(t1), Char('+', CallTree("rate", METRIC, t2)));
    assert HasRange(call) && ToFirstRange(call) == "(" + "{job=\"x\"}";
    CharsParts("rate", call);
    assert "rate" + ("(" + "{job=\"x\"}") == "rate({job=\"x\"}";
  }

  /** The first range of the subquery's operand follows a selector without a name, so the name is taken
      from the text before the subquery's own range. */
  lemma FallsBack(t1: string, t2: string, u: string)
    ensures Metric(Outer(t1, t2, u)) == NameAtEnd(OperandText(t1, t2))
  {
    hide Operand, OperandText, NameAtEnd, Outer, ModeAt, IsLabelText;
    BeforeSubquery(t1, t2, u);
    FirstRangeOfOperand(t1, t2);
    PrintOperand(t1, t2);
    LabelsAreText();
    LeadInMode();
    NamelessSelector("(rate(", LABELS);
    assert "(rate(" + ("{" + LABELS + "}") == "(" + "rate({job=\"x\"}";
    assert ToFirstRange(Parens(Operand(t1, t2), End)) == "(" + "rate({job=\"x\"}";
  }

  lemma LeadInMode()
    ensures ModeAt("(rate(", 0, 6) == Code
  {
    var s := "(rate(";
    assert ModeAt(s, 0, 2) == Code && ModeAt(s, 0, 4) == Code;
  }

  /** The name fallen back on in `up post`, where `post` starts with a delimiter. */
  lemma FallbackName(text: string, up: string, post: string, tail: string)
    requires text == up + post && up != "" && !IsSpace(up[|up| - 1])
    requires post != "" && post[0] in NAME_DELIMITERS && post[1..] == tail
    requires tail != "" && !IsSpace(tail[0]) && !IsSpace(tail[|tail| - 1]) && '}' !in tail && '{' !in tail
    requires forall i :: 0 <= i < |tail| ==> tail[i] !in NAME_DELIMITERS
    ensures NameAtEnd(text) == tail
  {
    hide NameAtEnd, LastIndexAny, Trim, IsSpace;
    assert forall i :: 0 < i < |post| ==> post[i] == tail[i - 1];
    OnlyDelimiter(post);
    PlainName(up, post);
    TrimIdentity(tail);
    NoBraceBefore(tail);
  }

  /** Before the rates' pass the subquery is adjusted for no exporter. */
  lemma SubqueryBefore()
    ensures ScrapeInterval(ENV, NameAtEnd(OperandText("*3", "*3"))) == 0
  {
    hide NameAtEnd, ScrapeInterval, OperandText;
    TextBefore();
    assert "*3]))"[1..] == "3]))";
    FallbackName(OperandText("*3", "*3"), "(rate({job=\"x\"}[*3])+rate(kube_pod_x[", "*3]))", "3]))");
    NoExporter("3]))");
  }

  lemma TextBefore()
    ensures OperandText("*3", "*3") == "(rate({job=\"x\"}[*3])+rate(kube_pod_x[" + "*3]))"
  {
    assert "(rate({job=\"x\"}[" + ("*3" + "])+rate(kube_pod_x[") == "(rate({job=\"x\"}[*3])+rate(kube_pod_x[";
    assert "*3" + "]))" == "*3]))";
    Assoc4("(rate({job=\"x\"}[", "*3", "])+rate(kube_pod_x[", "*3]))");
    Assoc("(rate({job=\"x\"}[", "*3" + "])+rate(kube_pod_x[", "*3]))");
    Assoc("*3", "])+rate(kube_pod_x[", "*3]))");
  }

  lemma OnlyDelimiter(s: string)
    requires s != "" && s[0] in NAME_DELIMITERS && forall i :: 0 < i < |s| ==> s[i] !in NAME_DELIMITERS
    ensures LastIndexAny(s, NAME_DELIMITERS) == 0
  {
    hide LastIndexAny;
  }

  lemma NoBraceBefore(s: string)
    requires '{' !in s
    ensures Before(s, '{') == s
  {
    assert s[0..] == s;
  }

  /** After it, for the exporter of the second rate's metric. */
  lemma SubqueryAfter()
    ensures ScrapeInterval(ENV, NameAtEnd(OperandText("0s", "3s"))) == SECOND
  {
    hide NameAtEnd, ScrapeInterval, OperandText, IsSpace;
    TextAfter();
    var up, post, tail := "(rate({job=\"x\"}[0s])+rate", "(kube_pod_x[3s]))", "kube_" + "pod_x[3s]))";
    assert up[|up| - 1] == 'e' && !IsSpace('e') by { NoSpaces(); }
    PlainTail(tail);
    assert post[1..] == tail;
    FallbackName(OperandText("0s", "3s"), up, post, tail);
    KubeInterval("pod_x[3s]))");
  }

  lemma NoSpaces()
    ensures !IsSpace('e') && !IsSpace('k') && !IsSpace(')')
  {
  }

  lemma PlainTail(tail: string)
    requires tail == "kube_" + "pod_x[3s]))"
    ensures tail != "" && !IsSpace(tail[0]) && !IsSpace(tail[|tail| - 1]) && '}' !in tail && '{' !in tail
    ensures forall i :: 0 <= i < |tail| ==> tail[i] !in NAME_DELIMITERS
  {
  }

  lemma TextAfter()
    ensures OperandText("0s", "3s") == "(rate({job=\"x\"}[0s])+rate" + "(kube_pod_x[3s]))"
  {
    var a, mid, c := "(rate({job=\"x\"}[", "])+rate(kube_pod_x[", "3s" + "]))";
    assert mid == "])+rate" + "(kube_pod_x[";
    assert "(kube_pod_x[" + c == "(kube_pod_x[3s]))";
    assert a + ("0s" + "])+rate") == "(rate({job=\"x\"}[0s])+rate";
    Assoc("])+rate", "(kube_pod_x[", c);
    Assoc4(a, "0s", "])+rate", "(kube_pod_x[" + c);
    Assoc(a, "0s" + "])+rate", "(kube_pod_x[" + c);
    Assoc("0s", "])+rate", "(kube_pod_x[" + c);
  }

  lemma NewSubqueryIntervals()
    ensures NewInterval(ENV, OverTime, Outer("*3", "*3", "1h:*1")) == Some("1h:0s")
    ensures NewInterval(ENV, OverTime, Outer("0s", "3s", "1h:*1")) == Some("1h:1s")
  {
    hide Outer, Metric, AdjustedInterval, ScrapeInterval, Show, OperandText, NameAtEnd;
    BeforeSubquery("*3", "*3", "1h:*1");
    BeforeSubquery("0s", "3s", "1h:*1");
    FallsBack("*3", "*3", "1h:*1");
    FallsBack("0s", "3s", "1h:*1");
    SubqueryBefore();
    SubqueryAfter();
    SubqueryInterval(0);
    SubqueryInterval(SECOND);
    ShownSeconds();
    assert "1h:" + "0s" == "1h:0s" && "1h:" + "1s" == "1h:1s";
  }

  // ---------- the example ----------

  lemma TwoPasses(env: Env, q: Query, f: IntervalFn, g: IntervalFn)
    requires WellFormed(q)
    ensures AdjustAll(env, Print(q), [f, g]).0 == Print(Rewrite(env, Rewrite(env, q, "", {f}), "", {g}))
  {
    hide Rewrite, Print, WellFormed;
    RunOnText(env, q, [f, g]);
    assert [f, g][1..] == [g] && [g][1..] == [];
    var q1 := Rewrite(env, q, "", {f});
    assert Run(env, Rewrite(env, q1, "", {g}), "", []) == Rewrite(env, q1, "", {g});
    assert Run(env, q1, "", [g]) == Rewrite(env, q1, "", {g});
  }

  const EXAMPLE := ExampleText("*3", "*3", "1h:*1")

  /** The passes of `rate` and `_over_time` do not commute on
      `sum_over_time((rate({job="x"}[*3])+rate(kube_pod_x[*3]))[1h:*1])`. */
  lemma OrderMattersForNamelessSelector()
    ensures AdjustAll(ENV, EXAMPLE, [OverTime, Rate]).0 == ExampleText("0s", "3s", "1h:0s")
    ensures AdjustAll(ENV, EXAMPLE, [Rate, OverTime]).0 == ExampleText("0s", "3s", "1h:1s")
  {
    hide Example, ExampleText, Rewrite, Print, WellFormed, AdjustAll, NewInterval, AdjustedInterval, Nameless, Outer;
    assert Inert("*3") && Inert("1h:*1");
    ExampleWellFormed("*3", "*3", "1h:*1");
    NewSubqueryIntervals();
    NamelessInterval();
    NamedInterval();
    PrintExample("*3", "*3", "1h:*1");
    TwoPasses(ENV, Example("*3", "*3", "1h:*1"), OverTime, Rate);
    OverTimePass(ENV, "*3", "*3", "1h:*1");
    RatePass(ENV, "*3", "*3", "1h:0s");
    PrintExample("0s", "3s", "1h:0s");
    TwoPasses(ENV, Example("*3", "*3", "1h:*1"), Rate, OverTime);
    RatePass(ENV, "*3", "*3", "1h:*1");
    OverTimePass(ENV, "0s", "3s", "1h:*1");
    PrintExample("0s", "3s", "1h:1s");
  }

  /** The rewriter can receive this text: cleaning leaves it as it is, and the results differ. */
  lemma ExampleIsClean()
    ensures Clean(EXAMPLE) == EXAMPLE
    ensures ExampleText("0s", "3s", "1h:0s") != ExampleText("0s", "3s", "1h:1s")
  {
    hide Clean, Tidy;
    ExampleIsTidy();
    TidyStays(EXAMPLE);
    var s, t := ExampleText("0s", "3s", "1h:0s"), ExampleText("0s", "3s", "1h:1s");
    var n := |"sum_over_time("| + |OperandText("0s", "3s")| + 4;
    assert s[n] == '0' && t[n] == '1';
  }

  /** Its calls are not settled, yet they are steady where nothing is scraped: the condition on the text is
      not exact for given exporters. */
  lemma ExampleIsUnsettled(env: Env) returns (q: Query)
    ensures WellFormed(q) && Print(q) == EXAMPLE && !Settled(ENV.parseDuration, q, "")
    ensures env.exporters == map[] ==> Steady(env, q, "", Functions(ALL_FUNCTIONS), true)
  {
    hide Example, ExampleText, Print, WellFormed, AdjustAll, Settled, Steady;
    q := Example("*3", "*3", "1h:*1");
    assert Inert("*3") && Inert("1h:*1");
    ExampleWellFormed("*3", "*3", "1h:*1");
    PrintExample("*3", "*3", "1h:*1");
    if env.exporters == map[] {
      NothingScrapedIsSteady(env, q, "", Functions(ALL_FUNCTIONS));
    }
    if Settled(ENV.parseDuration, q, "") {
      var fs, gs := [OverTime, Rate], [Rate, OverTime];
      SettledIsSteady(ENV, q, "", Functions(fs));
      assert Functions(fs) == {OverTime, Rate} == Functions(gs);
      PassOrderIrrelevant(ENV, q, fs, gs);
      OrderMattersForNamelessSelector();
      ExampleIsClean();
    }
  }

  /** Without commas and blanks, and with its one brace closed later. */
  lemma ExampleIsTidy()
    ensures Tidy(EXAMPLE)
  {
    hide Tidy, Plain;
    var x := "*3" + ("])+rate(kube_pod_x[" + ("*3" + "]))"));
    var u := "[" + ("1h:*1" + "])");
    var start, head, labels := "sum_over_time(", "(rate(", "job=\"x\"}[";
    assert head + "{" + labels == "(rate({job=\"x\"}[";
    PlainPieces();
    PlainJoin("*3", "]))");
    PlainJoin("])+rate(kube_pod_x[", "*3" + "]))");
    PlainJoin("*3", "])+rate(kube_pod_x[" + ("*3" + "]))"));
    PlainJoin("1h:*1", "])");
    PlainJoin("[", "1h:*1" + "])");
    PlainJoin(start, head);
    PlainJoin(labels, x);
    PlainJoin(labels + x, u);
    Regroup5(start, head, "{", labels, x, u);
    TidyText(start + head, labels + x + u);
  }

  /** No comma, no blank and no opening brace. */
  predicate Plain(s: string) {
    ',' !in s && ' ' !in s && '{' !in s
  }

  lemma PlainJoin(s: string, t: string)
    requires Plain(s) && Plain(t)
    ensures Plain(s + t)
  {
  }

  lemma PlainPieces()
    ensures Plain("*3") && Plain("]))") && Plain("])+rate(kube_pod_x[") && Plain("1h:*1") && Plain("])") && Plain("[")
    ensures Plain("sum_over_time(") && Plain("(rate(") && Plain("job=\"x\"}[")
  {
    hide Plain;
    assert Plain("*3") && Plain("]))") && Plain("1h:*1") && Plain("])") && Plain("[") by { PlainIntervals(); }
    assert Plain("])+rate(kube_pod_x[") by { PlainMiddle(); }
    assert Plain("sum_over_time(") && Plain("(rate(") && Plain("job=\"x\"}[") by { PlainStart(); }
  }

  lemma PlainIntervals()
    ensures Plain("*3") && Plain("]))") && Plain("1h:*1") && Plain("])") && Plain("[")
  {
  }

  lemma PlainMiddle()
    ensures Plain("])+rate(kube_pod_x[")
  {
  }

  lemma PlainStart()
    ensures Plain("sum_over_time(") && Plain("(rate(") && Plain("job=\"x\"}[")
  {
  }

  lemma Regroup5(a: string, b: string, brace: string, c: string, d: string, e: string)
    ensures a + (b + brace + c + d + e) == a + b + brace + (c + d + e)
  {
  }

  lemma TidyText(front: string, behind: string)
    requires Plain(front) && Plain(behind) && behind != "" && behind[0] != '}'
    ensures Tidy(front + "{" + behind)
  {
    hide Occurs;
    var s := front + "{" + behind;
    CharAbsent(",,", s, 0);
    CharAbsent("{,", s, 1);
    CharAbsent(",}", s, 0);
    CharAbsent("(,", s, 1);
    CharAbsent(",)", s, 0);
    CharAbsent(" by ()", s, 0);
    NoEmptyBraces(front, behind);
  }

  lemma NoEmptyBraces(front: string, behind: string)
    requires Plain(front) && Plain(behind) && behind != "" && behind[0] != '}'
    ensures !Occurs("{}", front + "{" + behind)
  {
    var s := front + "{" + behind;
    forall i ensures !OccursAt("{}", s, i) {
      if 0 <= i <= |s| - 2 {
        assert s[i..i + 2][0] == s[i] && s[i..i + 2][1] == s[i + 1];
        assert i < |front| ==> s[i] == front[i];
        assert i > |front| ==> s[i] == behind[i - |front| - 1];
      }
    }
  }
}
