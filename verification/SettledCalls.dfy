/** A condition on the text of a query under which no call depends on the calls inside it, whatever is
    scraped how often (internal/common/prometheus.go:553-559, 716-746). */
module SettledCalls {
  import opened Text
  import opened Duration
  import opened Scanner
  import opened Rewriter
  import opened QueryTree
  import opened TreePasses
  import opened MetricNames
  import opened PassOrder

  // ---------- the text after the last range ----------

  /** What follows the last range anywhere. */
  function AfterLastRange(q: Query): string
    requires HasRange(q)
  {
    match q
    case End => assert false; ""
    case Char(_, rest) => AfterLastRange(rest)
    case Literal(_, rest) => AfterLastRange(rest)
    case Parens(inner, rest) =>
      if HasRange(rest) then AfterLastRange(rest) else AfterLastRange(inner) + (")" + Print(rest))
    case Range(_, rest) =>
      if HasRange(rest) then AfterLastRange(rest) else Print(rest)
  }

  /** The text before that. */
  function ThroughLastRange(q: Query): string
    requires HasRange(q)
  {
    match q
    case End => assert false; ""
    case Char(c, rest) => [c] + ThroughLastRange(rest)
    case Literal(body, rest) => "\"" + body + "\"" + ThroughLastRange(rest)
    case Parens(inner, rest) =>
      if HasRange(rest) then "(" + Print(inner) + ")" + ThroughLastRange(rest) else "(" + ThroughLastRange(inner)
    case Range(interval, rest) =>
      "[" + interval + "]" + if HasRange(rest) then ThroughLastRange(rest) else ""
  }

  lemma {:induction false} PrintAroundLast(q: Query)
    requires HasRange(q)
    ensures Print(q) == ThroughLastRange(q) + AfterLastRange(q)
    ensures var up := ThroughLastRange(q); up != "" && up[|up| - 1] == ']'
  {
    match q
    case End =>
    case Char(c, rest) =>
      PrintAroundLast(rest);
      Assoc([c], ThroughLastRange(rest), AfterLastRange(rest));
    case Literal(body, rest) =>
      PrintAroundLast(rest);
      Assoc("\"" + body + "\"", ThroughLastRange(rest), AfterLastRange(rest));
    case Parens(inner, rest) =>
      if HasRange(rest) {
        PrintAroundLast(rest);
        Assoc("(" + Print(inner) + ")", ThroughLastRange(rest), AfterLastRange(rest));
      } else {
        PrintAroundLast(inner);
        var up, behind := ThroughLastRange(inner), AfterLastRange(inner);
        Assoc4("(", up, behind, ")" + Print(rest));
        Assoc4("(", up + behind, ")", Print(rest));
        Assoc(up, behind, ")" + Print(rest));
      }
    case Range(interval, rest) =>
      var own := "[" + interval + "]";
      assert own + "" == own;
      if HasRange(rest) {
        PrintAroundLast(rest);
        Assoc(own, ThroughLastRange(rest), AfterLastRange(rest));
      }
  }

  /** The last range of a query printed at `a` ends outside literals. */
  predicate EndsInCode(s: string, a: nat, q: Query)
    requires HasRange(q)
  {
    a + |ThroughLastRange(q)| <= |s| && ModeAt(s, 0, a + |ThroughLastRange(q)|) == Code
  }

  lemma {:induction false} CodeAfterLastRange(s: string, a: nat, q: Query)
    requires Holds(s, a, Print(q)) && WellFormed(q) && HasRange(q) && ModeAt(s, 0, a) == Code
    ensures EndsInCode(s, a, q)
    decreases q
  {
    hide Holds, Print, ModeAt, LiteralText, NoCallText, Inert, InertChar, EndsInCode, ThroughLastRange;
    match q
    case End =>
    case Char(c, rest) =>
      AtChar(s, a, q);
      SkipCode(s, a, c);
      CodeAfterLastRange(s, a + 1, rest);
      EndsLater(s, a, a + 1, q);
    case Literal(body, rest) =>
      AtLiteral(s, a, q);
      SkipLiteral(s, a, body);
      CodeAfterLastRange(s, a + |body| + 2, rest);
      EndsLater(s, a, a + |body| + 2, q);
    case Parens(inner, rest) =>
      CodeInParens(s, a, q);
      if HasRange(rest) {
        CodeAfterLastRange(s, a + |Print(inner)| + 2, rest);
        EndsLater(s, a, a + |Print(inner)| + 2, q);
      } else {
        CodeAfterLastRange(s, a + 1, inner);
        EndsInside(s, a, q);
      }
    case Range(interval, rest) =>
      AtRange(s, a, q);
      NeutralRange(s, 0, a, interval);
      if HasRange(rest) {
        CodeAfterLastRange(s, a + |interval| + 2, rest);
        EndsLater(s, a, a + |interval| + 2, q);
      } else {
        EndsHere(s, a, q);
      }
  }

  lemma EndsLater(s: string, a: nat, b: nat, q: Query)
    requires !q.End? && HasRange(q) && HasRange(q.rest) && |Print(q)| == b - a + |Print(q.rest)|
    requires EndsInCode(s, b, q.rest)
    ensures EndsInCode(s, a, q)
  {
    hide ModeAt;
    assert |ThroughLastRange(q)| == b - a + |ThroughLastRange(q.rest)| by { hide ThroughLastRange; ThroughLength(q); }
  }

  lemma ThroughLength(q: Query)
    requires !q.End? && HasRange(q) && HasRange(q.rest)
    ensures |ThroughLastRange(q)| - |ThroughLastRange(q.rest)| == |Print(q)| - |Print(q.rest)|
  {
  }

  lemma EndsInside(s: string, a: nat, q: Query)
    requires q.Parens? && HasRange(q) && !HasRange(q.rest) && EndsInCode(s, a + 1, q.inner)
    ensures EndsInCode(s, a, q)
  {
    hide ModeAt;
  }

  lemma EndsHere(s: string, a: nat, q: Query)
    requires q.Range? && !HasRange(q.rest) && a + |q.interval| + 2 <= |s| && ModeAt(s, 0, a + |q.interval| + 2) == Code
    ensures EndsInCode(s, a, q)
  {
    hide ModeAt;
  }

  lemma SkipCode(s: string, a: nat, c: char)
    requires a < |s| && s[a] == c && InertChar(c) && ModeAt(s, 0, a) == Code
    ensures ModeAt(s, 0, a + 1) == Code
  {
  }

  lemma CodeInParens(s: string, a: nat, q: Query)
    requires q.Parens? && Holds(s, a, Print(q)) && WellFormed(q) && ModeAt(s, 0, a) == Code
    ensures |Print(q)| == |Print(q.inner)| + 2 + |Print(q.rest)| && a + |Print(q)| <= |s|
    ensures ModeAt(s, 0, a + 1) == Code && Holds(s, a + 1, Print(q.inner))
    ensures ModeAt(s, 0, a + |Print(q.inner)| + 2) == Code && Holds(s, a + |Print(q.inner)| + 2, Print(q.rest))
  {
    hide ModeAt, Print;
    AtParens(s, a, q);
    StepOverParen(s, a);
    ScanQuery(s, 0, a + 1, q.inner);
    StepOverParen(s, a + 1 + |Print(q.inner)|);
  }

  lemma ThroughIsCode(q: Query)
    requires WellFormed(q) && HasRange(q)
    ensures var up := ThroughLastRange(q);
            && Print(q) == up + AfterLastRange(q)
            && up != "" && up[|up| - 1] == ']' && ModeAt(up, 0, |up|) == Code
  {
    hide ModeAt, AfterLastRange, ThroughLastRange, Print;
    var s, up := Print(q), ThroughLastRange(q);
    HoldsSelf(s);
    ModeAtStart(s);
    CodeAfterLastRange(s, 0, q);
    PrintAroundLast(q);
    ModeOfPrefix(up, AfterLastRange(q), |up|);
  }

  lemma ModeAtStart(s: string)
    ensures ModeAt(s, 0, 0) == Code
  {
  }

  lemma {:induction false} NoRangeNoChange(env: Env, q: Query, name: string, active: set<IntervalFn>)
    requires !HasRange(q)
    ensures Rewrite(env, q, name, active) == q
    decreases q
  {
    match q
    case End =>
    case Char(c, rest) => NoRangeNoChange(env, rest, NameAfter(name, c), active);
    case Literal(_, rest) => NoRangeNoChange(env, rest, "", active);
    case Range(_, _) =>
    case Parens(inner, rest) =>
      NoRangeNoChange(env, rest, "", active);
      var f := ClaimedBy(name);
      NoOwnInterval(inner);
      NoRangeNoChange(env, inner, "", if f.Some? && f.value in active then active - {f.value} else active);
  }

  lemma {:induction false} NoOwnInterval(q: Query)
    requires !HasRange(q)
    ensures OwnInterval(q) == None
  {
    if q.Char? || q.Literal? || q.Parens? {
      NoOwnInterval(q.rest);
    }
  }

  lemma {:induction false} SetOwnKeepsEnd(q: Query, t: string)
    requires HasRange(q)
    ensures HasRange(SetOwnInterval(q, t)) && AfterLastRange(SetOwnInterval(q, t)) == AfterLastRange(q)
  {
    SetOwnKeepsStart(q, t);
    if q.Char? || q.Literal? || q.Parens? {
      SetOwnKeepsStart(q.rest, t);
      if HasRange(q.rest) {
        SetOwnKeepsEnd(q.rest, t);
      } else {
        NoOwnInterval(q.rest);
        SetOwnBack(q.rest, t);
      }
    }
  }

  /** A rewrite changes nothing after the last range. */
  lemma {:induction false} RewriteKeepsEnd(env: Env, q: Query, name: string, active: set<IntervalFn>)
    requires HasRange(q)
    ensures var q' := Rewrite(env, q, name, active); HasRange(q') && AfterLastRange(q') == AfterLastRange(q)
    decreases q, 0
  {
    hide NewInterval, Print;
    RewriteKeepsStart(env, q, name, active);
    match q
    case End =>
    case Char(c, rest) => RewriteKeepsEnd(env, rest, NameAfter(name, c), active);
    case Literal(_, rest) => RewriteKeepsEnd(env, rest, "", active);
    case Range(_, rest) =>
      RestKeepsEnd(env, rest, active);
    case Parens(inner, rest) =>
      RestKeepsEnd(env, rest, active);
      InnerKeepsEnd(env, inner, name, active);
  }

  lemma RestKeepsEnd(env: Env, rest: Query, active: set<IntervalFn>)
    ensures var rest' := Rewrite(env, rest, "", active);
            && HasRange(rest') == HasRange(rest)
            && (HasRange(rest) ==> AfterLastRange(rest') == AfterLastRange(rest)) && (!HasRange(rest) ==> rest' == rest)
    decreases rest, 1
  {
    hide Rewrite, AfterLastRange;
    RewriteKeepsStart(env, rest, "", active);
    if HasRange(rest) {
      RewriteKeepsEnd(env, rest, "", active);
    } else {
      NoRangeNoChange(env, rest, "", active);
    }
  }

  lemma InnerKeepsEnd(env: Env, inner: Query, name: string, active: set<IntervalFn>)
    ensures var inner' := RewriteInner(env, inner, name, active);
            && HasRange(inner') == HasRange(inner)
            && (HasRange(inner) ==> AfterLastRange(inner') == AfterLastRange(inner))
    decreases inner, 1
  {
    hide Rewrite, AfterLastRange, NewInterval;
    RewriteKeepsInner(env, inner, name, active);
    if HasRange(inner) {
      var f := ClaimedBy(name);
      if f.Some? && f.value in active {
        RewriteKeepsEnd(env, inner, "", active - {f.value});
        var changed := NewInterval(env, f.value, inner);
        if changed.Some? {
          SetOwnKeepsEnd(Rewrite(env, inner, "", active - {f.value}), changed.value);
        }
      } else {
        RewriteKeepsEnd(env, inner, "", active);
      }
    }
  }

  // ---------- the name that is fallen back on ----------

  /** A name begins in this text, at a plain delimiter. */
  predicate PlainNameIn(post: string) {
    var k := LastIndexAny(post, NAME_DELIMITERS);
    k != -1 && k + 1 < |post| && !IsSpace(post[|post| - 1]) && post[|post| - 1] != '}'
  }

  /** The text ends in a selector with label matchers. */
  predicate IsSelectorBehind(post: string, pre: string, name: string, labels: string) {
    && post == pre + Selector(name, Some(labels))
    && pre != "" && IsLeadIn(pre) && IsMetricName(name) && IsLabelText(labels)
  }

  ghost predicate NameIn(post: string) {
    PlainNameIn(post) || exists pre, name, labels :: IsSelectorBehind(post, pre, name, labels)
  }

  lemma {:induction false} TrimLeftKeeps(up: string, post: string)
    requires up != "" && !IsSpace(up[|up| - 1])
    ensures TrimLeft(up) != "" && TrimLeft(up + post) == TrimLeft(up) + post
    decreases |up|
  {
    if IsSpace(up[0]) {
      assert (up + post)[1..] == up[1..] + post;
      TrimLeftKeeps(up[1..], post);
    }
  }

  lemma {:induction false} LastDelimiterIn(up: string, post: string, chars: string)
    requires LastIndexAny(post, chars) != -1
    ensures LastIndexAny(up + post, chars) == |up| + LastIndexAny(post, chars)
    decreases |post|
  {
    var n := |post| - 1;
    assert (up + post)[|up| + n] == post[n];
    if post[n] !in chars {
      assert (up + post)[..|up| + n] == up + post[..n];
      LastDelimiterIn(up, post[..n], chars);
    }
  }

  lemma TrimPlain(up: string, post: string)
    requires up != "" && !IsSpace(up[|up| - 1]) && post != "" && !IsSpace(post[|post| - 1])
    ensures Trim(up + post) == TrimLeft(up) + post && TrimLeft(up) != ""
  {
    hide TrimLeft;
    TrimLeftKeeps(up, post);
    var s := TrimLeft(up) + post;
    assert s[|s| - 1] == post[|post| - 1];
  }

  /** Without a selector at the end, the name is what follows the last delimiter. */
  lemma NameWithoutSelector(expr: string, s: string, tail: string)
    requires Trim(expr) == s && !EndsWith(s, "}") && s[LastIndexAny(s, NAME_DELIMITERS) + 1..] == tail
    ensures NameAtEnd(expr) == Trim(Before(tail, '{'))
  {
    hide LastIndexAny, Before, LastCode, Trim, EndsWith;
  }

  /** With one, what follows the last delimiter in front of the selector's brace. */
  lemma NameWithSelector(expr: string, s: string, k: nat, tail: string)
    requires Trim(expr) == s && EndsWith(s, "}") && k < |s| && LastCode(s, '{', |s|) == k
    requires s[..k][LastIndexAny(s[..k], NAME_DELIMITERS) + 1..] == tail
    ensures NameAtEnd(expr) == Trim(Before(tail, '{'))
  {
    hide LastIndexAny, Before, LastCode, Trim, EndsWith;
  }

  lemma PlainName(up: string, post: string)
    requires up != "" && !IsSpace(up[|up| - 1]) && PlainNameIn(post)
    ensures NameAtEnd(up + post) == Trim(Before(post[LastIndexAny(post, NAME_DELIMITERS) + 1..], '{'))
  {
    hide LastIndexAny, Before, LastCode, TrimLeft, Trim, EndsWith, IsSpace, NameAtEnd;
    TrimPlain(up, post);
    var lead, k := TrimLeft(up), LastIndexAny(post, NAME_DELIMITERS);
    EndsPlainly(lead, post);
    LastDelimiterIn(lead, post, NAME_DELIMITERS);
    TailOfJoin(lead, post, k + 1);
    NameWithoutSelector(up + post, lead + post, post[k + 1..]);
  }

  lemma EndsPlainly(lead: string, post: string)
    requires post != "" && post[|post| - 1] != '}'
    ensures !EndsWith(lead + post, "}")
  {
    EndsInBrace(lead + post);
  }

  lemma TailOfJoin(a: string, b: string, k: nat)
    requires k <= |b|
    ensures (a + b)[|a| + k..] == b[k..]
  {
  }

  lemma SelectorBehind(up: string, post: string, pre: string, name: string, labels: string)
    requires up != "" && ModeAt(up, 0, |up|) == Code && IsSelectorBehind(post, pre, name, labels)
    ensures NameAtEnd(up + post) == name
  {
    hide ModeAt, NameAtEnd;
    ModeOfSuffix(up, pre, |pre|);
    assert (up + pre)[|up + pre| - 1] == pre[|pre| - 1];
    Assoc(up, pre, Selector(name, Some(labels)));
    NameOfSelector(up + pre, name, Some(labels));
  }

  /** A name that begins after the last range does not depend on what is before. */
  lemma NameBehind(up: string, other: string, post: string)
    requires up != "" && up[|up| - 1] == ']' && ModeAt(up, 0, |up|) == Code
    requires other != "" && other[|other| - 1] == ']' && ModeAt(other, 0, |other|) == Code
    requires NameIn(post)
    ensures NameAtEnd(up + post) == NameAtEnd(other + post)
  {
    hide NameAtEnd, ModeAt, PlainNameIn, IsSelectorBehind;
    if PlainNameIn(post) {
      PlainName(up, post);
      PlainName(other, post);
    } else {
      var pre, name, labels :| IsSelectorBehind(post, pre, name, labels);
      SelectorBehind(up, post, pre, name, labels);
      SelectorBehind(other, post, pre, name, labels);
    }
  }

  // ---------- settled calls are steady ----------

  type Parser = string -> Option<int>

  /** Whether a call's own interval is one that is replaced, whatever the scrape interval. */
  predicate IsReplaced(parse: Parser, f: IntervalFn, body: Query) {
    var own := OwnInterval(body);
    own.Some? && AdjustedInterval(Env(map[], parse), f, 0, own.value).Some?
  }

  lemma ReplacedWhatever(env: Env, f: IntervalFn, body: Query)
    ensures NewInterval(env, f, body).Some? <==> IsReplaced(env.parseDuration, f, body)
  {
    hide Metric, ScrapeInterval, ParseInt64, Trim, IndexFrom, Show;
  }

  /** The metric of a call is settled: the call holds no range before its own, or its first range is
      named, or the name fallen back on begins after the last of these ranges. */
  ghost predicate SettledName(body: Query) {
    var before := BeforeOwn(body);
    HasRange(before) ==> NameAtEnd(ToFirstRange(before)) != "" || NameIn(AfterLastRange(before))
  }

  /** That matters only where the own interval is replaced. */
  ghost predicate SettledBody(parse: Parser, f: IntervalFn, body: Query) {
    IsReplaced(parse, f, body) ==> SettledName(body)
  }

  ghost predicate Settled(parse: Parser, q: Query, name: string) {
    match q
    case End => true
    case Char(c, rest) => Settled(parse, rest, NameAfter(name, c))
    case Literal(_, rest) => Settled(parse, rest, "")
    case Range(_, rest) => Settled(parse, rest, "")
    case Parens(inner, rest) =>
      && (ClaimedBy(name).Some? ==> SettledBody(parse, ClaimedBy(name).value, inner))
      && Settled(parse, inner, "") && Settled(parse, rest, "")
  }

  lemma {:induction false} BeforeOwnIsWellFormed(q: Query)
    requires WellFormed(q)
    ensures WellFormed(BeforeOwn(q))
  {
    BeforeOwnWellFormed(q);
  }

  lemma SettledMetric(env: Env, body: Query, active: set<IntervalFn>)
    requires WellFormed(body) && SettledName(body)
    ensures Metric(Rewrite(env, body, "", active)) == Metric(body)
  {
    hide NameAtEnd, ToFirstRange, Rewrite, Metric, WellFormed, NameIn, Print;
    if MetricNamed(body) {
      SameMetric(env, body, active);
    } else {
      var before := BeforeOwn(body);
      RewriteBeforeOwn(env, body, "", active);
      RewriteKeepsStart(env, before, "", active);
      BeforeOwnIsWellFormed(body);
      SettledFallback(env, before, active);
      MetricIsFallback(body);
      MetricIsFallback(Rewrite(env, body, "", active));
    }
  }

  lemma MetricIsFallback(body: Query)
    requires !MetricNamed(body)
    ensures Metric(body) == NameAtEnd(Print(BeforeOwn(body)))
  {
    hide NameAtEnd, ToFirstRange, Print;
  }

  lemma SettledFallback(env: Env, before: Query, active: set<IntervalFn>)
    requires WellFormed(before) && HasRange(before) && NameIn(AfterLastRange(before))
    ensures NameAtEnd(Print(Rewrite(env, before, "", active))) == NameAtEnd(Print(before))
  {
    hide NameAtEnd, Rewrite, AfterLastRange, ThroughLastRange, ModeAt, WellFormed, NameIn, Print;
    var before' := Rewrite(env, before, "", active);
    RewriteKeepsEnd(env, before, "", active);
    RewriteWellFormed(env, before, "", active);
    ThroughIsCode(before);
    ThroughIsCode(before');
    NameBehind(ThroughLastRange(before), ThroughLastRange(before'), AfterLastRange(before));
  }

  lemma SettledRequest(env: Env, f: IntervalFn, body: Query, others: set<IntervalFn>)
    requires WellFormed(body) && SettledBody(env.parseDuration, f, body)
    ensures SteadyRequest(env, f, body, others, true)
  {
    hide Rewrite, SettledName, WellFormed, Metric, AdjustedInterval, ScrapeInterval, NewInterval, Used;
    forall s | s <= others ensures SameRequest(env, f, body, Rewrite(env, body, "", s), true) {
      var body' := Rewrite(env, body, "", s);
      RewriteKeepsStart(env, body, "", s);
      ReplacedWhatever(env, f, body);
      ReplacedWhatever(env, f, body');
      if IsReplaced(env.parseDuration, f, body) {
        SettledMetric(env, body, s);
        SameOwnAndMetric(env, f, body, body');
      } else {
        NotReplaced(env, f, body);
        NotReplaced(env, f, body');
      }
    }
  }

  lemma SameOwnAndMetric(env: Env, f: IntervalFn, body: Query, other: Query)
    requires Metric(other) == Metric(body) && OwnInterval(other) == OwnInterval(body)
    ensures NewInterval(env, f, other) == NewInterval(env, f, body) && Used(env, f, other) == Used(env, f, body)
  {
    hide Metric, AdjustedInterval, ScrapeInterval;
  }

  lemma NotReplaced(env: Env, f: IntervalFn, body: Query)
    requires NewInterval(env, f, body).None?
    ensures Used(env, f, body) == 0
  {
  }

  /** So every pass order gives the same query and interval. */
  lemma {:induction false} SettledIsSteady(env: Env, q: Query, name: string, active: set<IntervalFn>)
    requires WellFormed(q) && Settled(env.parseDuration, q, name)
    ensures Steady(env, q, name, active, true)
    decreases q
  {
    match q
    case End =>
    case Char(c, rest) => SettledIsSteady(env, rest, NameAfter(name, c), active);
    case Literal(_, rest) => SettledIsSteady(env, rest, "", active);
    case Range(_, rest) => SettledIsSteady(env, rest, "", active);
    case Parens(inner, rest) =>
      hide SteadyRequest, SettledBody, SettledName;
      SettledIsSteady(env, rest, "", active);
      var f := ClaimedBy(name);
      if f.Some? {
        SettledIsSteady(env, inner, "", active - {f.value});
        SettledRequest(env, f.value, inner, active - {f.value});
      } else {
        SettledIsSteady(env, inner, "", active);
      }
  }

  /** Without exporters every query is steady, settled or not. */
  lemma {:induction false} NothingScrapedIsSteady(env: Env, q: Query, name: string, active: set<IntervalFn>)
    requires env.exporters == map[]
    ensures Steady(env, q, name, active, true)
    decreases q
  {
    match q
    case End =>
    case Char(c, rest) => NothingScrapedIsSteady(env, rest, NameAfter(name, c), active);
    case Literal(_, rest) => NothingScrapedIsSteady(env, rest, "", active);
    case Range(_, rest) => NothingScrapedIsSteady(env, rest, "", active);
    case Parens(inner, rest) =>
      hide SteadyRequest;
      NothingScrapedIsSteady(env, rest, "", active);
      var f := ClaimedBy(name);
      if f.Some? {
        NothingScrapedIsSteady(env, inner, "", active - {f.value});
        NothingScrapedRequest(env, f.value, inner, active - {f.value});
      } else {
        NothingScrapedIsSteady(env, inner, "", active);
      }
  }

  lemma NothingScrapedRequest(env: Env, f: IntervalFn, body: Query, others: set<IntervalFn>)
    requires env.exporters == map[]
    ensures SteadyRequest(env, f, body, others, true)
  {
    hide Rewrite, Metric, AdjustedInterval;
    forall s | s <= others ensures SameRequest(env, f, body, Rewrite(env, body, "", s), true) {
      RewriteKeepsStart(env, body, "", s);
    }
  }
}
