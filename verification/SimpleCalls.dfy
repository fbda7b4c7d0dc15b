/** What a new interval means, and what the rewriter makes of a plain call such as `rate(metric[5m])`
    (internal/common/prometheus.go:515-577, 637-659). */
module SimpleCalls {
  import opened Text
  import opened Duration
  import opened DurationReader
  import opened Scanner
  import opened Rewriter
  import opened QueryTree
  import opened TreePasses
  import opened MetricNames
  import opened SettledCalls

  // ---------- texts without structure ----------

  function Chars(s: string, rest: Query): Query {
    if s == "" then rest else Char(s[0], Chars(s[1..], rest))
  }

  lemma {:induction false} PrintChars(s: string, rest: Query)
    ensures Print(Chars(s, rest)) == s + Print(rest)
  {
    if s == "" {
    } else {
      PrintChars(s[1..], rest);
    }
  }

  lemma {:induction false} RewriteChars(env: Env, s: string, rest: Query, name: string, active: set<IntervalFn>)
    requires forall i :: 0 <= i < |s| ==> IsNameChar(s[i])
    ensures Rewrite(env, Chars(s, rest), name, active) == Chars(s, Rewrite(env, rest, name + s, active))
    ensures LeastUsed(env, Chars(s, rest), name, active) == LeastUsed(env, rest, name + s, active)
    decreases |s|
  {
    if s == "" {
      assert name + s == name;
    } else {
      RewriteChars(env, s[1..], rest, name + [s[0]], active);
      assert name + [s[0]] + s[1..] == name + s;
    }
  }

  lemma {:induction false} CharsWellFormed(s: string, rest: Query)
    requires WellFormed(rest) && Inert(s)
    ensures WellFormed(Chars(s, rest))
  {
    if s == "" {
    } else {
      assert InertChar(s[0]);
      CharsWellFormed(s[1..], rest);
    }
  }

  lemma NamesAreInert(s: string)
    requires forall i :: 0 <= i < |s| ==> IsNameChar(s[i])
    ensures Inert(s)
  {
  }

  lemma EndParts()
    ensures Print(End) == "" && OwnInterval(End) == None && !HasRange(End) && WellFormed(End)
  {
  }

  lemma RangeParts(t: string)
    ensures var q := Range(t, End);
            && Print(q) == "[" + (t + "]") && OwnInterval(q) == Some(t) && BeforeOwn(q) == End
            && HasRange(q) && ToFirstRange(q) == "" && WellFormed(q) == Inert(t)
            && forall t' :: SetOwnInterval(q, t') == Range(t', End)
  {
  }

  lemma CharParts(c: char, rest: Query)
    ensures var q := Char(c, rest);
            && Print(q) == [c] + Print(rest) && OwnInterval(q) == OwnInterval(rest) && BeforeOwn(q) == Char(c, BeforeOwn(rest))
            && HasRange(q) == HasRange(rest) && ToFirstRange(q) == [c] + ToFirstRange(rest)
            && WellFormed(q) == (InertChar(c) && WellFormed(rest))
            && forall t :: SetOwnInterval(q, t) == Char(c, SetOwnInterval(rest, t))
  {
  }

  lemma LiteralParts(body: string, rest: Query)
    ensures var q := Literal(body, rest);
            && Print(q) == "\"" + body + "\"" + Print(rest) && OwnInterval(q) == OwnInterval(rest)
            && BeforeOwn(q) == Literal(body, BeforeOwn(rest))
            && HasRange(q) == HasRange(rest) && ToFirstRange(q) == "\"" + body + "\"" + ToFirstRange(rest)
            && WellFormed(q) == (LiteralText(body) && NoCallText(body) && WellFormed(rest))
            && forall t :: SetOwnInterval(q, t) == Literal(body, SetOwnInterval(rest, t))
  {
  }

  lemma ParensParts(inner: Query, rest: Query)
    ensures var q := Parens(inner, rest);
            && Print(q) == "(" + Print(inner) + ")" + Print(rest) && OwnInterval(q) == OwnInterval(rest)
            && BeforeOwn(q) == Parens(inner, BeforeOwn(rest))
            && HasRange(q) == (HasRange(inner) || HasRange(rest))
            && (HasRange(inner) ==> ToFirstRange(q) == "(" + ToFirstRange(inner))
            && WellFormed(q) == (WellFormed(inner) && WellFormed(rest))
            && forall t :: SetOwnInterval(q, t) == Parens(inner, SetOwnInterval(rest, t))
  {
  }

  /** Characters in front of a query change nothing but its beginning. */
  lemma {:induction false} CharsParts(s: string, rest: Query)
    ensures OwnInterval(Chars(s, rest)) == OwnInterval(rest)
    ensures BeforeOwn(Chars(s, rest)) == Chars(s, BeforeOwn(rest))
    ensures HasRange(Chars(s, rest)) == HasRange(rest)
    ensures ToFirstRange(Chars(s, rest)) == s + ToFirstRange(rest)
    ensures forall t :: SetOwnInterval(Chars(s, rest), t) == Chars(s, SetOwnInterval(rest, t))
    decreases |s|
  {
    hide Print;
    if s == "" {
    } else {
      CharsParts(s[1..], rest);
      assert [s[0]] + s[1..] == s;
      Assoc([s[0]], s[1..], ToFirstRange(rest));
    }
  }

  function Or(interval: Option<string>, default: string): string {
    if interval.Some? then interval.value else default
  }

  // ---------- new intervals, read back ----------

  lemma ParseDecimal(n: nat)
    requires n < TWO_63
    ensures ParseInt64(Trim(Decimal(n))) == Some(n)
  {
    hide Decimal, DigitsValue, Trim;
    DecimalDigits(n);
    var s := Decimal(n);
    assert IsDigit(s[0]) && IsDigit(s[|s| - 1]);
    TrimIdentity(s);
  }

  /** A signed number, of which the negative ones reach one further. */
  lemma ParseSigned(n: nat)
    ensures ParseInt64(Decimal(n)) == ParseInt64("+" + Decimal(n)) == if n < 0x8000_0000_0000_0000 then Some(n) else None
    ensures ParseInt64("-" + Decimal(n)) == if n <= 0x8000_0000_0000_0000 then Some(-(n as int)) else None
  {
    hide Decimal, DigitsValue;
    DecimalDigits(n);
    var s := Decimal(n);
    assert IsDigit(s[0]) && ("-" + s)[1..] == s && ("+" + s)[1..] == s;
  }

  /** Anything else than digits behind a sign is no number. */
  lemma ParseOther(s: string)
    requires s != "" && exists i :: 0 <= i < |s| && !('0' <= s[i] <= '9') && (i > 0 || (s[i] != '+' && s[i] != '-'))
    ensures ParseInt64(s) == None
  {
    var i :| 0 <= i < |s| && !('0' <= s[i] <= '9') && (i > 0 || (s[i] != '+' && s[i] != '-'));
    var j := if s[0] == '+' || s[0] == '-' then i - 1 else i;
    assert Unsigned(s)[j] == s[i] && !IsDigit(Unsigned(s)[j]);
  }

  /** The 64-bit number that `x` wraps around to. */
  predicate Wraps(x: int, w: int) {
    && -0x8000_0000_0000_0000 <= w < 0x8000_0000_0000_0000
    && (w - x) % 0x1_0000_0000_0000_0000 == 0
    && (-0x8000_0000_0000_0000 <= x < 0x8000_0000_0000_0000 ==> w == x)
  }

  /** The text is read as `x`, wrapped around. */
  predicate ReadsAs(text: string, x: int) {
    ReadDuration(text).Some? && Wraps(x, ReadDuration(text).value)
  }

  lemma ShowReadsAs(x: int)
    ensures ReadsAs(Show(Wrap64(x)), x)
  {
    hide ReadDuration, Show;
    ReadShow(Wrap64(x));
  }

  /** `*n` means `n` scrape intervals. */
  lemma MultipleOf(scrapeInterval: int, n: nat)
    requires n < 0x8000_0000_0000_0000
    ensures ScrapeMultiple(scrapeInterval, "*" + Decimal(n)) == Some(Wrap64(scrapeInterval * n))
  {
    hide Decimal, ParseInt64, Trim;
    ParseDecimal(n);
    assert ("*" + Decimal(n))[1..] == Decimal(n);
  }

  predicate ReadsDurations(f: IntervalFn) {
    f != OverTime && f != Irate && f != Idelta
  }

  /** A plain duration is lengthened by one scrape interval, in 64-bit arithmetic, except for `irate`, `idelta` and `_over_time`. */
  lemma Lengthened(env: Env, f: IntervalFn, scrapeInterval: int, interval: string, d: int)
    requires env.parseDuration(interval) == Some(d)
    ensures var r := AdjustedInterval(env, f, scrapeInterval, interval);
            && (ReadsDurations(f) ==> r.Some? && ReadsAs(r.value, d + scrapeInterval))
            && ((f == Irate || f == Idelta) && !StartsWith(interval, "*") ==> r == None)
            && (f == OverTime && ':' !in interval ==> r == None)
  {
    hide Show, Trim, ParseInt64, ReadsAs;
    assert interval[0..] == interval;
    ShowReadsAs(d + scrapeInterval);
  }

  /** `*n` becomes `n` scrape intervals, for all functions but `_over_time`. */
  lemma Multiplied(env: Env, f: IntervalFn, scrapeInterval: int, n: nat)
    requires n < 0x8000_0000_0000_0000
    requires f != OverTime && (ReadsDurations(f) ==> env.parseDuration("*" + Decimal(n)) == None)
    ensures var r := AdjustedInterval(env, f, scrapeInterval, "*" + Decimal(n));
            r.Some? && ReadsAs(r.value, scrapeInterval * n)
  {
    hide Show, ScrapeMultiple, Decimal, ReadsAs;
    MultipleOf(scrapeInterval, n);
    ShowReadsAs(scrapeInterval * n);
  }

  /** For `_over_time` the range of a subquery stays and its step `*n` becomes `n` scrape intervals. */
  lemma StepMultiplied(env: Env, scrapeInterval: int, range: string, n: nat) returns (step: string)
    requires n < 0x8000_0000_0000_0000 && ':' !in range
    ensures AdjustedInterval(env, OverTime, scrapeInterval, range + ([':'] + ("*" + Decimal(n)))) == Some(range + ":" + step)
    ensures ReadsAs(step, scrapeInterval * n)
  {
    hide Show, ScrapeMultiple, Decimal, Trim, IndexFrom, ReadsAs;
    var star := "*" + Decimal(n);
    AfterColon(range, star);
    DecimalDigits(n);
    assert IsDigit(Decimal(n)[|Decimal(n)| - 1]);
    TrimIdentity(star);
    MultipleOf(scrapeInterval, n);
    step := Show(Wrap64(scrapeInterval * n));
    ShowReadsAs(scrapeInterval * n);
  }

  lemma AfterColon(range: string, step: string)
    requires ':' !in range
    ensures var interval := range + ([':'] + step);
            IndexFrom(interval, ':', 0) == |range| && interval[|range| + 1..] == step && interval[..|range|] == range
  {
    var interval := range + ([':'] + step);
    forall k | 0 <= k < |range| ensures interval[k] != ':' {
      assert interval[k] == range[k];
    }
    IndexOfEnd(interval, ':', 0, |range|);
  }

  /** A step without white space around it that is no `*n` stays, and so does every interval that is neither
      a duration nor `*n`. */
  lemma OthersStay(env: Env, f: IntervalFn, scrapeInterval: int, range: string, text: string)
    requires text != "" && !IsSpace(text[0]) && !IsSpace(text[|text| - 1]) && ':' !in range
    requires text[0] == '*' ==> ParseInt64(Trim(text[1..])) == None
    ensures f == OverTime ==> AdjustedInterval(env, f, scrapeInterval, range + ([':'] + text)) == None
    ensures f == Irate || f == Idelta || (ReadsDurations(f) && env.parseDuration(text) == None) ==>
              AdjustedInterval(env, f, scrapeInterval, text) == None
  {
    hide Trim, ParseInt64, IndexFrom;
    AfterColon(range, text);
    TrimIdentity(text);
    assert StartsWith(text, "*") <==> text[0] == '*';
  }

  /** The scrape interval of a metric is that of the exporter its prefix names: the one measured from its
      own samples, or else the one measured from `up`. */
  lemma IntervalOfExporter(env: Env, prefix: string, rest: string)
    requires '_' !in prefix
    ensures var si := ScrapeInterval(env, prefix + (['_'] + rest));
            && (prefix !in env.exporters ==> si == 0)
            && (prefix in env.exporters && env.exporters[prefix].actualScrapeInterval > 0 ==>
                  si == env.exporters[prefix].actualScrapeInterval)
            && (prefix in env.exporters && env.exporters[prefix].actualScrapeInterval <= 0 ==>
                  si == env.exporters[prefix].upScrapeInterval)
            && ScrapeInterval(env, prefix) == si
  {
    assert prefix[0..] == prefix;
    var name := prefix + (['_'] + rest);
    forall k | 0 <= k < |prefix| ensures name[k] != '_' {
      assert name[k] == prefix[k];
    }
    IndexOfEnd(name, '_', 0, |prefix|);
    assert name[..|prefix|] == prefix;
  }

  // ---------- a plain call, from text to text ----------

  function CallText(fn: string, metric: string, interval: string): string {
    fn + ("(" + (metric + ("[" + (interval + "])"))))
  }

  function CallTree(fn: string, metric: string, interval: string): Query {
    Chars(fn, Parens(Body(metric, interval), End))
  }

  function Body(metric: string, interval: string): Query {
    Chars(metric, Range(interval, End))
  }

  lemma PrintCallTree(fn: string, metric: string, interval: string)
    ensures Print(CallTree(fn, metric, interval)) == CallText(fn, metric, interval)
  {
    hide Chars;
    var range := Range(interval, End);
    assert Print(range) == "[" + (interval + "]");
    PrintChars(metric, range);
    var body := Body(metric, interval);
    assert Print(Parens(body, End)) == "(" + (Print(body) + ")");
    Regroup(metric, interval);
    PrintChars(fn, Parens(body, End));
  }

  lemma Regroup(metric: string, interval: string)
    ensures metric + ("[" + (interval + "]")) + ")" == metric + ("[" + (interval + "])"))
  {
    Assoc(interval, "]", ")");
    Assoc("[", interval + "]", ")");
    Assoc(metric, "[" + (interval + "]"), ")");
    assert "]" + ")" == "])";
  }

  lemma MetricOfBody(metric: string, interval: string)
    requires IsMetricName(metric)
    ensures Metric(Body(metric, interval)) == metric
  {
    hide NameAtEnd;
    CharsParts(metric, Range(interval, End));
    CharsParts(metric, End);
    PrintChars(metric, End);
    assert Print(Chars(metric, End)) == metric by { assert metric + "" == metric; }
    NameOfSelector("", metric, None);
    assert "" + metric == metric;
  }

  lemma RewriteCallTree(env: Env, f: IntervalFn, fn: string, metric: string, interval: string, active: set<IntervalFn>)
    requires Claims(f, fn) && f in active && IsMetricName(metric)
    requires forall i :: 0 <= i < |fn| ==> IsNameChar(fn[i])
    ensures var new' := AdjustedInterval(env, f, ScrapeInterval(env, metric), interval);
            && Rewrite(env, CallTree(fn, metric, interval), "", active) == CallTree(fn, metric, Or(new', interval))
            && LeastUsed(env, CallTree(fn, metric, interval), "", active)
               == MinPositive(0, if new'.Some? then ScrapeInterval(env, metric) else 0)
  {
    hide AdjustedInterval, Metric, Chars, ScrapeInterval, Claims;
    var body := Body(metric, interval);
    CharsParts(metric, Range(interval, End));
    MetricOfBody(metric, interval);
    ClaimedByOnly(f, fn);
    RewriteChars(env, fn, Parens(body, End), "", active);
    RewriteChars(env, metric, Range(interval, End), "", active - {f});
    assert "" + fn == fn;
    RewriteOfClaimed(env, f, Parens(body, End), fn, active);
  }

  lemma CallTreeWellFormed(fn: string, metric: string, interval: string)
    requires forall i :: 0 <= i < |fn| ==> IsNameChar(fn[i])
    requires IsMetricName(metric) && Inert(interval)
    ensures WellFormed(CallTree(fn, metric, interval))
  {
    hide Chars;
    assert WellFormed(Range(interval, End));
    NamesAreInert(metric);
    NamesAreInert(fn);
    CharsWellFormed(metric, Range(interval, End));
    CharsWellFormed(fn, Parens(Body(metric, interval), End));
  }

  lemma CallTreeSettled(parse: Parser, fn: string, metric: string, interval: string)
    ensures Settled(parse, CallTree(fn, metric, interval), "")
  {
    hide Chars, IsReplaced;
    var body := Body(metric, interval);
    CharsParts(metric, Range(interval, End));
    CharsParts(metric, End);
    assert SettledName(body);
    assert forall name :: Settled(parse, Range(interval, End), name);
    SettledChars(parse, metric, Range(interval, End), "");
    assert forall name :: Settled(parse, Parens(body, End), name);
    SettledChars(parse, fn, Parens(body, End), "");
  }

  lemma {:induction false} SettledChars(parse: Parser, s: string, rest: Query, name: string)
    requires forall n :: Settled(parse, rest, n)
    ensures Settled(parse, Chars(s, rest), name)
    decreases |s|
  {
    if s == "" {
    } else {
      SettledChars(parse, s[1..], rest, NameAfter(name, s[0]));
    }
  }

  /** All eleven passes over the text `fn(metric[interval])`: only the interval is replaced, by what the
      function that owns the name asks for, and the scrape interval of the metric is the one returned. */
  lemma PlainCall(env: Env, f: IntervalFn, fn: string, metric: string, interval: string)
    requires Claims(f, fn) && forall i :: 0 <= i < |fn| ==> IsNameChar(fn[i])
    requires IsMetricName(metric) && Inert(interval)
    ensures var si := ScrapeInterval(env, metric);
            var new' := AdjustedInterval(env, f, si, interval);
            AdjustAll(env, CallText(fn, metric, interval), ALL_FUNCTIONS)
            == (CallText(fn, metric, Or(new', interval)), MinPositive(0, if new'.Some? then si else 0))
  {
    hide AdjustedInterval, ScrapeInterval, Claims, CallTree, CallText, AdjustAll;
    hide Rewrite, LeastUsed, WellFormed, Settled, Steady;
    var q := CallTree(fn, metric, interval);
    CallTreeWellFormed(fn, metric, interval);
    CallTreeSettled(env.parseDuration, fn, metric, interval);
    PrintCallTree(fn, metric, interval);
    SettledIsSteady(env, q, "", Functions(ALL_FUNCTIONS));
    AllPassesOnTree(env, q);
    RewriteCallTree(env, f, fn, metric, interval, Functions(ALL_FUNCTIONS));
    PrintCallTree(fn, metric, Or(AdjustedInterval(env, f, ScrapeInterval(env, metric), interval), interval));
  }
}
