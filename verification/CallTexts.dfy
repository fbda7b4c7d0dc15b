/** All eleven passes over the text of one call, from text to text: which names are adjusted, what their new
    intervals mean when read, and that nothing else changes (internal/common/prometheus.go:498-659). */
module CallTexts {
  import opened Text
  import opened Duration
  import opened DurationReader
  import opened Rewriter
  import opened QueryTree
  import opened TreePasses
  import opened MetricNames
  import opened SettledCalls
  import opened SimpleCalls

  predicate IsWord(s: string) {
    forall i :: 0 <= i < |s| ==> IsWordChar(s[i])
  }

  predicate IsWordChar(c: char) {
    c == '_' || c == ':' || '0' <= c <= '9' || 'A' <= c <= 'Z' || 'a' <= c <= 'z'
  }

  /** Text without parentheses, brackets and quotes. */
  predicate IsSimple(s: string) {
    forall i :: 0 <= i < |s| ==> s[i] !in "()[]\""
  }

  /** Simple text that a name does not continue. */
  predicate CanPrecede(s: string) {
    IsSimple(s) && (s != "" ==> !IsWordChar(s[|s| - 1]))
  }

  predicate IsMetric(s: string) {
    s != "" && IsWord(s) && ':' !in s
  }

  function CallIn(pre: string, fn: string, metric: string, interval: string): string {
    pre + (fn + ("(" + (metric + ("[" + (interval + "])")))))
  }

  // ---------- the passes ----------

  /** The name that a text ends in. */
  function TrailingName(name: string, s: string): string
    decreases |s|
  {
    if s == "" then name else TrailingName(NameAfter(name, s[0]), s[1..])
  }

  lemma {:induction false} NothingBehind(name: string, s: string)
    requires s != "" && !IsWordChar(s[|s| - 1])
    ensures TrailingName(name, s) == ""
    decreases |s|
  {
    if |s| > 1 {
      NothingBehind(NameAfter(name, s[0]), s[1..]);
    } else {
      assert s[1..] == "";
    }
  }

  lemma {:induction false} RewriteBehind(env: Env, s: string, rest: Query, name: string, active: set<IntervalFn>)
    ensures Rewrite(env, Chars(s, rest), name, active) == Chars(s, Rewrite(env, rest, TrailingName(name, s), active))
    ensures LeastUsed(env, Chars(s, rest), name, active) == LeastUsed(env, rest, TrailingName(name, s), active)
    decreases |s|
  {
    if s == "" {
    } else {
      RewriteBehind(env, s[1..], rest, NameAfter(name, s[0]), active);
    }
  }

  lemma BodyStays(env: Env, metric: string, interval: string, active: set<IntervalFn>)
    ensures Rewrite(env, Body(metric, interval), "", active) == Body(metric, interval)
    ensures LeastUsed(env, Body(metric, interval), "", active) == 0
  {
    hide Chars;
    RewriteBehind(env, metric, Range(interval, End), "", active);
  }

  lemma ParensStay(env: Env, name: string, inner: Query, active: set<IntervalFn>)
    requires ClaimedBy(name).None?
    requires Rewrite(env, inner, "", active) == inner && LeastUsed(env, inner, "", active) == 0
    ensures Rewrite(env, Parens(inner, End), name, active) == Parens(inner, End)
    ensures LeastUsed(env, Parens(inner, End), name, active) == 0
  {
    hide ClaimedBy, NewInterval;
  }

  /** A call that no function claims, without calls in it. */
  lemma RewriteUnclaimedCall(env: Env, fn: string, metric: string, interval: string, active: set<IntervalFn>)
    requires ClaimedBy(fn).None? && IsWord(fn)
    ensures Rewrite(env, CallTree(fn, metric, interval), "", active) == CallTree(fn, metric, interval)
    ensures LeastUsed(env, CallTree(fn, metric, interval), "", active) == 0
  {
    hide Chars, Rewrite, LeastUsed, ClaimedBy, Body;
    var body := Body(metric, interval);
    RewriteChars(env, fn, Parens(body, End), "", active);
    BodyStays(env, metric, interval, active);
    assert "" + fn == fn;
    ParensStay(env, fn, body, active);
  }

  lemma Preceded(env: Env, pre: string, q: Query)
    requires CanPrecede(pre) && WellFormed(q) && Settled(env.parseDuration, q, "")
    ensures AdjustAll(env, pre + Print(q), ALL_FUNCTIONS)
         == (pre + Print(Rewrite(env, q, "", Functions(ALL_FUNCTIONS))), LeastUsed(env, q, "", Functions(ALL_FUNCTIONS)))
  {
    hide Chars, AdjustAll, Rewrite, LeastUsed, WellFormed, Settled, Steady, Print;
    var all := Functions(ALL_FUNCTIONS);
    var whole := Chars(pre, q);
    assert Inert(pre);
    CharsWellFormed(pre, q);
    SettledBehind(env.parseDuration, pre, q, "");
    SettledIsSteady(env, whole, "", all);
    AllPassesOnTree(env, whole);
    RewriteBehind(env, pre, q, "", all);
    if pre != "" {
      NothingBehind("", pre);
    }
    PrintChars(pre, q);
    PrintChars(pre, Rewrite(env, q, "", all));
  }

  lemma {:induction false} SettledBehind(parse: Parser, s: string, rest: Query, name: string)
    requires (s == "" ==> Settled(parse, rest, name)) && (s != "" ==> !IsWordChar(s[|s| - 1]) && Settled(parse, rest, ""))
    ensures Settled(parse, Chars(s, rest), name)
    decreases |s|
  {
    if s == "" {
    } else {
      if |s| == 1 {
        assert NameAfter(name, s[0]) == "";
      }
      SettledBehind(parse, s[1..], rest, NameAfter(name, s[0]));
    }
  }

  lemma PassesClaimed(env: Env, pre: string, f: IntervalFn, fn: string, metric: string, interval: string)
    requires CanPrecede(pre) && Claims(f, fn) && IsWord(fn) && IsMetric(metric) && IsSimple(interval)
    ensures var si := ScrapeInterval(env, metric);
            var new' := AdjustedInterval(env, f, si, interval);
            AdjustAll(env, CallIn(pre, fn, metric, interval), ALL_FUNCTIONS)
            == (CallIn(pre, fn, metric, Or(new', interval)), if new'.Some? && si > 0 then si else 0)
  {
    hide AdjustedInterval, ScrapeInterval, Claims, CallTree, AdjustAll, Rewrite, LeastUsed, WellFormed, Settled;
    var q := CallTree(fn, metric, interval);
    var new' := AdjustedInterval(env, f, ScrapeInterval(env, metric), interval);
    CallTreeWellFormed(fn, metric, interval);
    CallTreeSettled(env.parseDuration, fn, metric, interval);
    Preceded(env, pre, q);
    PrintCallTree(fn, metric, interval);
    AllAreActive(f);
    RewriteCallTree(env, f, fn, metric, interval, Functions(ALL_FUNCTIONS));
    PrintCallTree(fn, metric, Or(new', interval));
  }

  lemma AllAreActive(f: IntervalFn)
    ensures f in Functions(ALL_FUNCTIONS)
  {
    AllListed(f);
  }

  // ---------- by name ----------

  const LENGTHENED := {"rate", "increase", "changes", "delta", "deriv", "predict_linear", "holt_winters", "resets"}

  lemma Named(fn: string) returns (f: IntervalFn)
    requires fn in LENGTHENED
    ensures Claims(f, fn) && ReadsDurations(f) && IsWord(fn)
  {
    f := if fn == "rate" then Rate else if fn == "increase" then Increase else if fn == "changes" then Changes
         else if fn == "delta" then Delta else if fn == "deriv" then Deriv
         else if fn == "predict_linear" then PredictLinear else if fn == "holt_winters" then HoltWinters else Resets;
  }

  /** `rate`, `increase`, `changes`, `delta`, `deriv`, `predict_linear`, `holt_winters` and `resets`: a
      duration is lengthened by the metric's scrape interval, which is also returned. */
  lemma DurationsAreLengthened(env: Env, pre: string, fn: string, metric: string, interval: string, d: int)
    returns (t: string)
    requires CanPrecede(pre) && IsMetric(metric) && IsSimple(interval)
    requires fn in {"rate", "increase", "changes", "delta", "deriv", "predict_linear", "holt_winters", "resets"}
    requires env.parseDuration(interval) == Some(d)
    ensures var si := ScrapeInterval(env, metric);
            && AdjustAll(env, CallIn(pre, fn, metric, interval), ALL_FUNCTIONS)
               == (CallIn(pre, fn, metric, t), if si > 0 then si else 0)
            && ReadsAs(t, d + si)
  {
    hide AdjustedInterval, ScrapeInterval, AdjustAll, Claims, ReadsAs;
    var f := Named(fn);
    var si := ScrapeInterval(env, metric);
    PassesClaimed(env, pre, f, fn, metric, interval);
    Lengthened(env, f, si, interval, d);
    t := AdjustedInterval(env, f, si, interval).value;
  }

  /** `*n` becomes `n` scrape intervals, for these and for `irate` and `idelta`. */
  lemma StarsAreMultiplied(env: Env, pre: string, fn: string, metric: string, n: nat) returns (t: string)
    requires CanPrecede(pre) && IsMetric(metric) && n < 0x8000_0000_0000_0000
    requires fn in LENGTHENED + {"irate", "idelta"}
    requires fn in LENGTHENED ==> env.parseDuration("*" + Decimal(n)) == None
    ensures var si := ScrapeInterval(env, metric);
            && AdjustAll(env, CallIn(pre, fn, metric, "*" + Decimal(n)), ALL_FUNCTIONS)
               == (CallIn(pre, fn, metric, t), if si > 0 then si else 0)
            && ReadsAs(t, si * n)
  {
    hide AdjustedInterval, ScrapeInterval, AdjustAll, ReadsAs, Decimal;
    var f;
    if fn in LENGTHENED {
      f := Named(fn);
    } else {
      f := if fn == "irate" then Irate else Idelta;
    }
    hide Claims;
    DecimalDigits(n);
    var si := ScrapeInterval(env, metric);
    PassesClaimed(env, pre, f, fn, metric, "*" + Decimal(n));
    Multiplied(env, f, si, n);
    t := AdjustedInterval(env, f, si, "*" + Decimal(n)).value;
  }

  lemma OverTimeName(stem: string)
    requires IsWord(stem)
    ensures Claims(OverTime, stem + "_over_time") && IsWord(stem + "_over_time")
  {
    assert (stem + "_over_time")[|stem|..] == "_over_time";
  }

  lemma SimpleStep(range: string, n: nat)
    requires IsSimple(range)
    ensures IsSimple(range + ([':'] + ("*" + Decimal(n))))
  {
    hide Decimal;
    DecimalDigits(n);
  }

  /** For every function whose name ends in `_over_time` the range stays and the step `*n` of a subquery
      becomes `n` scrape intervals. */
  lemma StepsAreMultiplied(env: Env, pre: string, stem: string, metric: string, range: string, n: nat) returns (t: string)
    requires CanPrecede(pre) && IsWord(stem) && IsMetric(metric) && IsSimple(range) && ':' !in range && n < 0x8000_0000_0000_0000
    ensures var si := ScrapeInterval(env, metric);
            && AdjustAll(env, CallIn(pre, stem + "_over_time", metric, range + ([':'] + ("*" + Decimal(n)))), ALL_FUNCTIONS)
               == (CallIn(pre, stem + "_over_time", metric, range + ":" + t), if si > 0 then si else 0)
            && ReadsAs(t, si * n)
  {
    hide AdjustedInterval, ScrapeInterval, AdjustAll, ReadsAs, Decimal;
    var fn, interval := stem + "_over_time", range + ([':'] + ("*" + Decimal(n)));
    hide Claims, IsSimple, IsWord, IsMetric, CanPrecede;
    OverTimeName(stem);
    SimpleStep(range, n);
    PassesClaimed(env, pre, OverTime, fn, metric, interval);
    t := StepMultiplied(env, ScrapeInterval(env, metric), range, n);
  }

  /** All other calls stay as they are. */
  lemma OtherCallsStay(env: Env, pre: string, fn: string, metric: string, interval: string)
    requires CanPrecede(pre) && IsWord(fn) && IsMetric(metric) && IsSimple(interval)
    requires fn !in {"rate", "irate", "increase", "changes", "delta", "idelta", "deriv", "predict_linear", "holt_winters", "resets"}
    requires |fn| < 10 || fn[|fn| - 10..] != "_over_time"
    ensures AdjustAll(env, CallIn(pre, fn, metric, interval), ALL_FUNCTIONS) == (CallIn(pre, fn, metric, interval), 0)
  {
    hide AdjustAll, Rewrite, LeastUsed, WellFormed, Settled, CallTree;
    Unclaimed(fn);
    var q := CallTree(fn, metric, interval);
    CallTreeWellFormed(fn, metric, interval);
    CallTreeSettled(env.parseDuration, fn, metric, interval);
    Preceded(env, pre, q);
    PrintCallTree(fn, metric, interval);
    RewriteUnclaimedCall(env, fn, metric, interval, Functions(ALL_FUNCTIONS));
  }

  lemma Unclaimed(fn: string)
    requires fn !in {"rate", "irate", "increase", "changes", "delta", "idelta", "deriv", "predict_linear", "holt_winters", "resets"}
    requires |fn| < 10 || fn[|fn| - 10..] != "_over_time"
    ensures ClaimedBy(fn).None?
  {
    forall f: IntervalFn ensures !Claims(f, fn) {
    }
  }

  /** And so does an interval that the function does not know what to do with. */
  lemma OtherIntervalsStay(env: Env, pre: string, fn: string, metric: string, text: string)
    requires CanPrecede(pre) && IsMetric(metric) && IsSimple(text)
    requires text != "" && !AreBlanks(text[..1]) && !AreBlanks(text[|text| - 1..])
    requires text[0] == '*' ==> ParseInt64(Trim(text[1..])) == None
    requires fn in LENGTHENED + {"irate", "idelta"}
    requires fn in LENGTHENED ==> env.parseDuration(text) == None
    ensures AdjustAll(env, CallIn(pre, fn, metric, text), ALL_FUNCTIONS) == (CallIn(pre, fn, metric, text), 0)
  {
    hide AdjustedInterval, ScrapeInterval, AdjustAll, ParseInt64, Trim;
    var f;
    if fn in LENGTHENED {
      f := Named(fn);
    } else {
      f := if fn == "irate" then Irate else Idelta;
    }
    hide Claims;
    PassesClaimed(env, pre, f, fn, metric, text);
    assert !IsSpace(text[0]) && !IsSpace(text[|text| - 1]);
    OthersStay(env, f, ScrapeInterval(env, metric), "", text);
  }

  lemma OtherStepsStay(env: Env, pre: string, stem: string, metric: string, range: string, text: string)
    requires CanPrecede(pre) && IsWord(stem) && IsMetric(metric) && IsSimple(range) && IsSimple(text) && ':' !in range
    requires text != "" && !AreBlanks(text[..1]) && !AreBlanks(text[|text| - 1..])
    requires text[0] == '*' ==> ParseInt64(Trim(text[1..])) == None
    ensures var q := CallIn(pre, stem + "_over_time", metric, range + ([':'] + text));
            AdjustAll(env, q, ALL_FUNCTIONS) == (q, 0)
  {
    hide AdjustedInterval, ScrapeInterval, AdjustAll, ParseInt64, Trim;
    var fn, interval := stem + "_over_time", range + ([':'] + text);
    hide Claims;
    OverTimeName(stem);
    PassesClaimed(env, pre, OverTime, fn, metric, interval);
    assert !IsSpace(text[0]) && !IsSpace(text[|text| - 1]);
    OthersStay(env, OverTime, ScrapeInterval(env, metric), range, text);
  }
}
