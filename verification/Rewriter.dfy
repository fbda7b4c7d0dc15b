/** The PromQL interval rewriter (internal/common/prometheus.go) on arbitrary query text. */
module Rewriter {
  import opened Text
  import opened Duration
  import opened Scanner

  datatype IntervalFn =
    Rate | Irate | Increase | Changes | OverTime | Delta | Idelta | Deriv | PredictLinear | HoltWinters | Resets

  const ALL_FUNCTIONS: seq<IntervalFn> :=
    [Rate, Irate, Increase, Changes, OverTime, Delta, Idelta, Deriv, PredictLinear, HoltWinters, Resets]

  function FnName(f: IntervalFn): string {
    match f
    case Rate => "rate"
    case Irate => "irate"
    case Increase => "increase"
    case Changes => "changes"
    case OverTime => "_over_time"
    case Delta => "delta"
    case Idelta => "idelta"
    case Deriv => "deriv"
    case PredictLinear => "predict_linear"
    case HoltWinters => "holt_winters"
    case Resets => "resets"
  }

  datatype Exporter = Exporter(actualScrapeInterval: int, upScrapeInterval: int)

  /** What a rewrite reads besides the query: the exporters known for the cluster, by metric
      prefix, and the library's duration parser. */
  datatype Env = Env(exporters: map<string, Exporter>, parseDuration: string -> Option<int>)

  // ---------- names, scrape intervals and new intervals ----------

  predicate IsNameChar(c: char) {
    c == '_' || c == ':' || '0' <= c <= '9' || 'A' <= c <= 'Z' || 'a' <= c <= 'z'
  }

  function ExporterPrefix(metricName: string): string {
    Before(metricName, '_')
  }

  function ScrapeInterval(env: Env, metricName: string): int {
    var prefix := ExporterPrefix(metricName);
    if prefix !in env.exporters then 0
    else
      var e := env.exporters[prefix];
      if e.actualScrapeInterval > 0 then e.actualScrapeInterval else e.upScrapeInterval
  }

  /** `scrapeIntervalMultiplication`: the duration meant by `*n`; `None` is the error. */
  function ScrapeMultiple(scrapeInterval: int, dur: string): Option<int> {
    if !StartsWith(dur, "*") then None
    else
      match ParseInt64(Trim(dur[1..]))
      case None => None
      case Some(n) => Some(Wrap64(scrapeInterval * n))
  }

  /** `adjustedInterval`: the new text of an interval, or `None` when it stays. */
  function AdjustedInterval(env: Env, f: IntervalFn, scrapeInterval: int, interval: string): (r: Option<string>)
    ensures r.Some? && Inert(interval) ==> Inert(r.value)
  {
    match f
    case OverTime =>
      var k := IndexFrom(interval, ':', 0);
      if k == -1 then None
      else (match ScrapeMultiple(scrapeInterval, Trim(interval[k + 1..]))
            case None => None
            case Some(d) => Some(interval[..k] + ":" + Show(d)))
    case Irate => ShowOption(ScrapeMultiple(scrapeInterval, interval))
    case Idelta => ShowOption(ScrapeMultiple(scrapeInterval, interval))
    case _ =>
      match env.parseDuration(interval)
      case Some(d) => Some(Show(Wrap64(d + scrapeInterval)))
      case None => ShowOption(ScrapeMultiple(scrapeInterval, interval))
  }

  function ShowOption(d: Option<int>): (r: Option<string>)
    ensures r.Some? ==> Inert(r.value)
  {
    match d
    case None => None
    case Some(d) => Some(Show(d))
  }

  const NAME_DELIMITERS := " \t(,+-*/%^:"

  /** `metricNameBeforeRange` on the text before the range. */
  function NameAtEnd(expr: string): string {
    var s := Trim(expr);
    var selectorStart := if EndsWith(s, "}") then LastCode(s, '{', |s|) else -1;
    var s := if selectorStart > -1 then s[..selectorStart] else s;
    var s := s[LastIndexAny(s, NAME_DELIMITERS) + 1..];
    Trim(Before(s, '{'))
  }

  /** The metric whose exporter decides the new interval: the one before the first range of the
      text that precedes a call's own range, or the one before that range itself. */
  function CallMetric(prefix: string): string {
    var first := FirstCode(prefix, '[', 0);
    var name := if first == -1 then "" else NameAtEnd(prefix[..first]);
    if name == "" then NameAtEnd(prefix) else name
  }

  // ---------- which parentheses are calls ----------

  predicate Claims(f: IntervalFn, name: string) {
    if f.OverTime? then EndsWith(name, FnName(f)) else name == FnName(f)
  }

  /** The start of the maximal run of name characters that ends at `p`. */
  function NameStart(query: string, p: nat): (i: nat)
    requires p <= |query|
    ensures i <= p
    ensures forall k :: i <= k < p ==> IsNameChar(query[k])
    ensures i > 0 ==> !IsNameChar(query[i - 1])
  {
    if p > 0 && IsNameChar(query[p - 1]) then NameStart(query, p - 1) else p
  }

  /** The parenthesis at `p` opens a call of `f` that is closed somewhere. */
  predicate CallAt(query: string, p: nat, f: IntervalFn)
    requires p < |query|
  {
    query[p] == '(' && Claims(f, query[NameStart(query, p)..p]) && Matching(query, p) != -1
  }

  lemma NameStartUnique(query: string, i: nat, p: nat)
    requires i <= p <= |query|
    requires forall k :: i <= k < p ==> IsNameChar(query[k])
    requires i > 0 ==> !IsNameChar(query[i - 1])
    ensures NameStart(query, p) == i
  {
  }

  lemma FnNameChars(f: IntervalFn)
    ensures |FnName(f)| > 0
    ensures forall k :: 0 <= k < |FnName(f)| ==> IsNameChar(FnName(f)[k])
  {
  }

  /** No name is claimed twice: `irate(` is not a `rate(`, and no fixed name ends in `_over_time`. */
  lemma ClaimsExclusive(f: IntervalFn, g: IntervalFn, name: string)
    requires Claims(f, name) && Claims(g, name)
    ensures f == g
  {
  }

  /** The only interval function that claims a name, if any. */
  ghost function ClaimedBy(name: string): (r: Option<IntervalFn>)
    ensures r.None? ==> forall f :: !Claims(f, name)
    ensures r.Some? ==> Claims(r.value, name)
  {
    if exists f :: Claims(f, name) then
      var f :| Claims(f, name);
      Some(f)
    else None
  }

  lemma ClaimedByOnly(f: IntervalFn, name: string)
    requires Claims(f, name)
    ensures ClaimedBy(name) == Some(f)
  {
    ClaimsExclusive(f, ClaimedBy(name).value, name);
  }

  // ---------- what one pass changes ----------

  /** Replace query[lo..hi] by `text`; `scrapeInterval` is the one the text was computed from. */
  datatype Edit = Edit(lo: nat, hi: nat, text: string, scrapeInterval: int)

  /** Ordered, disjoint edits after `from`, each strictly between a `[` and the first `]` after it. */
  predicate Fragments(query: string, from: nat, edits: seq<Edit>)
    decreases edits
  {
    && from <= |query|
    && (edits != [] ==>
          && from < edits[0].lo <= edits[0].hi < |query|
          && query[edits[0].lo - 1] == '['
          && query[edits[0].hi] == ']'
          && (forall k :: edits[0].lo <= k < edits[0].hi ==> query[k] != ']')
          && Fragments(query, edits[0].hi, edits[1..]))
  }

  /** The text from `from` on with the edits carried out. */
  function Splice(query: string, from: nat, edits: seq<Edit>): string
    requires Fragments(query, from, edits)
    decreases edits
  {
    if edits == [] then query[from..]
    else query[from..edits[0].lo] + (edits[0].text + Splice(query, edits[0].hi, edits[1..]))
  }

  function MinPositive(a: nat, b: int): nat {
    if b > 0 && (a == 0 || b < a) then b else a
  }

  function LeastInterval(edits: seq<Edit>): nat {
    if edits == [] then 0 else MinPositive(LeastInterval(edits[1..]), edits[0].scrapeInterval)
  }

  /** The edit that a call of `f` with this body asks for, at positions of the body. */
  function BodyEdit(env: Env, f: IntervalFn, body: string): (r: Option<Edit>)
    ensures r.Some? ==> Fragments(body, 0, [r.value])
  {
    var j := FirstOpenRange(body, 0);
    if j == -1 then None
    else
      var k := IndexFrom(body, ']', j);
      var si := ScrapeInterval(env, CallMetric(body[..j]));
      match AdjustedInterval(env, f, si, body[j + 1..k])
      case None => None
      case Some(text) =>
        BodyFragment(body, j, k, text, si);
        Some(Edit(j + 1, k, text, si))
  }

  lemma BodyFragment(body: string, j: nat, k: nat, text: string, si: int)
    requires j < k < |body| && body[j] == '[' && body[k] == ']'
    requires forall i :: j <= i < k ==> body[i] != ']'
    ensures Fragments(body, 0, [Edit(j + 1, k, text, si)])
  {
    assert [Edit(j + 1, k, text, si)][1..] == [];
  }

  /** All edits of one pass from `i` on: calls are taken at their parenthesis, and the scan
      resumes after the whole call. */
  function Edits(env: Env, f: IntervalFn, query: string, i: nat): (r: seq<Edit>)
    requires i <= |query|
    ensures Fragments(query, i, r)
    decreases |query| - i
  {
    if i == |query| then []
    else if !CallAt(query, i, f) then Edits(env, f, query, i + 1)
    else
      var e := Matching(query, i);
      var rest := Edits(env, f, query, e + 1);
      WithBodyEdit(query, i, e, BodyEdit(env, f, query[i + 1..e]), rest)
  }

  /** The edits from a call on: its own, if any, and the rest. */
  function WithBodyEdit(query: string, i: nat, e: nat, edit: Option<Edit>, rest: seq<Edit>): (r: seq<Edit>)
    requires i < e < |query| && Fragments(query, e + 1, rest)
    requires edit.Some? ==> Fragments(query[i + 1..e], 0, [edit.value])
    ensures Fragments(query, i, r)
  {
    match edit
    case None =>
      FragmentsFromEarlier(query, e + 1, i, rest);
      rest
    case Some(edit) =>
      EditBefore(query, i + 1, e, edit, rest);
      [Moved(edit, i + 1)] + rest
  }

  function Moved(edit: Edit, offset: nat): Edit {
    edit.(lo := edit.lo + offset, hi := edit.hi + offset)
  }

  /** An edit of the text between `from` and `to` goes before edits that start after `to`. */
  lemma EditBefore(query: string, from: nat, to: nat, edit: Edit, rest: seq<Edit>)
    requires 0 < from <= to <= |query|
    requires Fragments(query[from..to], 0, [edit]) && Fragments(query, to + 1, rest)
    ensures Fragments(query, from - 1, [Moved(edit, from)] + rest)
    ensures edit.hi + from < to
  {
    var moved := Moved(edit, from);
    MovedEdit(query, from, to, edit);
    FragmentsFromEarlier(query, to + 1, moved.hi, rest);
    assert ([moved] + rest)[1..] == rest;
  }

  lemma MovedEdit(query: string, from: nat, to: nat, edit: Edit)
    requires from <= to <= |query|
    requires Fragments(query[from..to], 0, [edit])
    ensures Fragments(query, from, [Moved(edit, from)])
    ensures edit.hi + from < to
  {
    forall k | edit.lo + from <= k < edit.hi + from ensures query[k] != ']' {
      assert query[k] == query[from..to][k - from];
    }
  }

  lemma FragmentsFromEarlier(query: string, from: nat, earlier: nat, edits: seq<Edit>)
    requires Fragments(query, from, edits) && earlier <= from
    ensures Fragments(query, earlier, edits)
  {
  }

  // ---------- one pass as the scanner does it ----------

  /** `metricNameBeforeRange`. */
  method MetricNameBeforeRange(expr: string, rangeStart: nat) returns (name: string)
    requires rangeStart <= |expr|
    ensures name == NameAtEnd(expr[..rangeStart])
  {
    hide Trim, LastCode, LastIndexAny, Before;
    var s := Trim(expr[..rangeStart]);
    if EndsWith(s, "}") {
      var selectorStart := LastSelectorStart(s);
      if selectorStart > -1 {
        s := s[..selectorStart];
      }
    }
    var i := LastIndexAny(s, NAME_DELIMITERS);
    if i > -1 {
      s := s[i + 1..];
    }
    return Trim(Before(s, '{'));
  }

  /** `metricNameFromExpression`. */
  method MetricNameFromExpression(expr: string) returns (name: string)
    ensures name == var j := FirstCode(expr, '[', 0); if j == -1 then "" else NameAtEnd(expr[..j])
  {
    var j := FirstRangeStart(expr);
    if j > -1 {
      name := MetricNameBeforeRange(expr, j);
    } else {
      name := "";
    }
  }

  /** The `_over_time` branch of `intervalFunctionCall`: the scan is at the parenthesis of the call. */
  method IsOverTimeParen(query: string, i: nat) returns (found: bool)
    requires i < |query|
    ensures found <==> query[i] == '(' && Claims(OverTime, query[NameStart(query, i)..i])
  {
    if query[i] != '(' {
      return false;
    }
    var nameStart := i;
    while nameStart > 0 && IsNameChar(query[nameStart - 1])
      invariant nameStart <= i
      invariant forall k :: nameStart <= k < i ==> IsNameChar(query[k])
    {
      nameStart := nameStart - 1;
    }
    NameStartUnique(query, nameStart, i);
    return EndsWith(query[nameStart..i], "_over_time");
  }

  /** The parenthesis at `p` follows exactly the name `fn`. */
  predicate NamedParen(query: string, p: nat, fn: string)
    requires p < |query|
  {
    query[p] == '(' && query[NameStart(query, p)..p] == fn
  }

  /** The fixed-name branch of `intervalFunctionCall`: the scan is at the first character of the name. */
  method FixedNameParen(query: string, i: nat, fn: string) returns (left: int)
    requires i < |query| && fn != []
    requires forall k :: 0 <= k < |fn| ==> IsNameChar(fn[k])
    ensures left != -1 ==> i < left < |query| && NamedParen(query, left, fn)
    ensures left != -1 ==> forall k :: i <= k < left ==> query[k] != '('
    ensures left == -1 ==> forall p :: i <= p < |query| && NamedParen(query, p, fn) ==> NameStart(query, p) != i
  {
    if !StartsWith(query[i..], fn + "(") || (i > 0 && IsNameChar(query[i - 1])) {
      forall p | i <= p < |query| && NamedParen(query, p, fn) ensures NameStart(query, p) != i {
        if NameStart(query, p) == i { FixedNameOnly(query, i, p, fn); }
      }
      return -1;
    }
    FixedName(query, i, fn);
    return i + |fn|;
  }

  /** The parenthesis of a call of `f`, closed or not. */
  predicate ClaimedParen(query: string, p: nat, f: IntervalFn)
    requires p < |query|
  {
    query[p] == '(' && Claims(f, query[NameStart(query, p)..p])
  }

  /** The two branches of `intervalFunctionCall`. */
  method CallParen(query: string, i: nat, f: IntervalFn) returns (left: int)
    requires i < |query|
    ensures left != -1 ==> i <= left < |query| && ClaimedParen(query, left, f)
    ensures left != -1 ==> forall k :: i <= k < left ==> query[k] != '('
    ensures f.OverTime? ==> (left == i <==> ClaimedParen(query, i, f)) && (left == i || left == -1)
    ensures left == -1 && !f.OverTime? ==>
              forall p :: i <= p < |query| && ClaimedParen(query, p, f) ==> NameStart(query, p) != i
  {
    left := i;
    if f.OverTime? {
      var found := IsOverTimeParen(query, i);
      if !found {
        return -1;
      }
    } else {
      FnNameChars(f);
      left := FixedNameParen(query, i, FnName(f));
    }
  }

  /** `intervalFunctionCall`. */
  method IntervalFunctionCall(query: string, i: nat, f: IntervalFn) returns (bodyStart: nat, bodyEnd: int, ok: bool)
    requires i < |query|
    ensures ok ==> i < bodyStart <= bodyEnd < |query|
    ensures ok ==> CallAt(query, bodyStart - 1, f) && bodyEnd == Matching(query, bodyStart - 1)
    ensures ok ==> forall k :: i <= k < bodyStart - 1 ==> query[k] != '('
    ensures !ok && f.OverTime? ==> !CallAt(query, i, f)
    ensures !ok && !f.OverTime? ==> forall p :: i <= p < |query| && CallAt(query, p, f) ==> NameStart(query, p) != i
  {
    hide Claims, Matching;
    bodyStart, bodyEnd, ok := 0, -1, false;
    var left := CallParen(query, i, f);
    if left == -1 {
      return;
    }
    bodyStart := left + 1;
    bodyEnd := MatchingRightParen(query, left);
    ok := bodyEnd > -1;
  }

  predicate FixedNameAt(query: string, i: nat, fn: string)
    requires i < |query|
  {
    StartsWith(query[i..], fn + "(") && !(i > 0 && IsNameChar(query[i - 1]))
  }

  /** The prefix test at a name's first character finds exactly the parenthesis of a call so named. */
  lemma FixedName(query: string, i: nat, fn: string)
    requires i < |query| && fn != []
    requires forall k :: 0 <= k < |fn| ==> IsNameChar(fn[k])
    requires FixedNameAt(query, i, fn)
    ensures i + |fn| < |query| && query[i + |fn|] == '(' && query[i..i + |fn|] == fn
    ensures NameStart(query, i + |fn|) == i
    ensures forall k :: i <= k < i + |fn| ==> query[k] != '('
  {
    var q, p := query[i..], i + |fn|;
    assert q[..|fn| + 1] == fn + "(";
    forall k | i <= k < p ensures IsNameChar(query[k]) {
      assert query[k] == q[k - i] == fn[k - i];
    }
    assert query[p] == q[|fn|] == '(';
    assert query[i..p] == q[..|fn|] == fn;
    NameStartUnique(query, i, p);
  }


  lemma FixedNameOnly(query: string, i: nat, p: nat, fn: string)
    requires i <= p < |query| && query[p] == '('
    requires query[NameStart(query, p)..p] == fn && NameStart(query, p) == i
    ensures FixedNameAt(query, i, fn) && p == i + |fn|
  {
    assert query[i..p + 1] == fn + "(" == query[i..][..|fn| + 1];
  }

  /** `adjustIntervalsForFunction`: the query with the pass's edits carried out, and the least
      positive scrape interval any of them used. */
  method AdjustIntervalsForFunction(env: Env, query: string, f: IntervalFn) returns (q: string, si: nat)
    ensures q == Rest(env, f, query, 0)
    ensures si == Least(env, f, query, 0)
  {
    hide Edits, Splice, Rest, Least, BodyEdit, EditedBody, UsedInterval, AdjustedInterval, FnName, CallAt, OutsideNames;
    var b, i := "", 0;
    si := 0;
    assert OutsideNames(query, 0, f) && Rest(env, f, query, |query|) == "" && Least(env, f, query, |query|) == 0 by {
      PassEnds(env, f, query);
    }
    while i < |query|
      invariant 0 <= i <= |query|
      invariant OutsideNames(query, i, f)
      invariant b + Rest(env, f, query, i) == Rest(env, f, query, 0)
      invariant MinPositive(si, Least(env, f, query, i)) == Least(env, f, query, 0)
    {
      var bodyStart, bodyEnd, ok := IntervalFunctionCall(query, i, f);
      if !ok {
        StepOverNonCall(env, f, query, i);
        Assoc(b, [query[i]], Rest(env, f, query, i + 1));
        b := b + [query[i]];
        i := i + 1;
        continue;
      }
      var body := query[bodyStart..bodyEnd];
      StepOverCall(env, f, query, i, bodyStart - 1, b, si);
      b := b + query[i..bodyStart];
      var newBody, used := AdjustBody(env, f, body);
      b := b + newBody;
      if used > 0 && (si == 0 || used < si) {
        si := used;
      }
      b := b + [query[bodyEnd]];
      i := bodyEnd + 1;
    }
    q := b;
  }

  /** The part of the pass that handles the body of one call. */
  method AdjustBody(env: Env, f: IntervalFn, body: string) returns (newBody: string, used: int)
    ensures newBody == EditedBody(env, f, body)
    ensures used == UsedInterval(env, f, body)
  {
    newBody, used := body, 0;
    var j, k := IntervalInFunctionBody(body);
    if j > -1 {
      var name := CallMetricName(body, j);
      var scrapeInterval := ScrapeInterval(env, name);
      var interval := AdjustedInterval(env, f, scrapeInterval, body[j + 1..k]);
      BodyEditParts(env, f, body, j, k);
      if interval.Some? {
        newBody := body[..j + 1] + (interval.value + body[k..]);
        used := scrapeInterval;
      }
    }
  }

  lemma BodyEditParts(env: Env, f: IntervalFn, body: string, j: nat, k: nat)
    requires FirstOpenRange(body, 0) == j && IndexFrom(body, ']', j) == k
    ensures var si := ScrapeInterval(env, CallMetric(body[..j]));
            var interval := AdjustedInterval(env, f, si, body[j + 1..k]);
            && UsedInterval(env, f, body) == (if interval.None? then 0 else si)
            && EditedBody(env, f, body) == if interval.None? then body else body[..j + 1] + (interval.value + body[k..])
  {
    hide ScrapeInterval, CallMetric, AdjustedInterval, FirstOpenRange, IndexFrom, Splice;
    var si := ScrapeInterval(env, CallMetric(body[..j]));
    var interval := AdjustedInterval(env, f, si, body[j + 1..k]);
    if interval.Some? {
      SpliceOne(body, Edit(j + 1, k, interval.value, si));
    }
  }

  /** The metric name a call with its own range at `j` is adjusted for. */
  method CallMetricName(body: string, j: nat) returns (name: string)
    requires j <= |body|
    ensures name == CallMetric(body[..j])
  {
    name := MetricNameFromExpression(body[..j]);
    if name == "" {
      name := MetricNameBeforeRange(body, j);
    }
  }

  /** What a pass writes from `i` on. */
  function Rest(env: Env, f: IntervalFn, query: string, i: nat): string
    requires i <= |query|
  {
    Splice(query, i, Edits(env, f, query, i))
  }

  /** The least positive scrape interval a pass uses from `i` on, or 0. */
  function Least(env: Env, f: IntervalFn, query: string, i: nat): nat
    requires i <= |query|
  {
    LeastInterval(Edits(env, f, query, i))
  }

  function UsedInterval(env: Env, f: IntervalFn, body: string): int {
    match BodyEdit(env, f, body)
    case None => 0
    case Some(edit) => edit.scrapeInterval
  }

  function EditedBody(env: Env, f: IntervalFn, body: string): string {
    match BodyEdit(env, f, body)
    case None => body
    case Some(edit) => Splice(body, 0, [edit])
  }

  /** No fixed-name call has its name straddling `i`. */
  predicate OutsideNames(query: string, i: nat, f: IntervalFn)
    requires i <= |query|
  {
    f.OverTime? || forall p :: i <= p < |query| && CallAt(query, p, f) ==> i <= NameStart(query, p)
  }

  lemma OutsideNamesAfter(query: string, e: nat, f: IntervalFn)
    requires e < |query| && !IsNameChar(query[e])
    ensures OutsideNames(query, e + 1, f)
  {
  }

  lemma PassEnds(env: Env, f: IntervalFn, query: string)
    ensures OutsideNames(query, 0, f)
    ensures Rest(env, f, query, |query|) == "" && Least(env, f, query, |query|) == 0
  {
  }

  lemma {:induction false} EditsSkip(env: Env, f: IntervalFn, query: string, i: nat, j: nat)
    requires i <= j <= |query|
    requires forall p :: i <= p < j ==> !CallAt(query, p, f)
    ensures Edits(env, f, query, i) == Edits(env, f, query, j)
    decreases j - i
  {
    if i < j {
      EditsSkip(env, f, query, i + 1, j);
    }
  }

  lemma SpliceSkip(query: string, i: nat, j: nat, edits: seq<Edit>)
    requires i <= j && Fragments(query, j, edits)
    ensures Fragments(query, i, edits)
    ensures Splice(query, i, edits) == query[i..j] + Splice(query, j, edits)
  {
    if edits == [] {
      assert query[i..] == query[i..j] + query[j..];
    } else {
      var edit := edits[0];
      assert query[i..edit.lo] == query[i..j] + query[j..edit.lo];
      Assoc(query[i..j], query[j..edit.lo], edit.text + Splice(query, edit.hi, edits[1..]));
    }
  }

  lemma StepOverNonCall(env: Env, f: IntervalFn, query: string, i: nat)
    requires i < |query|
    requires f.OverTime? ==> !CallAt(query, i, f)
    requires !f.OverTime? ==> forall p :: i <= p < |query| && CallAt(query, p, f) ==> NameStart(query, p) != i
    requires OutsideNames(query, i, f)
    ensures OutsideNames(query, i + 1, f)
    ensures Rest(env, f, query, i) == [query[i]] + Rest(env, f, query, i + 1)
    ensures Least(env, f, query, i) == Least(env, f, query, i + 1)
  {
    hide Rest, Least, CallAt, OutsideNames;
    OutsideNamesNext(query, i, f);
    RestSkip(env, f, query, i, i + 1);
    assert query[i..i + 1] == [query[i]];
  }

  lemma OutsideNamesNext(query: string, i: nat, f: IntervalFn)
    requires i < |query|
    requires f.OverTime? ==> !CallAt(query, i, f)
    requires !f.OverTime? ==> forall p :: i <= p < |query| && CallAt(query, p, f) ==> NameStart(query, p) != i
    requires OutsideNames(query, i, f)
    ensures OutsideNames(query, i + 1, f)
    ensures !CallAt(query, i, f)
  {
    hide CallAt;
    assert NameStart(query, i) <= i;
  }

  lemma RestSkip(env: Env, f: IntervalFn, query: string, i: nat, j: nat)
    requires i <= j <= |query|
    requires forall p :: i <= p < j ==> !CallAt(query, p, f)
    ensures Rest(env, f, query, i) == query[i..j] + Rest(env, f, query, j)
    ensures Least(env, f, query, i) == Least(env, f, query, j)
  {
    EditsSkip(env, f, query, i, j);
    SpliceSkip(query, i, j, Edits(env, f, query, j));
  }

  /** From the name of a call on: the name, the parenthesis, the edited body, the closing parenthesis,
      and the pass on the rest. */
  lemma StepOverCall(env: Env, f: IntervalFn, query: string, i: nat, p: nat, b: string, si: nat)
    requires i <= p < |query| && CallAt(query, p, f)
    requires forall k :: i <= k < p ==> query[k] != '('
    ensures var e := Matching(query, p);
            var body := query[p + 1..e];
            && OutsideNames(query, e + 1, f)
            && b + Rest(env, f, query, i)
               == b + query[i..p + 1] + EditedBody(env, f, body) + [query[e]] + Rest(env, f, query, e + 1)
            && MinPositive(si, Least(env, f, query, i))
               == MinPositive(MinPositive(si, UsedInterval(env, f, body)), Least(env, f, query, e + 1))
  {
    hide Edits, Splice, BodyEdit, EditedBody, AdjustedInterval, FnName;
    var e := Matching(query, p);
    OutsideNamesAfter(query, e, f);
    RestSkip(env, f, query, i, p);
    RestAtCall(env, f, query, p);
    RegroupPass(b, query[i..p], EditedBody(env, f, query[p + 1..e]), Rest(env, f, query, e + 1));
    assert query[i..p + 1] == query[i..p] + "(";
  }

  lemma RegroupPass(b: string, name: string, body: string, rest: string)
    ensures b + (name + ("(" + (body + (")" + rest)))) == b + (name + "(") + body + ")" + rest
  {
    Assoc4(b + (name + "("), body, ")", rest);
    Assoc4(b, name, "(", body + (")" + rest));
  }

  lemma RestAtCall(env: Env, f: IntervalFn, query: string, p: nat)
    requires p < |query| && CallAt(query, p, f)
    ensures var e := Matching(query, p);
            && p < e
            && Rest(env, f, query, p) == "(" + (EditedBody(env, f, query[p + 1..e]) + (")" + Rest(env, f, query, e + 1)))
            && Least(env, f, query, p) == MinPositive(Least(env, f, query, e + 1), UsedInterval(env, f, query[p + 1..e]))
  {
    hide Fragments, Splice, BodyEdit, AdjustedInterval, FnName;
    var e := Matching(query, p);
    var rest := Edits(env, f, query, e + 1);
    var edit := BodyEdit(env, f, query[p + 1..e]);
    assert Edits(env, f, query, p) == if edit.None? then rest else [Moved(edit.value, p + 1)] + rest;
    RestOfCall(query, p, e, edit, rest);
  }

  /** The same for given edits of the body and of the rest. */
  lemma RestOfCall(query: string, p: nat, e: nat, edit: Option<Edit>, rest: seq<Edit>)
    requires p < e < |query| && query[p] == '(' && query[e] == ')'
    requires edit.Some? ==> Fragments(query[p + 1..e], 0, [edit.value])
    requires Fragments(query, e + 1, rest)
    ensures var all := if edit.None? then rest else [Moved(edit.value, p + 1)] + rest;
            var body := if edit.None? then query[p + 1..e] else Splice(query[p + 1..e], 0, [edit.value]);
            && Fragments(query, p, all)
            && Splice(query, p, all) == "(" + (body + (")" + Splice(query, e + 1, rest)))
            && LeastInterval(all)
               == MinPositive(LeastInterval(rest), if edit.None? then 0 else edit.value.scrapeInterval)
  {
    hide Fragments, Splice;
    if edit.None? {
      var body, after := query[p + 1..e], Splice(query, e + 1, rest);
      SpliceSkip(query, p, e + 1, rest);
      assert query[p..e + 1] == "(" + body + ")";
      Assoc4("(", body, ")", after);
    } else {
      SpliceEditedCall(query, p, e, edit.value, rest);
      assert ([Moved(edit.value, p + 1)] + rest)[1..] == rest;
    }
  }

  lemma SpliceEditedCall(query: string, p: nat, e: nat, edit: Edit, rest: seq<Edit>)
    requires p < e < |query| && query[p] == '(' && query[e] == ')'
    requires Fragments(query[p + 1..e], 0, [edit]) && Fragments(query, e + 1, rest)
    ensures Fragments(query, p, [Moved(edit, p + 1)] + rest)
    ensures Splice(query, p, [Moved(edit, p + 1)] + rest)
            == "(" + (Splice(query[p + 1..e], 0, [edit]) + (")" + Splice(query, e + 1, rest)))
  {
    EditBefore(query, p + 1, e, edit, rest);
    FirstEditWithin(query[p + 1..e], edit);
    hide Splice, Fragments;
    SpliceMoved(query, p, e, edit, rest);
    BodySlices(query, p, e, edit.lo, edit.hi);
    SpliceOne(query[p + 1..e], edit);
    RegroupCall(query[p..edit.lo + (p + 1)], query[p + 1..e][..edit.lo], edit.text,
                query[edit.hi + (p + 1)..e + 1], query[p + 1..e][edit.hi..], Splice(query, e + 1, rest));
  }

  lemma SpliceMoved(query: string, p: nat, e: nat, edit: Edit, rest: seq<Edit>)
    requires p < e < |query| && edit.lo <= edit.hi <= e - p - 1
    requires Fragments(query, p, [Moved(edit, p + 1)] + rest) && Fragments(query, e + 1, rest)
    ensures Splice(query, p, [Moved(edit, p + 1)] + rest)
         == query[p..edit.lo + (p + 1)] + (edit.text + (query[edit.hi + (p + 1)..e + 1] + Splice(query, e + 1, rest)))
  {
    hide Splice, Fragments;
    var moved := Moved(edit, p + 1);
    SpliceFirst(query, p, moved, rest);
    SpliceSkip(query, moved.hi, e + 1, rest);
  }

  lemma FirstEditWithin(body: string, edit: Edit)
    requires Fragments(body, 0, [edit])
    ensures edit.lo <= edit.hi < |body|
  {
  }

  lemma SpliceFirst(query: string, from: nat, edit: Edit, rest: seq<Edit>)
    requires Fragments(query, from, [edit] + rest)
    ensures from <= edit.lo <= edit.hi <= |query| && Fragments(query, edit.hi, rest)
    ensures Splice(query, from, [edit] + rest) == query[from..edit.lo] + (edit.text + Splice(query, edit.hi, rest))
  {
    assert ([edit] + rest)[1..] == rest;
  }

  lemma BodySlices(query: string, p: nat, e: nat, lo: nat, hi: nat)
    requires p < e < |query| && query[p] == '(' && query[e] == ')' && lo <= hi <= e - p - 1
    ensures query[p..lo + (p + 1)] == "(" + query[p + 1..e][..lo]
    ensures query[hi + (p + 1)..e + 1] == query[p + 1..e][hi..] + ")"
  {
  }

  lemma SpliceOne(body: string, edit: Edit)
    requires Fragments(body, 0, [edit])
    ensures Splice(body, 0, [edit]) == body[..edit.lo] + (edit.text + body[edit.hi..])
  {
    assert [edit][1..] == [];
    assert body[0..edit.lo] == body[..edit.lo];
  }

  lemma RegroupCall(front: string, a: string, t: string, back: string, b: string, r: string)
    requires front == "(" + a && back == b + ")"
    ensures front + (t + (back + r)) == "(" + (a + (t + b) + (")" + r))
  {
    Assoc(b, ")", r);
    Assoc4(a, t, b, ")" + r);
    Assoc("(", a, t + (b + (")" + r)));
  }

  // ---------- all passes ----------

  /** The passes of `fs` one after the other: the final query and the least positive interval used. */
  function AdjustAll(env: Env, query: string, fs: seq<IntervalFn>): (string, nat)
    decreases fs
  {
    if fs == [] then (query, 0)
    else
      var rest := AdjustAll(env, Rest(env, fs[0], query, 0), fs[1..]);
      (rest.0, MinPositive(Least(env, fs[0], query, 0), rest.1))
  }

  /** `adjustIntervalToScrapeInterval`; the exporters are known per cluster. */
  method AdjustIntervalToScrapeInterval(
      clusterExporters: map<string, map<string, Exporter>>, parseDuration: string -> Option<int>,
      cluster: string, query: string) returns (q: string, si: nat)
    ensures cluster == "" ==> q == query && si == 0
    ensures cluster != "" ==>
              var exporters := if cluster in clusterExporters then clusterExporters[cluster] else map[];
              (q, si) == AdjustAll(Env(exporters, parseDuration), query,
                                   [Rate, Irate, Increase, Changes, OverTime, Delta, Idelta, Deriv, PredictLinear, HoltWinters, Resets])
  {
    q, si := query, 0;
    if cluster == "" {
      return;
    }
    var exporters := if cluster in clusterExporters then clusterExporters[cluster] else map[];
    q, si := AdjustEach(Env(exporters, parseDuration), query, ALL_FUNCTIONS);
  }

  /** The loop of `adjustIntervalToScrapeInterval` over the interval functions. */
  method AdjustEach(env: Env, query: string, fs: seq<IntervalFn>) returns (q: string, si: nat)
    ensures (q, si) == AdjustAll(env, query, fs)
  {
    hide Rest, Least;
    q, si := query, 0;
    for i := 0 to |fs|
      invariant var rest := AdjustAll(env, q, fs[i..]);
                (rest.0, MinPositive(si, rest.1)) == AdjustAll(env, query, fs)
    {
      var scrapeInterval;
      q, scrapeInterval := AdjustIntervalsForFunction(env, q, fs[i]);
      assert fs[i..][1..] == fs[i + 1..];
      if scrapeInterval > 0 && (si == 0 || scrapeInterval < si) {
        si := scrapeInterval;
      }
    }
  }

  // ---------- what a pass does to any text ----------

  /** Whatever the query, the pass replaces fragments that each lie between a `[` and the first `]`
      after it. */
  lemma {:induction false} EditsAreBracketed(query: string, from: nat, edits: seq<Edit>)
    requires Fragments(query, from, edits)
    ensures forall n :: 0 <= n < |edits| ==>
              && from < edits[n].lo <= edits[n].hi < |query|
              && query[edits[n].lo - 1] == '[' && IndexFrom(query, ']', edits[n].lo) == edits[n].hi
    decreases edits
  {
    hide IndexFrom;
    if edits == [] {
    } else {
      EditsAreBracketed(query, edits[0].hi, edits[1..]);
      IndexOfEnd(query, ']', edits[0].lo, edits[0].hi);
      FirstOrLater(edits);
    }
  }

  /** The fragments are ordered and disjoint. */
  lemma {:induction false} EditsAreOrdered(query: string, from: nat, edits: seq<Edit>)
    requires Fragments(query, from, edits)
    ensures forall m, n :: 0 <= m < n < |edits| ==> edits[m].hi < edits[n].lo
    decreases edits
  {
    if edits == [] {
    } else {
      EditsAreOrdered(query, edits[0].hi, edits[1..]);
      EditsAreBracketed(query, edits[0].hi, edits[1..]);
      hide Fragments, IndexFrom;
      FirstOrLater(edits);
    }
  }

  lemma FirstOrLater(edits: seq<Edit>)
    requires edits != []
    ensures forall n :: 0 < n < |edits| ==> edits[n] == edits[1..][n - 1]
  {
  }

  /** The interval returned is the least positive scrape interval of the replaced fragments, or 0. */
  lemma {:induction false} LeastIntervalIsMinimum(edits: seq<Edit>)
    ensures var si := LeastInterval(edits);
            && (si == 0 <==> forall n :: 0 <= n < |edits| ==> edits[n].scrapeInterval <= 0)
            && (si > 0 ==> exists n :: 0 <= n < |edits| && edits[n].scrapeInterval == si)
            && (forall n :: 0 <= n < |edits| && edits[n].scrapeInterval > 0 ==> si <= edits[n].scrapeInterval)
  {
    if edits == [] {
    } else {
      var rest := edits[1..];
      LeastIntervalIsMinimum(rest);
      forall n | 0 <= n < |edits| ensures n > 0 ==> edits[n] == rest[n - 1] {
      }
      if LeastInterval(rest) == LeastInterval(edits) && LeastInterval(rest) > 0 {
        var n :| 0 <= n < |rest| && rest[n].scrapeInterval == LeastInterval(rest);
        assert edits[n + 1] == rest[n];
      }
      forall n | 0 <= n < |rest| ensures rest[n] == edits[n + 1] {
      }
    }
  }

  /** One pass over any text at all, well-formed or not: the result is the text with fragments replaced
      that are ordered, disjoint and each enclosed by a `[` and the first `]` after it, and the interval
      returned is the least positive one the replacements were computed from, or 0. */
  lemma PassOnAnyText(env: Env, f: IntervalFn, query: string)
    ensures var edits, si := Edits(env, f, query, 0), Least(env, f, query, 0);
            && Fragments(query, 0, edits) && Rest(env, f, query, 0) == Splice(query, 0, edits)
            && (forall n :: 0 <= n < |edits| ==>
                  && 0 < edits[n].lo <= edits[n].hi < |query|
                  && query[edits[n].lo - 1] == '[' && IndexFrom(query, ']', edits[n].lo) == edits[n].hi)
            && (forall m, n :: 0 <= m < n < |edits| ==> edits[m].hi < edits[n].lo)
            && (si == 0 <==> forall n :: 0 <= n < |edits| ==> edits[n].scrapeInterval <= 0)
            && (si > 0 ==> exists n :: 0 <= n < |edits| && edits[n].scrapeInterval == si)
            && (forall n :: 0 <= n < |edits| && edits[n].scrapeInterval > 0 ==> si <= edits[n].scrapeInterval)
  {
    hide Edits, Splice, Fragments, IndexFrom, LeastInterval;
    var edits := Edits(env, f, query, 0);
    EditsAreBracketed(query, 0, edits);
    EditsAreOrdered(query, 0, edits);
    LeastIntervalIsMinimum(edits);
  }
}
