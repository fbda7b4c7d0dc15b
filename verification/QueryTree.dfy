/** Queries as trees, and the interval rewriter as a transformation of trees. */
module QueryTree {
  import opened Text
  import opened Duration
  import opened Scanner
  import opened Rewriter

  /** A query text as scanners see it: plain characters, string literals, parentheses and ranges.
      Names and label selectors are runs of characters and literals. */
  datatype Query =
    | End
    | Char(c: char, rest: Query)
    | Literal(body: string, rest: Query)
    | Parens(inner: Query, rest: Query)
    | Range(interval: string, rest: Query)

  function Print(q: Query): string {
    match q
    case End => ""
    case Char(c, rest) => [c] + Print(rest)
    case Literal(body, rest) => "\"" + body + "\"" + Print(rest)
    case Parens(inner, rest) => "(" + Print(inner) + ")" + Print(rest)
    case Range(interval, rest) => "[" + interval + "]" + Print(rest)
  }

  /** Every quote in the literal's text is escaped, and so is its last backslash. */
  predicate LiteralText(s: string) {
    s == [] ||
    if s[0] == '\\' then |s| >= 2 && LiteralText(s[2..]) else s[0] != '"' && LiteralText(s[1..])
  }

  /** The text opens no call of an interval function. */
  predicate NoCallText(s: string) {
    forall p, f :: 0 <= p < |s| && s[p] == '(' ==> !Claims(f, s[NameStart(s, p)..p])
  }

  predicate WellFormed(q: Query) {
    match q
    case End => true
    case Char(c, rest) => InertChar(c) && WellFormed(rest)
    case Literal(body, rest) => LiteralText(body) && NoCallText(body) && WellFormed(rest)
    case Parens(inner, rest) => WellFormed(inner) && WellFormed(rest)
    case Range(interval, rest) => Inert(interval) && WellFormed(rest)
  }

  // ---------- ranges of a query ----------

  /** The interval of the first range outside all parentheses: a query's own range. */
  function OwnInterval(q: Query): Option<string> {
    match q
    case End => None
    case Char(_, rest) => OwnInterval(rest)
    case Literal(_, rest) => OwnInterval(rest)
    case Parens(_, rest) => OwnInterval(rest)
    case Range(interval, _) => Some(interval)
  }

  /** The query with its own interval replaced. */
  function SetOwnInterval(q: Query, interval: string): Query {
    match q
    case End => End
    case Char(c, rest) => Char(c, SetOwnInterval(rest, interval))
    case Literal(body, rest) => Literal(body, SetOwnInterval(rest, interval))
    case Parens(inner, rest) => Parens(inner, SetOwnInterval(rest, interval))
    case Range(_, rest) => Range(interval, rest)
  }

  /** What comes before a query's own range. */
  function BeforeOwn(q: Query): Query {
    match q
    case End => End
    case Char(c, rest) => Char(c, BeforeOwn(rest))
    case Literal(body, rest) => Literal(body, BeforeOwn(rest))
    case Parens(inner, rest) => Parens(inner, BeforeOwn(rest))
    case Range(_, _) => End
  }

  /** What comes after a query's own range. */
  function AfterOwn(q: Query): Query {
    match q
    case End => End
    case Char(_, rest) => AfterOwn(rest)
    case Literal(_, rest) => AfterOwn(rest)
    case Parens(_, rest) => AfterOwn(rest)
    case Range(_, rest) => rest
  }

  /** Some range lies anywhere. */
  predicate HasRange(q: Query) {
    match q
    case End => false
    case Char(_, rest) => HasRange(rest)
    case Literal(_, rest) => HasRange(rest)
    case Parens(inner, rest) => HasRange(inner) || HasRange(rest)
    case Range(_, _) => true
  }

  /** The text before the first range anywhere, or all of it. */
  function ToFirstRange(q: Query): (s: string)
    ensures s <= Print(q)
    ensures !HasRange(q) ==> s == Print(q)
  {
    match q
    case End => ""
    case Char(c, rest) => [c] + ToFirstRange(rest)
    case Literal(body, rest) => "\"" + body + "\"" + ToFirstRange(rest)
    case Parens(inner, rest) =>
      if HasRange(inner) then
        assert "(" + Print(inner) <= Print(q);
        "(" + ToFirstRange(inner)
      else "(" + Print(inner) + ")" + ToFirstRange(rest)
    case Range(_, _) => ""
  }

  // ---------- the rewrite of trees ----------

  /** The metric of a call's body: the one named before the body's first range, unless nothing is
      named there. */
  function Metric(body: Query): string {
    var before := BeforeOwn(body);
    var name := NameAtEnd(ToFirstRange(before));
    if name == "" then NameAtEnd(Print(before)) else name
  }

  /** The new interval a call of `f` asks for. */
  function NewInterval(env: Env, f: IntervalFn, body: Query): (r: Option<string>)
    ensures r.Some? ==> OwnInterval(body).Some?
    ensures r.Some? && WellFormed(body) ==> Inert(r.value)
  {
    match OwnInterval(body)
    case None => None
    case Some(interval) =>
      assert WellFormed(body) ==> Inert(interval) by { if WellFormed(body) { OwnIntervalInert(body); } }
      AdjustedInterval(env, f, ScrapeInterval(env, Metric(body)), interval)
  }

  lemma OwnIntervalInert(q: Query)
    requires WellFormed(q) && OwnInterval(q).Some?
    ensures Inert(OwnInterval(q).value)
  {
  }

  function WithOwn(q: Query, interval: Option<string>): Query {
    match interval
    case None => q
    case Some(text) => SetOwnInterval(q, text)
  }

  function NameAfter(name: string, c: char): string {
    if IsNameChar(c) then name + [c] else ""
  }

  /** The query with the own range of every outermost call of each active function adjusted; `name`
      is the run of name characters before the query. */
  ghost function Rewrite(env: Env, q: Query, name: string, active: set<IntervalFn>): Query {
    match q
    case End => End
    case Char(c, rest) => Char(c, Rewrite(env, rest, NameAfter(name, c), active))
    case Literal(body, rest) => Literal(body, Rewrite(env, rest, "", active))
    case Range(interval, rest) => Range(interval, Rewrite(env, rest, "", active))
    case Parens(inner, rest) =>
      var rest' := Rewrite(env, rest, "", active);
      match ClaimedBy(name)
      case Some(f) =>
        if f in active then Parens(WithOwn(Rewrite(env, inner, "", active - {f}), NewInterval(env, f, inner)), rest')
        else Parens(Rewrite(env, inner, "", active), rest')
      case None => Parens(Rewrite(env, inner, "", active), rest')
  }

  /** The least positive scrape interval that the rewrite uses, or 0. */
  ghost function LeastUsed(env: Env, q: Query, name: string, active: set<IntervalFn>): nat {
    match q
    case End => 0
    case Char(c, rest) => LeastUsed(env, rest, NameAfter(name, c), active)
    case Literal(_, rest) => LeastUsed(env, rest, "", active)
    case Range(_, rest) => LeastUsed(env, rest, "", active)
    case Parens(inner, rest) =>
      var rest' := LeastUsed(env, rest, "", active);
      match ClaimedBy(name)
      case Some(f) =>
        if f in active then
          MinPositive(MinPositive(rest', LeastUsed(env, inner, "", active - {f})), Used(env, f, inner))
        else MinPositive(rest', LeastUsed(env, inner, "", active))
      case None => MinPositive(rest', LeastUsed(env, inner, "", active))
  }

  function Used(env: Env, f: IntervalFn, body: Query): int {
    if NewInterval(env, f, body).Some? then ScrapeInterval(env, Metric(body)) else 0
  }

  // ---------- scanning a printed tree ----------

  /** `t` stands at position `a` of `s`. */
  predicate Holds(s: string, a: nat, t: string) {
    a + |t| <= |s| && s[a..a + |t|] == t
  }

  lemma HoldsFits(s: string, a: nat, t: string)
    requires Holds(s, a, t)
    ensures a + |t| <= |s|
  {
  }

  lemma HoldsSplit(s: string, a: nat, x: string, y: string)
    requires Holds(s, a, x + y)
    ensures Holds(s, a, x) && Holds(s, a + |x|, y)
  {
    var t := s[a..a + |x + y|];
    assert t[..|x|] == x && t[|x|..] == y;
  }

  lemma HoldsChar(s: string, a: nat, c: char, y: string)
    requires Holds(s, a, [c] + y)
    ensures s[a] == c && Holds(s, a + 1, y)
  {
    HoldsSplit(s, a, [c], y);
    assert s[a] == s[a..a + 1][0];
  }

  lemma HoldsQuoted(s: string, a: nat, open: char, body: string, close: char, y: string)
    requires Holds(s, a, [open] + body + [close] + y)
    ensures s[a] == open && Holds(s, a + 1, body)
    ensures a + 1 + |body| < |s| && s[a + 1 + |body|] == close && Holds(s, a + |body| + 2, y)
  {
    Assoc4([open], body, [close], y);
    HoldsChar(s, a, open, body + ([close] + y));
    HoldsSplit(s, a + 1, body, [close] + y);
    HoldsChar(s, a + 1 + |body|, close, y);
  }

  lemma HoldsFrom(s: string, a: nat, t: string, k: nat)
    requires Holds(s, a, t) && k <= |t|
    ensures Holds(s, a + k, t[k..])
    ensures k < |t| ==> s[a + k] == t[k]
  {
    if k < |t| {
      assert s[a + k] == s[a..a + |t|][k];
    }
    assert s[a + k..a + |t|] == s[a..a + |t|][k..];
  }

  lemma PrintEnd()
    ensures Print(End) == ""
  {
  }

  lemma AtChar(s: string, a: nat, q: Query)
    requires q.Char? && Holds(s, a, Print(q))
    ensures |Print(q)| == 1 + |Print(q.rest)| && a < |s|
    ensures s[a] == q.c && Holds(s, a + 1, Print(q.rest))
  {
    HoldsChar(s, a, q.c, Print(q.rest));
  }

  lemma AtLiteral(s: string, a: nat, q: Query)
    requires q.Literal? && Holds(s, a, Print(q))
    ensures |Print(q)| == |q.body| + 2 + |Print(q.rest)| && a + |q.body| + 2 <= |s|
    ensures s[a] == '"' && Holds(s, a + 1, q.body) && s[a + 1 + |q.body|] == '"'
    ensures Holds(s, a + |q.body| + 2, Print(q.rest))
  {
    HoldsQuoted(s, a, '"', q.body, '"', Print(q.rest));
  }

  lemma AtParens(s: string, a: nat, q: Query)
    requires q.Parens? && Holds(s, a, Print(q))
    ensures |Print(q)| == |Print(q.inner)| + 2 + |Print(q.rest)| && a + |Print(q.inner)| + 2 <= |s|
    ensures s[a] == '(' && Holds(s, a + 1, Print(q.inner)) && s[a + 1 + |Print(q.inner)|] == ')'
    ensures Holds(s, a + |Print(q.inner)| + 2, Print(q.rest))
  {
    HoldsQuoted(s, a, '(', Print(q.inner), ')', Print(q.rest));
  }

  lemma AtRange(s: string, a: nat, q: Query)
    requires q.Range? && Holds(s, a, Print(q))
    ensures |Print(q)| == |q.interval| + 2 + |Print(q.rest)| && a + |q.interval| + 2 <= |s|
    ensures s[a] == '[' && Holds(s, a + 1, q.interval) && s[a + 1 + |q.interval|] == ']'
    ensures Holds(s, a + |q.interval| + 2, Print(q.rest))
  {
    HoldsQuoted(s, a, '[', q.interval, ']', Print(q.rest));
  }

  /** Every position from `a` to `b` has this mode class and the same depth. */
  predicate Flat(s: string, from: nat, a: nat, b: nat, code: bool)
    requires from <= a <= b <= |s|
  {
    forall k :: a <= k <= b ==> (ModeAt(s, from, k) == Code) == code && Depth(s, from, k) == Depth(s, from, a)
  }

  lemma FlatJoin(s: string, from: nat, a: nat, b: nat, c: nat, code: bool)
    requires from <= a <= b <= c <= |s|
    requires Flat(s, from, a, b, code) && Flat(s, from, b, c, code)
    ensures Flat(s, from, a, c, code)
  {
    hide ModeAt, Depth;
    assert Depth(s, from, b) == Depth(s, from, a);
  }

  /** The characters that a literal's text starts with: a plain one, or an escape and what it escapes. */
  function Escapes(body: string): (n: nat)
    requires body != [] && LiteralText(body)
    ensures 0 < n <= |body| && LiteralText(body[n..])
  {
    if body[0] == '\\' then 2 else 1
  }

  lemma ScanEscape(s: string, from: nat, a: nat, body: string)
    requires from <= a && Holds(s, a, body) && body != [] && LiteralText(body)
    requires ModeAt(s, from, a) == Quoted
    ensures var b := a + Escapes(body); ModeAt(s, from, b) == Quoted && Flat(s, from, a, b, false)
  {
    HoldsFrom(s, a, body, 0);
    assert ModeAt(s, from, a + 1) == Next(Quoted, body[0]) && Depth(s, from, a + 1) == Depth(s, from, a);
    if body[0] == '\\' {
      HoldsFrom(s, a, body, 1);
      assert ModeAt(s, from, a + 2) == Quoted && Depth(s, from, a + 2) == Depth(s, from, a);
    }
  }

  /** Inside a literal nothing is code, and the literal's end is reached in quoted mode. */
  lemma {:induction false} ScanLiteral(s: string, from: nat, a: nat, body: string)
    requires from <= a && Holds(s, a, body) && LiteralText(body)
    requires ModeAt(s, from, a) == Quoted
    ensures ModeAt(s, from, a + |body|) == Quoted
    ensures Flat(s, from, a, a + |body|, false)
    decreases |body|
  {
    hide ModeAt, Depth, LiteralText;
    if body == [] {
    } else {
      var n := Escapes(body);
      ScanEscape(s, from, a, body);
      HoldsFrom(s, a, body, n);
      ScanLiteral(s, from, a + n, body[n..]);
      FlatJoin(s, from, a, a + n, a + |body|, false);
    }
  }

  lemma {:induction false} ScanInert(s: string, from: nat, a: nat, t: string)
    requires from <= a && Holds(s, a, t) && Inert(t)
    requires ModeAt(s, from, a) == Code
    ensures Flat(s, from, a, a + |t|, true)
    decreases |t|
  {
    if t == [] {
    } else {
      HoldsFrom(s, a, t, 0);
      HoldsFrom(s, a, t, 1);
      ScanInert(s, from, a + 1, t[1..]);
    }
  }

  /** A stretch of text that a scan enters and leaves in code at the same depth, never going below it. */
  predicate Neutral(s: string, from: nat, a: nat, b: nat)
    requires from <= a <= b <= |s|
  {
    && ModeAt(s, from, a) == Code
    && ModeAt(s, from, b) == Code
    && Depth(s, from, b) == Depth(s, from, a)
    && forall k :: a <= k <= b ==> Depth(s, from, k) >= Depth(s, from, a)
  }

  lemma NeutralLiteral(s: string, from: nat, a: nat, body: string)
    requires from <= a && a + |body| + 2 <= |s|
    requires s[a] == '"' && Holds(s, a + 1, body) && s[a + 1 + |body|] == '"' && LiteralText(body)
    requires ModeAt(s, from, a) == Code
    ensures Neutral(s, from, a, a + |body| + 2)
    ensures forall k :: a < k < a + |body| + 2 ==> ModeAt(s, from, k) != Code
  {
    assert ModeAt(s, from, a + 1) == Quoted && Depth(s, from, a + 1) == Depth(s, from, a);
    ScanLiteral(s, from, a + 1, body);
  }

  lemma NeutralRange(s: string, from: nat, a: nat, interval: string)
    requires from <= a && a + |interval| + 2 <= |s|
    requires s[a] == '[' && Holds(s, a + 1, interval) && s[a + 1 + |interval|] == ']' && Inert(interval)
    requires ModeAt(s, from, a) == Code
    ensures Neutral(s, from, a, a + |interval| + 2)
  {
    assert ModeAt(s, from, a + 1) == Code && Depth(s, from, a + 1) == Depth(s, from, a);
    ScanInert(s, from, a + 1, interval);
  }

  lemma NeutralParens(s: string, from: nat, a: nat, b: nat)
    requires from <= a < b < |s| && s[a] == '(' && s[b] == ')'
    requires ModeAt(s, from, a) == Code && Neutral(s, from, a + 1, b)
    ensures Neutral(s, from, a, b + 1)
    ensures forall k :: a < k <= b ==> Depth(s, from, k) > Depth(s, from, a)
  {
    assert Depth(s, from, a + 1) == Depth(s, from, a) + 1;
  }

  lemma NeutralThen(s: string, from: nat, a: nat, b: nat, c: nat)
    requires from <= a <= b <= c <= |s| && Neutral(s, from, a, b) && Neutral(s, from, b, c)
    ensures Neutral(s, from, a, c)
  {
    hide ModeAt, Depth;
    forall k | a <= k <= c ensures Depth(s, from, k) >= Depth(s, from, a) {
      assert k <= b || b <= k;
    }
  }

  lemma NeutralNothing(s: string, from: nat, a: nat)
    requires from <= a <= |s| && ModeAt(s, from, a) == Code
    ensures Neutral(s, from, a, a)
  {
    hide ModeAt, Depth;
  }

  lemma NeutralChar(s: string, from: nat, a: nat)
    requires from <= a < |s| && ModeAt(s, from, a) == Code && InertChar(s[a])
    ensures Neutral(s, from, a, a + 1)
  {
    assert ModeAt(s, from, a + 1) == Code && Depth(s, from, a + 1) == Depth(s, from, a);
    hide ModeAt, Depth;
  }

  lemma InParens(s: string, from: nat, a: nat)
    requires from <= a < |s| && ModeAt(s, from, a) == Code && s[a] == '('
    ensures ModeAt(s, from, a + 1) == Code
  {
  }

  lemma NeutralEnds(s: string, from: nat, a: nat, b: nat)
    requires from <= a <= b <= |s| && Neutral(s, from, a, b)
    ensures ModeAt(s, from, b) == Code
  {
  }

  /** A scan that meets a well-formed query in code leaves it in code, at the depth it came with, and
      never goes below that depth. */
  lemma {:induction false} ScanQuery(s: string, from: nat, a: nat, q: Query)
    requires from <= a && Holds(s, a, Print(q)) && WellFormed(q)
    requires ModeAt(s, from, a) == Code
    ensures Neutral(s, from, a, a + |Print(q)|)
    decreases q
  {
    hide Holds, Print, Inert, InertChar, LiteralText, NoCallText, Neutral, ModeAt, Depth;
    var b, end := a, a + |Print(q)|;
    match q {
      case End =>
        PrintEnd();
        HoldsFits(s, a, Print(q));
        NeutralNothing(s, from, a);
        return;
      case Char(c, rest) =>
        AtChar(s, a, q);
        NeutralChar(s, from, a);
        b := a + 1;
      case Literal(body, rest) =>
        AtLiteral(s, a, q);
        NeutralLiteral(s, from, a, body);
        b := a + |body| + 2;
      case Parens(inner, rest) =>
        AtParens(s, a, q);
        InParens(s, from, a);
        ScanQuery(s, from, a + 1, inner);
        NeutralParens(s, from, a, a + 1 + |Print(inner)|);
        b := a + |Print(inner)| + 2;
      case Range(interval, rest) =>
        AtRange(s, a, q);
        NeutralRange(s, from, a, interval);
        b := a + |interval| + 2;
    }
    NeutralEnds(s, from, a, b);
    ScanQuery(s, from, b, q.rest);
    NeutralThen(s, from, a, b, end);
  }

  /** `matchingRightParen` finds the parenthesis that closes a well-formed body. */
  lemma MatchingOfParens(s: string, a: nat, inner: Query)
    requires Holds(s, a, "(" + Print(inner) + ")") && WellFormed(inner)
    ensures a + 1 + |Print(inner)| < |s|
    ensures Matching(s, a) == a + 1 + |Print(inner)|
  {
    var e := a + 1 + |Print(inner)|;
    assert "(" + Print(inner) + ")" + "" == "(" + Print(inner) + ")";
    HoldsQuoted(s, a, '(', Print(inner), ')', "");
    assert ModeAt(s, a, a) == Code && Depth(s, a, a) == 0;
    assert ModeAt(s, a, a + 1) == Code && Depth(s, a, a + 1) == 1;
    ScanQuery(s, a, a + 1, inner);
    assert ClosesAt(s, a, e);
    forall k | a <= k < e ensures !ClosesAt(s, a, k) {
      assert k > a ==> Depth(s, a, k + 1) >= 1;
    }
  }

  // ---------- the ranges a scanner finds in a printed tree ----------

  lemma {:induction false} SkipNonRanges(s: string, i: nat, j: nat)
    requires i <= j <= |s|
    requires forall k :: i <= k < j ==> !OpensRangeAt(s, k)
    ensures FirstOpenRange(s, i) == FirstOpenRange(s, j)
    decreases j - i
  {
    if i < j {
      SkipNonRanges(s, i + 1, j);
    }
  }

  lemma {:induction false} SkipNonCode(s: string, c: char, i: nat, j: nat)
    requires i <= j <= |s|
    requires forall k :: i <= k < j ==> !CodeAt(s, 0, k, c)
    ensures FirstCode(s, c, i) == FirstCode(s, c, j)
    decreases j - i
  {
    if i < j {
      SkipNonCode(s, c, i + 1, j);
    }
  }

  /** A stretch of text in which scanners find no range of their own. */
  predicate Skipped(s: string, a: nat, b: nat)
    requires a <= b <= |s|
  {
    && ModeAt(s, 0, b) == Code
    && Depth(s, 0, b) == Depth(s, 0, a)
    && FirstOpenRange(s, a) == FirstOpenRange(s, b)
  }

  lemma SkipChar(s: string, a: nat)
    requires a < |s| && InertChar(s[a]) && ModeAt(s, 0, a) == Code
    ensures Skipped(s, a, a + 1)
    ensures FirstCode(s, '[', a) == FirstCode(s, '[', a + 1)
  {
  }

  lemma SkipLiteral(s: string, a: nat, body: string)
    requires a + |body| + 2 <= |s|
    requires s[a] == '"' && Holds(s, a + 1, body) && s[a + 1 + |body|] == '"' && LiteralText(body)
    requires ModeAt(s, 0, a) == Code
    ensures Skipped(s, a, a + |body| + 2)
    ensures FirstCode(s, '[', a) == FirstCode(s, '[', a + |body| + 2)
  {
    NeutralLiteral(s, 0, a, body);
    SkipNonRanges(s, a, a + |body| + 2);
    SkipNonCode(s, '[', a, a + |body| + 2);
  }

  lemma SkipParens(s: string, a: nat, inner: Query)
    requires a + 1 + |Print(inner)| < |s| && WellFormed(inner)
    requires s[a] == '(' && Holds(s, a + 1, Print(inner)) && s[a + 1 + |Print(inner)|] == ')'
    requires ModeAt(s, 0, a) == Code && Depth(s, 0, a) == 0
    ensures Skipped(s, a, a + |Print(inner)| + 2)
  {
    hide Holds, Print, FirstOpenRange;
    var e := a + 1 + |Print(inner)|;
    assert ModeAt(s, 0, a + 1) == Code;
    ScanQuery(s, 0, a + 1, inner);
    NeutralParens(s, 0, a, e);
    SkipNonRanges(s, a, e + 1);
  }

  /** What `intervalInFunctionBody` is to find in a query printed at `a`: its own range. */
  predicate OwnRangeFound(s: string, a: nat, q: Query)
    requires a + |Print(q)| <= |s|
  {
    match OwnInterval(q)
    case None => FirstOpenRange(s, a) == FirstOpenRange(s, a + |Print(q)|)
    case Some(t) =>
      var j := a + |Print(BeforeOwn(q))|;
      && FirstOpenRange(s, a) == j && j + |t| + 1 < |s|
      && Holds(s, j + 1, t) && IndexFrom(s, ']', j) == j + 1 + |t|
  }

  lemma OwnRangeFoundLater(s: string, a: nat, b: nat, q: Query)
    requires q.Char? || q.Literal? || q.Parens?
    requires a <= b && |Print(q)| == b - a + |Print(q.rest)| && a + |Print(q)| <= |s|
    requires FirstOpenRange(s, a) == FirstOpenRange(s, b)
    requires OwnRangeFound(s, b, q.rest)
    ensures OwnRangeFound(s, a, q)
  {
    hide FirstOpenRange, Holds, Print, BeforeOwn, IndexFrom;
    BeforeOwnLength(q);
    assert OwnInterval(q) == OwnInterval(q.rest);
    assert a + |Print(q)| == b + |Print(q.rest)|;
    assert a + |Print(BeforeOwn(q))| == b + |Print(BeforeOwn(q.rest))|;
  }

  lemma BeforeOwnLength(q: Query)
    requires q.Char? || q.Literal? || q.Parens?
    ensures |Print(q)| - |Print(q.rest)| == |Print(BeforeOwn(q))| - |Print(BeforeOwn(q.rest))|
  {
  }

  lemma {:induction false} FirstOpenOfQuery(s: string, a: nat, q: Query)
    requires Holds(s, a, Print(q)) && WellFormed(q)
    requires ModeAt(s, 0, a) == Code && Depth(s, 0, a) == 0
    ensures OwnRangeFound(s, a, q)
    decreases q
  {
    hide Print, FirstOpenRange, ModeAt, Depth, LiteralText, Inert, OwnRangeFound, Holds;
    match q
    case End =>
      OwnRangeHere(s, a, q);
    case Char(c, rest) =>
      AtChar(s, a, q);
      SkipChar(s, a);
      FirstOpenOfQuery(s, a + 1, rest);
      OwnRangeFoundLater(s, a, a + 1, q);
    case Literal(body, rest) =>
      AtLiteral(s, a, q);
      SkipLiteral(s, a, body);
      FirstOpenOfQuery(s, a + |body| + 2, rest);
      OwnRangeFoundLater(s, a, a + |body| + 2, q);
    case Parens(inner, rest) =>
      AtParens(s, a, q);
      SkipParens(s, a, inner);
      FirstOpenOfQuery(s, a + |Print(inner)| + 2, rest);
      OwnRangeFoundLater(s, a, a + |Print(inner)| + 2, q);
    case Range(interval, rest) =>
      OwnRangeHere(s, a, q);
  }

  lemma OwnRangeHere(s: string, a: nat, q: Query)
    requires q.End? || q.Range?
    requires Holds(s, a, Print(q)) && WellFormed(q)
    requires ModeAt(s, 0, a) == Code && Depth(s, 0, a) == 0
    ensures OwnRangeFound(s, a, q)
  {
    if q.Range? {
      AtRange(s, a, q);
      FirstOpenAtRange(s, a, q.interval);
    }
  }

  lemma FirstOpenAtRange(s: string, a: nat, interval: string)
    requires a + |interval| + 1 < |s| && s[a] == '[' && Holds(s, a + 1, interval) && s[a + 1 + |interval|] == ']'
    requires Inert(interval) && ModeAt(s, 0, a) == Code && Depth(s, 0, a) == 0
    ensures FirstOpenRange(s, a) == a && IndexFrom(s, ']', a) == a + 1 + |interval|
  {
    var e := a + 1 + |interval|;
    assert s[a..][e - a] == ']';
    forall k | a < k < e ensures s[k] != ']' {
      HoldsFrom(s, a + 1, interval, k - a - 1);
    }
    IndexOfEnd(s, ']', a, e);
  }

  /** What `firstRangeStart` is to find in a query printed at `a`: its first range, at any depth. */
  predicate FirstRangeFound(s: string, a: nat, q: Query)
    requires a + |Print(q)| <= |s|
  {
    FirstCode(s, '[', a) == if HasRange(q) then a + |ToFirstRange(q)| else FirstCode(s, '[', a + |Print(q)|)
  }

  lemma FirstRangeLater(s: string, a: nat, b: nat, q: Query)
    requires (q.Char? && b == a + 1) || (q.Literal? && b == a + |q.body| + 2)
    requires |Print(q)| == b - a + |Print(q.rest)| && a + |Print(q)| <= |s|
    requires FirstCode(s, '[', a) == FirstCode(s, '[', b) && FirstRangeFound(s, b, q.rest)
    ensures FirstRangeFound(s, a, q)
  {
    assert HasRange(q) == HasRange(q.rest) && |ToFirstRange(q)| == b - a + |ToFirstRange(q.rest)|;
    hide FirstCode, HasRange, ToFirstRange, Print;
  }

  lemma FirstRangeInParens(s: string, a: nat, e: nat, q: Query)
    requires q.Parens? && e == a + 1 + |Print(q.inner)|
    requires |Print(q)| == |Print(q.inner)| + 2 + |Print(q.rest)| && a + |Print(q)| <= |s|
    requires FirstCode(s, '[', a) == FirstCode(s, '[', a + 1) && FirstRangeFound(s, a + 1, q.inner)
    requires FirstCode(s, '[', e) == FirstCode(s, '[', e + 1) && FirstRangeFound(s, e + 1, q.rest)
    ensures FirstRangeFound(s, a, q)
  {
    assert HasRange(q) == (HasRange(q.inner) || HasRange(q.rest));
    assert |ToFirstRange(q)| == if HasRange(q.inner) then 1 + |ToFirstRange(q.inner)|
                                else 2 + |Print(q.inner)| + |ToFirstRange(q.rest)|;
    hide FirstCode, HasRange, ToFirstRange, Print;
  }

  lemma FirstRangeHere(s: string, a: nat, q: Query)
    requires a + |Print(q)| <= |s| && (q.Range? ==> FirstCode(s, '[', a) == a) && (q.Range? || q.End?)
    ensures FirstRangeFound(s, a, q)
  {
    hide FirstCode;
  }

  /** `firstRangeStart` finds the first range of a well-formed query, at any depth. */
  lemma {:induction false} FirstRangeOfQuery(s: string, a: nat, q: Query)
    requires Holds(s, a, Print(q)) && WellFormed(q)
    requires ModeAt(s, 0, a) == Code
    ensures a + |Print(q)| <= |s| && FirstRangeFound(s, a, q)
    decreases q, 1
  {
    HoldsFits(s, a, Print(q));
    hide Holds, Print, FirstCode, FirstOpenRange, ModeAt, Depth, LiteralText, Inert, NoCallText, FirstRangeFound, Skipped;
    hide HasRange, ToFirstRange;
    match q
    case End =>
      FirstRangeHere(s, a, q);
    case Char(c, rest) =>
      AtChar(s, a, q);
      SkipChar(s, a);
      FirstRangeOfQuery(s, a + 1, rest);
      FirstRangeLater(s, a, a + 1, q);
    case Literal(body, rest) =>
      var b := a + |body| + 2;
      StepOverLiteral(s, a, b, q);
      FirstRangeOfQuery(s, b, rest);
      FirstRangeLater(s, a, b, q);
    case Parens(inner, rest) =>
      FirstRangeOfParens(s, a, q);
    case Range(interval, rest) =>
      AtRange(s, a, q);
      FirstCodeHere(s, a);
      FirstRangeHere(s, a, q);
  }

  lemma StepOverLiteral(s: string, a: nat, b: nat, q: Query)
    requires q.Literal? && Holds(s, a, Print(q)) && WellFormed(q) && ModeAt(s, 0, a) == Code && b == a + |q.body| + 2
    ensures |Print(q)| == b - a + |Print(q.rest)| && b <= |s| && Holds(s, b, Print(q.rest)) && WellFormed(q.rest)
    ensures ModeAt(s, 0, b) == Code && FirstCode(s, '[', a) == FirstCode(s, '[', b)
  {
    hide Holds, Print, FirstCode, FirstOpenRange, ModeAt, Depth, LiteralText, NoCallText;
    AtLiteral(s, a, q);
    SkipLiteral(s, a, q.body);
  }

  lemma FirstRangeOfParens(s: string, a: nat, q: Query)
    requires q.Parens? && Holds(s, a, Print(q)) && WellFormed(q) && a + |Print(q)| <= |s|
    requires ModeAt(s, 0, a) == Code
    ensures FirstRangeFound(s, a, q)
    decreases q, 0
  {
    hide Holds, Print, FirstCode, ModeAt, Depth, FirstRangeFound, Neutral, LiteralText, Inert, NoCallText;
    hide HasRange, ToFirstRange;
    var e := a + 1 + |Print(q.inner)|;
    AtParens(s, a, q);
    StepOverParen(s, a);
    FirstRangeOfQuery(s, a + 1, q.inner);
    ScanQuery(s, 0, a + 1, q.inner);
    NeutralEnds(s, 0, a + 1, e);
    StepOverParen(s, e);
    FirstRangeOfQuery(s, e + 1, q.rest);
    FirstRangeInParens(s, a, e, q);
  }

  lemma StepOverParen(s: string, a: nat)
    requires a < |s| && (s[a] == '(' || s[a] == ')') && ModeAt(s, 0, a) == Code
    ensures ModeAt(s, 0, a + 1) == Code
    ensures FirstCode(s, '[', a) == FirstCode(s, '[', a + 1)
  {
  }

  lemma FirstCodeHere(s: string, a: nat)
    requires a < |s| && CodeAt(s, 0, a, '[')
    ensures FirstCode(s, '[', a) == a
  {
  }

  lemma {:induction false} BeforeOwnWellFormed(q: Query)
    requires WellFormed(q)
    ensures WellFormed(BeforeOwn(q))
    ensures Print(BeforeOwn(q)) <= Print(q)
  {
    if q.Char? || q.Literal? || q.Parens? {
      BeforeOwnWellFormed(q.rest);
    }
  }

  lemma HoldsSelf(s: string)
    ensures Holds(s, 0, s)
  {
  }

  /** The metric name recovered from text is the tree's. */
  lemma CallMetricOfQuery(body: Query)
    requires WellFormed(body)
    ensures CallMetric(Print(BeforeOwn(body))) == Metric(body)
  {
    var before := BeforeOwn(body);
    BeforeOwnWellFormed(body);
    FirstRangePrefix(before);
    hide NameAtEnd, FirstCode;
  }

  lemma FirstRangePrefix(q: Query)
    requires WellFormed(q)
    ensures var first := FirstCode(Print(q), '[', 0);
            if HasRange(q) then first != -1 && Print(q)[..first] == ToFirstRange(q) else first == -1
  {
    var s := Print(q);
    HoldsSelf(s);
    FirstRangeOfQuery(s, 0, q);
  }

  // ---------- one pass over a printed tree ----------

  /** A query's text around its own range. */
  lemma {:induction false} PrintAroundOwn(q: Query)
    requires OwnInterval(q).Some?
    ensures Print(q) == Print(BeforeOwn(q)) + ("[" + OwnInterval(q).value + "]" + Print(AfterOwn(q)))
  {
    var own := "[" + OwnInterval(q).value + "]" + Print(AfterOwn(q));
    match q
    case Char(c, rest) =>
      PrintAroundOwn(rest);
      Assoc([c], Print(BeforeOwn(rest)), own);
    case Literal(body, rest) =>
      PrintAroundOwn(rest);
      Assoc("\"" + body + "\"", Print(BeforeOwn(rest)), own);
    case Parens(inner, rest) =>
      PrintAroundOwn(rest);
      Assoc("(" + Print(inner) + ")", Print(BeforeOwn(rest)), own);
    case Range(interval, rest) =>
      assert "" + own == own;
  }

  lemma {:induction false} AroundSetOwn(q: Query, t: string)
    requires OwnInterval(q).Some?
    ensures OwnInterval(SetOwnInterval(q, t)) == Some(t)
    ensures BeforeOwn(SetOwnInterval(q, t)) == BeforeOwn(q)
    ensures AfterOwn(SetOwnInterval(q, t)) == AfterOwn(q)
  {
    if !q.Range? {
      AroundSetOwn(q.rest, t);
    }
  }

  /** Replacing the own range of a tree replaces the range's text. */
  lemma PrintSetOwn(q: Query, t: string)
    requires OwnInterval(q).Some?
    ensures var s, j, k := Print(q), |Print(BeforeOwn(q))|, |Print(BeforeOwn(q))| + 1 + |OwnInterval(q).value|;
            && k < |s|
            && s[..j] == Print(BeforeOwn(q)) && s[j + 1..k] == OwnInterval(q).value
            && Print(SetOwnInterval(q, t)) == s[..j + 1] + (t + s[k..])
  {
    hide Print, BeforeOwn, AfterOwn, OwnInterval, SetOwnInterval;
    PrintAroundOwn(q);
    AroundSetOwn(q, t);
    PrintAroundOwn(SetOwnInterval(q, t));
    SpliceAround(Print(BeforeOwn(q)), OwnInterval(q).value, t, Print(AfterOwn(q)));
  }

  lemma SpliceAround(a: string, t: string, t': string, b: string)
    ensures var s, j, k := a + ("[" + t + "]" + b), |a|, |a| + 1 + |t|;
            && k < |s| && s[..j] == a && s[j + 1..k] == t
            && a + ("[" + t' + "]" + b) == s[..j + 1] + (t' + s[k..])
  {
    var s, j, k := a + ("[" + t + "]" + b), |a|, |a| + 1 + |t|;
    assert s[..j + 1] == a + "[";
    assert s[k..] == "]" + b;
    Assoc4(a, "[", t', "]" + b);
    Assoc4("[", t', "]", b);
    Assoc("[", t', "]" + b);
  }

  /** Where the scanners find a body's own range and its metric. */
  lemma OwnRangeOfBody(body: Query)
    requires WellFormed(body)
    ensures OwnInterval(body).None? ==> FirstOpenRange(Print(body), 0) == -1
    ensures OwnInterval(body).Some? ==>
              var j := |Print(BeforeOwn(body))|;
              && FirstOpenRange(Print(body), 0) == j
              && IndexFrom(Print(body), ']', j) == j + 1 + |OwnInterval(body).value|
  {
    var s := Print(body);
    HoldsSelf(s);
    FirstOpenOfQuery(s, 0, body);
    assert FirstOpenRange(s, |s|) == -1;
  }

  /** The body of a call is edited as its tree is. */
  lemma BodyOfQuery(env: Env, f: IntervalFn, body: Query)
    requires WellFormed(body)
    ensures EditedBody(env, f, Print(body)) == Print(WithOwn(body, NewInterval(env, f, body)))
    ensures UsedInterval(env, f, Print(body)) == Used(env, f, body)
  {
    OwnRangeOfBody(body);
    if OwnInterval(body).Some? {
      var changed := NewInterval(env, f, body);
      BodyWithRange(env, f, body, if changed.Some? then changed.value else "");
    }
  }

  lemma BodyWithRange(env: Env, f: IntervalFn, body: Query, t: string)
    requires WellFormed(body) && OwnInterval(body).Some?
    requires NewInterval(env, f, body).Some? ==> t == NewInterval(env, f, body).value
    ensures EditedBody(env, f, Print(body))
            == if NewInterval(env, f, body).Some? then Print(SetOwnInterval(body, t)) else Print(body)
    ensures UsedInterval(env, f, Print(body)) == Used(env, f, body)
  {
    hide FirstOpenRange, CallMetric, Metric, EditedBody, UsedInterval, BodyEdit, AdjustedInterval, BeforeOwn, AfterOwn;
    hide SetOwnInterval, OwnInterval, Print, WellFormed, Inert, IndexFrom, ScrapeInterval;
    var s, j := Print(body), |Print(BeforeOwn(body))|;
    OwnRangeOfBody(body);
    CallMetricOfQuery(body);
    PrintSetOwn(body, t);
    BodyEditParts(env, f, s, j, j + 1 + |OwnInterval(body).value|);
  }
}
