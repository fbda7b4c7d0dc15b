/** Passes of the interval rewriter over printed trees: each one is a tree rewrite, and all eleven
    together are one simultaneous rewrite whatever their order. */
module TreePasses {
  import opened Text
  import opened Duration
  import opened Scanner
  import opened Rewriter
  import opened QueryTree

  // ---------- names in front of parentheses ----------

  /** The name in front of position `p`. */
  function NameAt(s: string, p: nat): string
    requires p <= |s|
  {
    s[NameStart(s, p)..p]
  }

  lemma NameAtNext(s: string, p: nat)
    requires p < |s|
    ensures NameAt(s, p + 1) == NameAfter(NameAt(s, p), s[p])
  {
  }

  /** Inside a window that follows a non-name character, names are the window's own. */
  lemma {:induction false} NameInWindow(s: string, a: nat, t: string, k: nat)
    requires 0 < a && Holds(s, a, t) && k <= |t| && !IsNameChar(s[a - 1])
    ensures NameAt(s, a + k) == NameAt(t, k)
    ensures NameStart(s, a + k) == a + NameStart(t, k)
    decreases k
  {
    if k == 0 {
    } else {
      NameInWindow(s, a, t, k - 1);
      HoldsFrom(s, a, t, k - 1);
    }
    SameWindow(s, a, t, NameStart(t, k), k);
  }

  lemma SameWindow(s: string, a: nat, t: string, i: nat, k: nat)
    requires Holds(s, a, t) && i <= k <= |t|
    ensures t[i..k] == s[a + i..a + k]
  {
    forall j | i <= j < k ensures t[j] == s[a + j] {
      HoldsFrom(s, a, t, j);
    }
  }

  lemma NoCallInLiteral(s: string, a: nat, body: string, f: IntervalFn)
    requires 0 < a && Holds(s, a, body) && s[a - 1] == '"' && NoCallText(body)
    ensures forall p :: a <= p < a + |body| ==> !CallAt(s, p, f)
  {
    hide CallAt, NoCallText;
    forall p | a <= p < a + |body| ensures !CallAt(s, p, f) {
      NoCallInside(s, a, body, f, p - a);
    }
  }

  lemma NoCallInside(s: string, a: nat, body: string, f: IntervalFn, k: nat)
    requires 0 < a && Holds(s, a, body) && s[a - 1] == '"' && NoCallText(body) && k < |body|
    ensures !CallAt(s, a + k, f)
  {
    hide NameStart, Matching, Claims;
    NameInWindow(s, a, body, k);
    HoldsFrom(s, a, body, k);
  }

  lemma NoCallInInert(s: string, a: nat, t: string, f: IntervalFn)
    requires Holds(s, a, t) && Inert(t)
    ensures forall p :: a <= p < a + |t| ==> !CallAt(s, p, f)
  {
    forall p | a <= p < a + |t| ensures !CallAt(s, p, f) {
      HoldsFrom(s, a, t, p - a);
    }
  }

  // ---------- one pass is a tree rewrite ----------

  /** From position `a` to `b` a pass writes `text` and uses `least`. */
  predicate Writes(env: Env, f: IntervalFn, s: string, a: nat, b: nat, text: string, least: nat)
    requires a <= b <= |s|
  {
    && Rest(env, f, s, a) == text + Rest(env, f, s, b)
    && Least(env, f, s, a) == MinPositive(least, Least(env, f, s, b))
  }

  lemma WritesThen(env: Env, f: IntervalFn, s: string, a: nat, b: nat, c: nat, t1: string, t2: string, l1: nat, l2: nat)
    requires a <= b <= c <= |s|
    requires Writes(env, f, s, a, b, t1, l1) && Writes(env, f, s, b, c, t2, l2)
    ensures Writes(env, f, s, a, c, t1 + t2, MinPositive(l1, l2))
  {
    Assoc(t1, t2, Rest(env, f, s, c));
  }

  /** Without a call the text is copied. */
  lemma WritesCopy(env: Env, f: IntervalFn, s: string, a: nat, t: string)
    requires Holds(s, a, t)
    requires forall p :: a <= p < a + |t| ==> !CallAt(s, p, f)
    ensures Writes(env, f, s, a, a + |t|, t, 0)
  {
    RestSkip(env, f, s, a, a + |t|);
  }

  lemma {:induction false} RewriteNone(env: Env, q: Query, name: string)
    ensures Rewrite(env, q, name, {}) == q
    ensures LeastUsed(env, q, name, {}) == 0
    decreases q
  {
    match q
    case End =>
    case Char(c, rest) => RewriteNone(env, rest, NameAfter(name, c));
    case Literal(_, rest) => RewriteNone(env, rest, "");
    case Range(_, rest) => RewriteNone(env, rest, "");
    case Parens(inner, rest) =>
      RewriteNone(env, inner, "");
      RewriteNone(env, rest, "");
  }

  lemma CallOfParens(s: string, a: nat, inner: Query, f: IntervalFn)
    requires Holds(s, a, "(" + Print(inner) + ")") && WellFormed(inner) && Claims(f, NameAt(s, a))
    ensures var e := a + 1 + |Print(inner)|;
            e < |s| && Matching(s, a) == e && CallAt(s, a, f) && s[a + 1..e] == Print(inner) && s[a] == '(' && s[e] == ')'
  {
    hide Print, Claims, WellFormed;
    MatchingOfParens(s, a, inner);
    assert "(" + Print(inner) + ")" + "" == "(" + Print(inner) + ")";
    HoldsQuoted(s, a, '(', Print(inner), ')', "");
  }

  /** A call of `f`: its parentheses and its body with the own range adjusted. */
  lemma WritesCall(env: Env, f: IntervalFn, s: string, a: nat, inner: Query)
    requires Holds(s, a, "(" + Print(inner) + ")") && WellFormed(inner) && Claims(f, NameAt(s, a))
    ensures var e := a + 1 + |Print(inner)|;
            Writes(env, f, s, a, e + 1, "(" + Print(WithOwn(inner, NewInterval(env, f, inner))) + ")",
                   MinPositive(0, Used(env, f, inner)))
  {
    hide Print, Rest, Least, EditedBody, UsedInterval, WithOwn, NewInterval;
    hide Used, FnName, CallAt, Claims, WellFormed, Matching, Holds;
    var e := a + 1 + |Print(inner)|;
    CallOfParens(s, a, inner, f);
    RestAtCall(env, f, s, a);
    BodyOfQuery(env, f, inner);
    Assoc4("(", EditedBody(env, f, Print(inner)), ")", Rest(env, f, s, e + 1));
  }

  lemma OnlyParensCall(s: string, a: nat, f: IntervalFn)
    requires a < |s| && s[a] != '('
    ensures !CallAt(s, a, f)
  {
  }

  lemma WritesLiteral(env: Env, f: IntervalFn, s: string, a: nat, q: Query)
    requires q.Literal? && Holds(s, a, Print(q)) && WellFormed(q)
    ensures Writes(env, f, s, a, a + |q.body| + 2, "\"" + q.body + "\"", 0)
    ensures NameAt(s, a + |q.body| + 2) == ""
  {
    hide Rest, Least, Claims, CallAt, NoCallText;
    AtLiteral(s, a, q);
    var t := "\"" + q.body + "\"";
    HoldsSplit(s, a, t, Print(q.rest));
    NoCallInLiteral(s, a + 1, q.body, f);
    OnlyParensCall(s, a, f);
    OnlyParensCall(s, a + 1 + |q.body|, f);
    WritesCopy(env, f, s, a, t);
  }

  lemma WritesRange(env: Env, f: IntervalFn, s: string, a: nat, q: Query)
    requires q.Range? && Holds(s, a, Print(q)) && WellFormed(q)
    ensures Writes(env, f, s, a, a + |q.interval| + 2, "[" + q.interval + "]", 0)
    ensures NameAt(s, a + |q.interval| + 2) == ""
  {
    hide Rest, Least, Claims, CallAt, Inert;
    AtRange(s, a, q);
    var t := "[" + q.interval + "]";
    HoldsSplit(s, a, t, Print(q.rest));
    NoCallInInert(s, a + 1, q.interval, f);
    OnlyParensCall(s, a, f);
    OnlyParensCall(s, a + 1 + |q.interval|, f);
    WritesCopy(env, f, s, a, t);
  }

  /** A character that opens no call of `f`. */
  lemma WritesChar(env: Env, f: IntervalFn, s: string, a: nat)
    requires a < |s| && (s[a] == '(' ==> !Claims(f, NameAt(s, a)))
    ensures Writes(env, f, s, a, a + 1, [s[a]], 0)
    ensures NameAt(s, a + 1) == NameAfter(NameAt(s, a), s[a])
  {
    hide Rest, Least, Claims;
    NameAtNext(s, a);
    WritesCopy(env, f, s, a, [s[a]]);
  }

  /** A parenthesis that is no call of `f`, given what the pass writes for its contents. */
  lemma WritesPlainParens(env: Env, f: IntervalFn, s: string, a: nat, e: nat, text: string, least: nat)
    requires a < e < |s| && s[a] == '(' && s[e] == ')' && !Claims(f, NameAt(s, a))
    requires Writes(env, f, s, a + 1, e, text, least)
    ensures Writes(env, f, s, a, e + 1, "(" + text + ")", least)
  {
    hide Rest, Least, Claims, Writes, NameAt;
    WritesChar(env, f, s, a);
    WritesChar(env, f, s, e);
    WritesThen(env, f, s, a, a + 1, e, "(", text, 0, least);
    WritesThen(env, f, s, a, e, e + 1, "(" + text, ")", least, 0);
  }

  /** Where `q` is printed at `a`, the pass writes the rewritten tree. */
  ghost predicate PassWrites(env: Env, f: IntervalFn, s: string, a: nat, q: Query) {
    && a + |Print(q)| <= |s|
    && Writes(env, f, s, a, a + |Print(q)|,
              Print(Rewrite(env, q, NameAt(s, a), {f})), LeastUsed(env, q, NameAt(s, a), {f}))
  }

  /** What a pass writes for the head of a query, followed by what it writes for the rest. */
  lemma HeadAndRest(env: Env, f: IntervalFn, s: string, a: nat, q: Query, b: nat, rest: Query, text: string, least: nat)
    requires a <= b && b + |Print(rest)| == a + |Print(q)|
    requires PassWrites(env, f, s, b, rest) && Writes(env, f, s, a, b, text, least)
    requires Print(Rewrite(env, q, NameAt(s, a), {f})) == text + Print(Rewrite(env, rest, NameAt(s, b), {f}))
    requires LeastUsed(env, q, NameAt(s, a), {f}) == MinPositive(least, LeastUsed(env, rest, NameAt(s, b), {f}))
    ensures PassWrites(env, f, s, a, q)
  {
    hide Writes, NameAt, Rewrite, LeastUsed, Print, MinPositive;
    WritesThen(env, f, s, a, b, b + |Print(rest)|, text, Print(Rewrite(env, rest, NameAt(s, b), {f})),
               least, LeastUsed(env, rest, NameAt(s, b), {f}));
  }

  /** One pass over a printed tree prints the rewritten tree. */
  lemma {:induction false} PassOnQuery(env: Env, f: IntervalFn, s: string, a: nat, q: Query)
    requires Holds(s, a, Print(q)) && WellFormed(q)
    ensures PassWrites(env, f, s, a, q)
    decreases q
  {
    hide Rest, Least, Claims, Writes, Holds, NameAt, PassWrites, NewInterval, Used, WithOwn;
    match q
    case End =>
      PassOnEnd(env, f, s, a);
    case Char(c, rest) =>
      AtChar(s, a, q);
      WritesChar(env, f, s, a);
      PassOnQuery(env, f, s, a + 1, rest);
      HeadAndRest(env, f, s, a, q, a + 1, rest, [c], 0);
    case Literal(body, rest) =>
      var b := a + |body| + 2;
      AtLiteral(s, a, q);
      WritesLiteral(env, f, s, a, q);
      PassOnQuery(env, f, s, b, rest);
      HeadAndRest(env, f, s, a, q, b, rest, "\"" + body + "\"", 0);
    case Range(interval, rest) =>
      var b := a + |interval| + 2;
      AtRange(s, a, q);
      WritesRange(env, f, s, a, q);
      PassOnQuery(env, f, s, b, rest);
      HeadAndRest(env, f, s, a, q, b, rest, "[" + interval + "]", 0);
    case Parens(inner, rest) =>
      var e := a + 1 + |Print(inner)|;
      AtParens(s, a, q);
      PassOnQuery(env, f, s, a + 1, inner);
      PassOnQuery(env, f, s, e + 1, rest);
      if Claims(f, NameAt(s, a)) {
        PassOnCall(env, f, s, a, q);
      } else {
        PassOnPlainParens(env, f, s, a, q);
      }
  }

  lemma PassOnEnd(env: Env, f: IntervalFn, s: string, a: nat)
    requires Holds(s, a, Print(End))
    ensures PassWrites(env, f, s, a, End)
  {
  }

  lemma NoNameAfter(s: string, a: nat)
    requires a < |s| && !IsNameChar(s[a])
    ensures NameAt(s, a + 1) == ""
  {
  }

  lemma PassOnCall(env: Env, f: IntervalFn, s: string, a: nat, q: Query)
    requires q.Parens? && Holds(s, a, Print(q)) && WellFormed(q) && Claims(f, NameAt(s, a))
    requires PassWrites(env, f, s, a + |Print(q.inner)| + 2, q.rest)
    ensures PassWrites(env, f, s, a, q)
  {
    hide Rest, Least, Claims, Writes, NameAt, PassWrites, NewInterval, Used, WithOwn;
    var inner, e := q.inner, a + 1 + |Print(q.inner)|;
    AtParens(s, a, q);
    NoNameAfter(s, e);
    assert Holds(s, a, "(" + Print(inner) + ")") by {
      HoldsSplit(s, a, "(" + Print(inner) + ")", Print(q.rest));
    }
    WritesCall(env, f, s, a, inner);
    ClaimedByOnly(f, NameAt(s, a));
    assert {f} - {f} == {};
    RewriteNone(env, inner, "");
    HeadAndRest(env, f, s, a, q, e + 1, q.rest, "(" + Print(WithOwn(inner, NewInterval(env, f, inner))) + ")",
                MinPositive(0, Used(env, f, inner)));
  }

  lemma PassOnPlainParens(env: Env, f: IntervalFn, s: string, a: nat, q: Query)
    requires q.Parens? && Holds(s, a, Print(q)) && !Claims(f, NameAt(s, a))
    requires PassWrites(env, f, s, a + 1, q.inner) && PassWrites(env, f, s, a + |Print(q.inner)| + 2, q.rest)
    ensures PassWrites(env, f, s, a, q)
  {
    hide Rest, Least, Claims, Writes, NameAt, NewInterval, Used, WithOwn;
    var inner, e := q.inner, a + 1 + |Print(q.inner)|;
    AtParens(s, a, q);
    NoNameAfter(s, a);
    NoNameAfter(s, e);
    WritesPlainParens(env, f, s, a, e, Print(Rewrite(env, inner, "", {f})), LeastUsed(env, inner, "", {f}));
    HeadAndRest(env, f, s, a, q, e + 1, q.rest, "(" + Print(Rewrite(env, inner, "", {f})) + ")",
                LeastUsed(env, inner, "", {f}));
  }

  // ---------- passes do not interfere ----------

  /** A call's body asks for what it asked for before some of its inner calls were adjusted: for the
      same interval and, where that matters, from the same scrape interval. */
  predicate SameRequest(env: Env, f: IntervalFn, body: Query, adjusted: Query, used: bool) {
    NewInterval(env, f, adjusted) == NewInterval(env, f, body) && (used ==> Used(env, f, adjusted) == Used(env, f, body))
  }

  /** No call depends on which of the calls inside it have been adjusted already. */
  ghost predicate Steady(env: Env, q: Query, name: string, active: set<IntervalFn>, used: bool)
    decreases q, 0
  {
    match q
    case End => true
    case Char(c, rest) => Steady(env, rest, NameAfter(name, c), active, used)
    case Literal(_, rest) => Steady(env, rest, "", active, used)
    case Range(_, rest) => Steady(env, rest, "", active, used)
    case Parens(inner, rest) => SteadyCall(env, inner, name, active, used) && Steady(env, rest, "", active, used)
  }

  ghost predicate SteadyCall(env: Env, inner: Query, name: string, active: set<IntervalFn>, used: bool)
    decreases inner, 1
  {
    match ClaimedBy(name)
    case None => Steady(env, inner, "", active, used)
    case Some(f) =>
      Steady(env, inner, "", active - {f}, used) && (f in active ==> SteadyRequest(env, f, inner, active - {f}, used))
  }

  ghost predicate SteadyRequest(env: Env, f: IntervalFn, inner: Query, others: set<IntervalFn>, used: bool) {
    forall s :: s <= others ==> SameRequest(env, f, inner, Rewrite(env, inner, "", s), used)
  }

  lemma {:induction false} SetOwnKeepsStart(q: Query, t: string)
    ensures HasRange(SetOwnInterval(q, t)) == HasRange(q)
    ensures ToFirstRange(SetOwnInterval(q, t)) == ToFirstRange(q)
  {
    if q.Char? || q.Literal? || q.Parens? {
      SetOwnKeepsStart(q.rest, t);
    }
  }

  /** A rewrite changes nothing up to the first range, and no own range. */
  lemma {:induction false} RewriteKeepsStart(env: Env, q: Query, name: string, active: set<IntervalFn>)
    ensures var q' := Rewrite(env, q, name, active);
            && HasRange(q') == HasRange(q) && ToFirstRange(q') == ToFirstRange(q)
            && OwnInterval(q') == OwnInterval(q)
    decreases q, 0
  {
    match q
    case End =>
    case Char(c, rest) => RewriteKeepsStart(env, rest, NameAfter(name, c), active);
    case Literal(_, rest) => RewriteKeepsStart(env, rest, "", active);
    case Range(_, rest) => RewriteKeepsStart(env, rest, "", active);
    case Parens(inner, rest) =>
      RewriteKeepsStart(env, rest, "", active);
      RewriteKeepsInner(env, inner, name, active);
  }

  /** What a rewrite makes of the contents of a parenthesis. */
  ghost function RewriteInner(env: Env, inner: Query, name: string, active: set<IntervalFn>): Query {
    match ClaimedBy(name)
    case Some(f) =>
      if f in active then WithOwn(Rewrite(env, inner, "", active - {f}), NewInterval(env, f, inner))
      else Rewrite(env, inner, "", active)
    case None => Rewrite(env, inner, "", active)
  }

  lemma RewriteKeepsInner(env: Env, inner: Query, name: string, active: set<IntervalFn>)
    ensures var inner' := RewriteInner(env, inner, name, active);
            && HasRange(inner') == HasRange(inner) && ToFirstRange(inner') == ToFirstRange(inner)
    decreases inner, 1
  {
    var f := ClaimedBy(name);
    if f.Some? && f.value in active {
      RewriteKeepsStart(env, inner, "", active - {f.value});
      var changed := NewInterval(env, f.value, inner);
      if changed.Some? {
        SetOwnKeepsStart(Rewrite(env, inner, "", active - {f.value}), changed.value);
      }
    } else {
      RewriteKeepsStart(env, inner, "", active);
    }
  }

  lemma {:induction false} RewriteBeforeOwn(env: Env, q: Query, name: string, active: set<IntervalFn>)
    ensures BeforeOwn(Rewrite(env, q, name, active)) == Rewrite(env, BeforeOwn(q), name, active)
    decreases q
  {
    match q
    case End =>
    case Char(c, rest) => RewriteBeforeOwn(env, rest, NameAfter(name, c), active);
    case Literal(_, rest) => RewriteBeforeOwn(env, rest, "", active);
    case Range(_, rest) =>
    case Parens(_, rest) => RewriteBeforeOwn(env, rest, "", active);
  }

  /** The body holds no range before its own, or the first one follows a name. */
  predicate MetricNamed(body: Query) {
    HasRange(BeforeOwn(body)) ==> NameAtEnd(ToFirstRange(BeforeOwn(body))) != ""
  }

  lemma MetricIsFirst(body: Query)
    requires MetricNamed(body)
    ensures Metric(body) == NameAtEnd(ToFirstRange(BeforeOwn(body)))
  {
  }

  lemma SameMetric(env: Env, body: Query, active: set<IntervalFn>)
    requires MetricNamed(body)
    ensures Metric(Rewrite(env, body, "", active)) == Metric(body)
  {
    hide NameAtEnd, Metric, ToFirstRange, Rewrite;
    RewriteBeforeOwn(env, body, "", active);
    RewriteKeepsStart(env, BeforeOwn(body), "", active);
    MetricIsFirst(body);
    MetricIsFirst(Rewrite(env, body, "", active));
  }

  /** Setting a query's own interval and rewriting the calls in it are independent. */
  lemma {:induction false} SetOwnCommutes(env: Env, q: Query, t: string, name: string, active: set<IntervalFn>)
    ensures Rewrite(env, SetOwnInterval(q, t), name, active) == SetOwnInterval(Rewrite(env, q, name, active), t)
    ensures LeastUsed(env, SetOwnInterval(q, t), name, active) == LeastUsed(env, q, name, active)
    decreases q
  {
    match q
    case End =>
    case Char(c, rest) => SetOwnCommutes(env, rest, t, NameAfter(name, c), active);
    case Literal(_, rest) => SetOwnCommutes(env, rest, t, "", active);
    case Range(_, rest) =>
    case Parens(_, rest) => SetOwnCommutes(env, rest, t, "", active);
  }

  /** Rewriting for one set of functions and then for another is rewriting for both at once. */
  lemma {:induction false} RewriteTwice(env: Env, q: Query, name: string, a: set<IntervalFn>,
                                        b: set<IntervalFn>, used: bool)
    requires a !! b && Steady(env, q, name, a + b, used)
    ensures Rewrite(env, Rewrite(env, q, name, a), name, b) == Rewrite(env, q, name, a + b)
    ensures used ==> MinPositive(LeastUsed(env, q, name, a), LeastUsed(env, Rewrite(env, q, name, a), name, b))
                     == LeastUsed(env, q, name, a + b)
    decreases q
  {
    match q
    case End =>
    case Char(c, rest) => RewriteTwice(env, rest, NameAfter(name, c), a, b, used);
    case Literal(_, rest) => RewriteTwice(env, rest, "", a, b, used);
    case Range(_, rest) => RewriteTwice(env, rest, "", a, b, used);
    case Parens(inner, rest) =>
      hide Rewrite, LeastUsed, SteadyRequest;
      RewriteTwice(env, rest, "", a, b, used);
      var f := ClaimedBy(name);
      if f.Some? && f.value in a {
        assert a - {f.value} + b == a + b - {f.value};
        RewriteTwice(env, inner, "", a - {f.value}, b, used);
        FirstThenOthers(env, f.value, q, name, a, b, used);
      } else if f.Some? && f.value in b {
        assert a + (b - {f.value}) == a + b - {f.value};
        RewriteTwice(env, inner, "", a, b - {f.value}, used);
        OthersThenFirst(env, f.value, q, name, a, b, used);
      } else {
        assert f.Some? ==> a + b - {f.value} == a + b;
        RewriteTwice(env, inner, "", a, b, used);
        NeitherTwice(env, q, name, a, b, used);
      }
  }

  lemma NeitherTwice(env: Env, q: Query, name: string, a: set<IntervalFn>, b: set<IntervalFn>, used: bool)
    requires q.Parens? && (ClaimedBy(name).Some? ==> ClaimedBy(name).value !in a + b)
    requires TwiceIsOnce(env, q.inner, a, b, a + b, used) && TwiceIsOnce(env, q.rest, a, b, a + b, used)
    ensures Rewrite(env, Rewrite(env, q, name, a), name, b) == Rewrite(env, q, name, a + b)
    ensures used ==> MinPositive(LeastUsed(env, q, name, a), LeastUsed(env, Rewrite(env, q, name, a), name, b))
                     == LeastUsed(env, q, name, a + b)
  {
  }

  /** The induction hypothesis of `RewriteTwice` for a part that follows no name. */
  ghost predicate TwiceIsOnce(env: Env, q: Query, a: set<IntervalFn>, b: set<IntervalFn>, all: set<IntervalFn>, used: bool) {
    var q' := Rewrite(env, q, "", a);
    && Rewrite(env, q', "", b) == Rewrite(env, q, "", all)
    && (used ==> MinPositive(LeastUsed(env, q, "", a), LeastUsed(env, q', "", b)) == LeastUsed(env, q, "", all))
  }

  lemma FirstThenOthers(env: Env, f: IntervalFn, q: Query, name: string, a: set<IntervalFn>, b: set<IntervalFn>, used: bool)
    requires q.Parens? && ClaimedBy(name) == Some(f) && f in a && a !! b
    requires TwiceIsOnce(env, q.inner, a - {f}, b, a + b - {f}, used) && TwiceIsOnce(env, q.rest, a, b, a + b, used)
    ensures Rewrite(env, Rewrite(env, q, name, a), name, b) == Rewrite(env, q, name, a + b)
    ensures used ==> MinPositive(LeastUsed(env, q, name, a), LeastUsed(env, Rewrite(env, q, name, a), name, b))
                     == LeastUsed(env, q, name, a + b)
  {
    hide NewInterval, Used, Rewrite, LeastUsed;
    assert f !in b;
    var inner', rest' := Rewrite(env, q.inner, "", a - {f}), Rewrite(env, q.rest, "", a);
    var changed := NewInterval(env, f, q.inner);
    if changed.Some? {
      SetOwnCommutes(env, inner', changed.value, "", b);
    }
    RewriteOfClaimed(env, f, q, name, a);
    RewriteOfOthers(env, f, Parens(WithOwn(inner', changed), rest'), name, b);
    RewriteOfClaimed(env, f, q, name, a + b);
  }

  /** One step of the rewrite of a call. */
  lemma RewriteOfClaimed(env: Env, f: IntervalFn, q: Query, name: string, active: set<IntervalFn>)
    requires q.Parens? && ClaimedBy(name) == Some(f) && f in active
    ensures Rewrite(env, q, name, active)
         == Parens(WithOwn(Rewrite(env, q.inner, "", active - {f}), NewInterval(env, f, q.inner)), Rewrite(env, q.rest, "", active))
    ensures LeastUsed(env, q, name, active)
         == MinPositive(MinPositive(LeastUsed(env, q.rest, "", active), LeastUsed(env, q.inner, "", active - {f})), Used(env, f, q.inner))
  {
  }

  lemma RewriteOfOthers(env: Env, f: IntervalFn, q: Query, name: string, active: set<IntervalFn>)
    requires q.Parens? && ClaimedBy(name) == Some(f) && f !in active
    ensures Rewrite(env, q, name, active) == Parens(Rewrite(env, q.inner, "", active), Rewrite(env, q.rest, "", active))
    ensures LeastUsed(env, q, name, active)
         == MinPositive(LeastUsed(env, q.rest, "", active), LeastUsed(env, q.inner, "", active))
  {
  }

  lemma OthersThenFirst(env: Env, f: IntervalFn, q: Query, name: string, a: set<IntervalFn>, b: set<IntervalFn>, used: bool)
    requires q.Parens? && ClaimedBy(name) == Some(f) && f in b && a !! b
    requires SameRequest(env, f, q.inner, Rewrite(env, q.inner, "", a), used)
    requires TwiceIsOnce(env, q.inner, a, b - {f}, a + b - {f}, used) && TwiceIsOnce(env, q.rest, a, b, a + b, used)
    ensures Rewrite(env, Rewrite(env, q, name, a), name, b) == Rewrite(env, q, name, a + b)
    ensures used ==> MinPositive(LeastUsed(env, q, name, a), LeastUsed(env, Rewrite(env, q, name, a), name, b))
                     == LeastUsed(env, q, name, a + b)
  {
    hide NewInterval, Used, Rewrite, LeastUsed;
    assert f !in a;
    RewriteOfOthers(env, f, q, name, a);
    RewriteOfClaimed(env, f, Rewrite(env, q, name, a), name, b);
    RewriteOfClaimed(env, f, q, name, a + b);
  }

  lemma {:induction false} SteadyForFewer(env: Env, q: Query, name: string, active: set<IntervalFn>,
                                          fewer: set<IntervalFn>, used: bool)
    requires fewer <= active && Steady(env, q, name, active, used)
    ensures Steady(env, q, name, fewer, used)
    decreases q
  {
    match q
    case End =>
    case Char(c, rest) => SteadyForFewer(env, rest, NameAfter(name, c), active, fewer, used);
    case Literal(_, rest) => SteadyForFewer(env, rest, "", active, fewer, used);
    case Range(_, rest) => SteadyForFewer(env, rest, "", active, fewer, used);
    case Parens(inner, rest) =>
      SteadyForFewer(env, rest, "", active, fewer, used);
      var f := ClaimedBy(name);
      if f.Some? {
        SteadyForFewer(env, inner, "", active - {f.value}, fewer - {f.value}, used);
      } else {
        SteadyForFewer(env, inner, "", active, fewer, used);
      }
  }

  /** Setting a query's own interval leaves its calls alone. */
  lemma {:induction false} SetOwnSteady(env: Env, q: Query, t: string, name: string, active: set<IntervalFn>, used: bool)
    ensures Steady(env, SetOwnInterval(q, t), name, active, used) == Steady(env, q, name, active, used)
    decreases q
  {
    match q
    case End =>
    case Char(c, rest) => SetOwnSteady(env, rest, t, NameAfter(name, c), active, used);
    case Literal(_, rest) => SetOwnSteady(env, rest, t, "", active, used);
    case Range(_, rest) =>
    case Parens(_, rest) => SetOwnSteady(env, rest, t, "", active, used);
  }

  /** A rewrite for some functions leaves the calls of the others steady. */
  lemma {:induction false} RewriteStaysSteady(env: Env, q: Query, name: string, a: set<IntervalFn>,
                                              b: set<IntervalFn>, used: bool)
    requires a !! b && Steady(env, q, name, a + b, used)
    ensures Steady(env, Rewrite(env, q, name, a), name, b, used)
    decreases q
  {
    match q
    case End =>
    case Char(c, rest) => RewriteStaysSteady(env, rest, NameAfter(name, c), a, b, used);
    case Literal(_, rest) => RewriteStaysSteady(env, rest, "", a, b, used);
    case Range(_, rest) => RewriteStaysSteady(env, rest, "", a, b, used);
    case Parens(inner, rest) =>
      hide SteadyRequest, Rewrite;
      RewriteStaysSteady(env, rest, "", a, b, used);
      var f := ClaimedBy(name);
      if f.Some? && f.value in a {
        assert a - {f.value} + b == a + b - {f.value} && b - {f.value} == b;
        RewriteStaysSteady(env, inner, "", a - {f.value}, b, used);
        RewriteOfClaimed(env, f.value, q, name, a);
        var changed := NewInterval(env, f.value, inner);
        if changed.Some? {
          SetOwnSteady(env, Rewrite(env, inner, "", a - {f.value}), changed.value, "", b, used);
        }
      } else if f.Some? {
        assert a + (b - {f.value}) == a + b - {f.value};
        RewriteStaysSteady(env, inner, "", a, b - {f.value}, used);
        RewriteOfOthers(env, f.value, q, name, a);
        if f.value in b {
          RequestStaysSteady(env, f.value, inner, a, b - {f.value}, used);
        }
      } else {
        RewriteStaysSteady(env, inner, "", a, b, used);
        RewriteUnclaimed(env, q, name, a);
      }
  }

  lemma RewriteUnclaimed(env: Env, q: Query, name: string, active: set<IntervalFn>)
    requires q.Parens? && ClaimedBy(name) == None
    ensures Rewrite(env, q, name, active) == Parens(Rewrite(env, q.inner, "", active), Rewrite(env, q.rest, "", active))
  {
  }

  lemma RequestStaysSteady(env: Env, f: IntervalFn, inner: Query, a: set<IntervalFn>, b: set<IntervalFn>, used: bool)
    requires a !! b && Steady(env, inner, "", a + b, used) && SteadyRequest(env, f, inner, a + b, used)
    ensures SteadyRequest(env, f, Rewrite(env, inner, "", a), b, used)
  {
    hide Rewrite, Steady, NewInterval, Used;
    var inner' := Rewrite(env, inner, "", a);
    forall s | s <= b ensures SameRequest(env, f, inner', Rewrite(env, inner', "", s), used) {
      SteadyForFewer(env, inner, "", a + b, a + s, used);
      RewriteTwice(env, inner, "", a, s, used);
      assert a + s <= a + b && a <= a + b;
    }
  }

  // ---------- the eleven passes ----------

  lemma {:induction false} RewriteWellFormed(env: Env, q: Query, name: string, active: set<IntervalFn>)
    requires WellFormed(q)
    ensures WellFormed(Rewrite(env, q, name, active))
    decreases q
  {
    match q
    case End =>
    case Char(c, rest) => RewriteWellFormed(env, rest, NameAfter(name, c), active);
    case Literal(_, rest) => RewriteWellFormed(env, rest, "", active);
    case Range(_, rest) => RewriteWellFormed(env, rest, "", active);
    case Parens(inner, rest) =>
      RewriteWellFormed(env, rest, "", active);
      var f := ClaimedBy(name);
      if f.Some? && f.value in active {
        RewriteWellFormed(env, inner, "", active - {f.value});
        var changed := NewInterval(env, f.value, inner);
        if changed.Some? {
          SetOwnWellFormed(Rewrite(env, inner, "", active - {f.value}), changed.value);
        }
      } else {
        RewriteWellFormed(env, inner, "", active);
      }
  }

  lemma {:induction false} SetOwnWellFormed(q: Query, t: string)
    requires WellFormed(q) && Inert(t)
    ensures WellFormed(SetOwnInterval(q, t))
  {
    if q.Char? || q.Literal? || q.Parens? {
      SetOwnWellFormed(q.rest, t);
    }
  }

  /** One pass over the text of a whole tree. */
  lemma PassOnTree(env: Env, f: IntervalFn, q: Query)
    requires WellFormed(q)
    ensures Rest(env, f, Print(q), 0) == Print(Rewrite(env, q, "", {f}))
    ensures Least(env, f, Print(q), 0) == LeastUsed(env, q, "", {f})
  {
    var s := Print(q);
    HoldsSelf(s);
    PassOnQuery(env, f, s, 0, q);
    PassEnds(env, f, s);
    assert NameAt(s, 0) == "";
    hide Rest, Least, Rewrite, LeastUsed, Print;
  }

  function Functions(fs: seq<IntervalFn>): set<IntervalFn> {
    set f | f in fs
  }

  /** Passes in any order, each function once, are the simultaneous rewrite for all of them. */
  lemma {:induction false} PassesOnTree(env: Env, q: Query, fs: seq<IntervalFn>, used: bool)
    requires WellFormed(q) && Distinct(fs) && Steady(env, q, "", Functions(fs), used)
    ensures var result := AdjustAll(env, Print(q), fs);
            && result.0 == Print(Rewrite(env, q, "", Functions(fs)))
            && (used ==> result.1 == LeastUsed(env, q, "", Functions(fs)))
    decreases fs
  {
    hide Rest, Least, Rewrite, LeastUsed, Print, WellFormed, Steady;
    if fs == [] {
      assert Functions(fs) == {};
      RewriteNone(env, q, "");
    } else {
      var f, fs' := fs[0], fs[1..];
      var q' := Rewrite(env, q, "", {f});
      var others := Functions(fs');
      assert {f} + others == Functions(fs);
      PassOnTree(env, f, q);
      RewriteWellFormed(env, q, "", {f});
      RewriteStaysSteady(env, q, "", {f}, others, used);
      PassesOnTree(env, q', fs', used);
      RewriteTwice(env, q, "", {f}, others, used);
    }
  }

  /** The rewriter as a whole, with the passes in the order the source lists them. */
  lemma AllPassesOnTree(env: Env, q: Query)
    requires WellFormed(q) && Steady(env, q, "", Functions(ALL_FUNCTIONS), true)
    ensures forall f: IntervalFn :: f in Functions(ALL_FUNCTIONS)
    ensures var all := Functions(ALL_FUNCTIONS);
            AdjustAll(env, Print(q), ALL_FUNCTIONS) == (Print(Rewrite(env, q, "", all)), LeastUsed(env, q, "", all))
  {
    hide AdjustAll, Rewrite, LeastUsed, WellFormed, Steady, Print;
    forall f: IntervalFn ensures f in ALL_FUNCTIONS {
      AllListed(f);
    }
    PassesOnTree(env, q, ALL_FUNCTIONS, true);
  }

  lemma AllListed(f: IntervalFn)
    ensures f in ALL_FUNCTIONS
  {
    var i := match f case Rate => 0 case Irate => 1 case Increase => 2 case Changes => 3 case OverTime => 4
      case Delta => 5 case Idelta => 6 case Deriv => 7 case PredictLinear => 8 case HoltWinters => 9 case Resets => 10;
    assert ALL_FUNCTIONS[i] == f;
  }
}
