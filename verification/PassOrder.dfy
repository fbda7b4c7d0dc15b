/** When the order of the passes does not matter (internal/common/prometheus.go:513-540): exactly when no
    call depends on which of the calls inside it have been adjusted already. */
module PassOrder {
  import opened Text
  import opened Duration
  import opened Scanner
  import opened Rewriter
  import opened QueryTree
  import opened TreePasses

  predicate IsOrder(fs: seq<IntervalFn>, active: set<IntervalFn>) {
    Distinct(fs) && Functions(fs) == active
  }

  /** The order does not matter to the query and to the least interval, if also the scrape intervals that
      calls use are steady. */
  lemma PassOrderIrrelevant(env: Env, q: Query, fs: seq<IntervalFn>, gs: seq<IntervalFn>)
    requires WellFormed(q) && IsOrder(fs, Functions(gs)) && Distinct(gs)
    requires Steady(env, q, "", Functions(fs), true)
    ensures AdjustAll(env, Print(q), fs) == AdjustAll(env, Print(q), gs)
  {
    hide Steady, WellFormed, AdjustAll, Rewrite, LeastUsed, Print;
    PassesOnTree(env, q, fs, true);
    PassesOnTree(env, q, gs, true);
  }

  // ---------- passes on trees ----------

  /** Passes one after the other; `name` is the run of name characters before the tree. */
  ghost function Run(env: Env, q: Query, name: string, fs: seq<IntervalFn>): Query
    decreases |fs|
  {
    if fs == [] then q else Run(env, Rewrite(env, q, name, {fs[0]}), name, fs[1..])
  }

  lemma {:induction false} RunOnText(env: Env, q: Query, fs: seq<IntervalFn>)
    requires WellFormed(q)
    ensures AdjustAll(env, Print(q), fs).0 == Print(Run(env, q, "", fs)) && WellFormed(Run(env, q, "", fs))
    decreases |fs|
  {
    hide Rest, Least, Rewrite, Print, WellFormed;
    if fs == [] {
    } else {
      PassOnTree(env, fs[0], q);
      RewriteWellFormed(env, q, "", {fs[0]});
      RunOnText(env, Rewrite(env, q, "", {fs[0]}), fs[1..]);
    }
  }

  lemma {:induction false} RunThen(env: Env, q: Query, name: string, fs: seq<IntervalFn>, gs: seq<IntervalFn>)
    ensures Run(env, q, name, fs + gs) == Run(env, Run(env, q, name, fs), name, gs)
    decreases |fs|
  {
    hide Rewrite;
    if fs == [] {
      assert fs + gs == gs;
    } else {
      assert (fs + gs)[1..] == fs[1..] + gs;
      RunThen(env, Rewrite(env, q, name, {fs[0]}), name, fs[1..], gs);
    }
  }

  /** On steady trees passes are the simultaneous rewrite. */
  lemma {:induction false} RunIsRewrite(env: Env, q: Query, name: string, fs: seq<IntervalFn>)
    requires Distinct(fs) && Steady(env, q, name, Functions(fs), false)
    ensures Run(env, q, name, fs) == Rewrite(env, q, name, Functions(fs))
    decreases |fs|
  {
    hide Rewrite, Steady;
    if fs == [] {
      assert Functions(fs) == {};
      RewriteNone(env, q, name);
    } else {
      var others := Functions(fs[1..]);
      assert {fs[0]} + others == Functions(fs);
      RewriteStaysSteady(env, q, name, {fs[0]}, others, false);
      RunIsRewrite(env, Rewrite(env, q, name, {fs[0]}), name, fs[1..]);
      RewriteTwice(env, q, name, {fs[0]}, others, false);
    }
  }

  // ---------- passes on the parts of a tree ----------

  /** What passes make of a tree that is no parenthesis: the same of what follows its first part. */
  lemma {:induction false} RunBehind(env: Env, q: Query, name: string, fs: seq<IntervalFn>)
    requires q.Char? || q.Literal? || q.Range?
    ensures var q' := Run(env, q, name, fs);
            match q
            case Char(c, rest) => q' == Char(c, Run(env, rest, NameAfter(name, c), fs))
            case Literal(body, rest) => q' == Literal(body, Run(env, rest, "", fs))
            case Range(interval, rest) => q' == Range(interval, Run(env, rest, "", fs))
            case End => true
            case Parens(_, _) => true
    decreases |fs|
  {
    if fs == [] {
    } else {
      RunBehind(env, Rewrite(env, q, name, {fs[0]}), name, fs[1..]);
    }
  }

  lemma {:induction false} RunParens(env: Env, q: Query, name: string, fs: seq<IntervalFn>)
    requires q.Parens?
    ensures var q' := Run(env, q, name, fs); q'.Parens? && q'.rest == Run(env, q.rest, "", fs)
    decreases |fs|
  {
    if fs == [] {
    } else {
      var q1 := Rewrite(env, q, name, {fs[0]});
      assert q1.Parens? && q1.rest == Rewrite(env, q.rest, "", {fs[0]});
      RunParens(env, q1, name, fs[1..]);
    }
  }

  /** A parenthesis that none of the functions claims. */
  lemma {:induction false} RunInside(env: Env, q: Query, name: string, fs: seq<IntervalFn>)
    requires q.Parens? && (ClaimedBy(name).Some? ==> ClaimedBy(name).value !in fs)
    ensures var q' := Run(env, q, name, fs); q'.Parens? && q'.inner == Run(env, q.inner, "", fs)
    decreases |fs|
  {
    if fs == [] {
    } else {
      var q1 := Rewrite(env, q, name, {fs[0]});
      assert q1.Parens? && q1.inner == Rewrite(env, q.inner, "", {fs[0]});
      RunInside(env, q1, name, fs[1..]);
    }
  }

  lemma {:induction false} RunWithOwn(env: Env, q: Query, t: Option<string>, name: string, fs: seq<IntervalFn>)
    ensures Run(env, WithOwn(q, t), name, fs) == WithOwn(Run(env, q, name, fs), t)
    ensures OwnInterval(Run(env, q, name, fs)) == OwnInterval(q)
    decreases |fs|
  {
    hide Rewrite;
    if fs == [] {
    } else {
      RewriteKeepsStart(env, q, name, {fs[0]});
      if t.Some? {
        SetOwnCommutes(env, q, t.value, name, {fs[0]});
      }
      RunWithOwn(env, Rewrite(env, q, name, {fs[0]}), t, name, fs[1..]);
    }
  }

  /** The pass of the function that claims a call sets the call's own interval and nothing inside. */
  lemma PassOnClaimed(env: Env, q: Query, name: string, f: IntervalFn)
    requires q.Parens? && ClaimedBy(name) == Some(f)
    ensures var q' := Rewrite(env, q, name, {f}); q'.Parens? && q'.inner == WithOwn(q.inner, NewInterval(env, f, q.inner))
  {
    hide NewInterval;
    RewriteOfClaimed(env, f, q, name, {f});
    assert {f} - {f} == {};
    RewriteNone(env, q.inner, "");
  }

  /** A call whose function passes in between. */
  lemma RunOnCall(env: Env, q: Query, name: string, f: IntervalFn, before: seq<IntervalFn>, after: seq<IntervalFn>)
    requires q.Parens? && ClaimedBy(name) == Some(f) && f !in before && f !in after
    ensures var q' := Run(env, q, name, before + ([f] + after));
            var inner := Run(env, q.inner, "", before);
            q'.Parens? && q'.inner == WithOwn(Run(env, inner, "", after), NewInterval(env, f, inner))
  {
    hide Rewrite, NewInterval;
    var q1 := Run(env, q, name, before);
    RunThen(env, q, name, before, [f] + after);
    RunInside(env, q, name, before);
    PassOnClaimed(env, q1, name, f);
    assert ([f] + after)[1..] == after;
    RunInside(env, Rewrite(env, q1, name, {f}), name, after);
    RunWithOwn(env, q1.inner, NewInterval(env, f, q1.inner), "", after);
  }

  // ---------- unsteady calls show ----------

  /** The functions of a set, in the order the source lists them. */
  function Listed(fs: seq<IntervalFn>, active: set<IntervalFn>): seq<IntervalFn> {
    if fs == [] then []
    else (if fs[0] in active then [fs[0]] else []) + Listed(fs[1..], active)
  }

  lemma {:induction false} ListedHolds(fs: seq<IntervalFn>, active: set<IntervalFn>)
    requires Distinct(fs)
    ensures Distinct(Listed(fs, active))
    ensures forall f :: f in Listed(fs, active) <==> f in fs && f in active
  {
    if fs == [] {
    } else {
      ListedHolds(fs[1..], active);
    }
  }

  /** Some order of the functions. */
  function SomeOrder(active: set<IntervalFn>): (fs: seq<IntervalFn>)
    ensures IsOrder(fs, active)
  {
    AllAreListed();
    ListedHolds(ALL_FUNCTIONS, active);
    assert Functions(Listed(ALL_FUNCTIONS, active)) == active;
    Listed(ALL_FUNCTIONS, active)
  }

  lemma AllAreListed()
    ensures Distinct(ALL_FUNCTIONS) && forall f: IntervalFn :: f in ALL_FUNCTIONS
  {
    forall f: IntervalFn ensures f in ALL_FUNCTIONS {
      AllListed(f);
    }
  }

  /** Whether an interval is replaced does not depend on the scrape interval. */
  lemma ReplacedAlike(env: Env, f: IntervalFn, body: Query, other: Query)
    requires OwnInterval(body) == OwnInterval(other)
    ensures NewInterval(env, f, body).Some? == NewInterval(env, f, other).Some?
  {
    hide Metric, ScrapeInterval, ParseInt64, Trim, IndexFrom, Show;
  }

  lemma DifferentOwn(q: Query, p: Query, t: Option<string>, u: Option<string>)
    requires OwnInterval(q) == OwnInterval(p) && t.Some? == u.Some?
    requires (t != u && (t.Some? ==> OwnInterval(q).Some?)) || (t == u && q != p)
    ensures WithOwn(q, t) != WithOwn(p, u)
  {
    if t == u {
      if t.Some? && WithOwn(q, t) == WithOwn(p, u) {
        SetOwnBack(q, t.value);
        SetOwnBack(p, t.value);
      }
    } else {
      AroundSetOwn(q, t.value);
      AroundSetOwn(p, u.value);
    }
  }

  lemma {:induction false} SetOwnBack(q: Query, t: string)
    ensures OwnInterval(q).None? ==> SetOwnInterval(q, t) == q
    ensures OwnInterval(q).Some? ==> SetOwnInterval(SetOwnInterval(q, t), OwnInterval(q).value) == q
  {
    if q.Char? || q.Literal? || q.Parens? {
      SetOwnBack(q.rest, t);
    }
  }

  /** Two orders that tell an unsteady tree apart. */
  lemma {:induction false} UnsteadyShows(env: Env, q: Query, name: string, active: set<IntervalFn>)
    returns (gs: seq<IntervalFn>, hs: seq<IntervalFn>)
    requires !Steady(env, q, name, active, false)
    ensures IsOrder(gs, active) && IsOrder(hs, active)
    ensures Run(env, q, name, gs) != Run(env, q, name, hs)
    decreases q
  {
    hide Run, SteadyRequest;
    match q
    case End =>
      assert false;
      gs, hs := [], [];
    case Char(c, rest) =>
      gs, hs := UnsteadyShows(env, rest, NameAfter(name, c), active);
      RunBehind(env, q, name, gs);
      RunBehind(env, q, name, hs);
    case Literal(_, rest) =>
      gs, hs := UnsteadyShows(env, rest, "", active);
      RunBehind(env, q, name, gs);
      RunBehind(env, q, name, hs);
    case Range(_, rest) =>
      gs, hs := UnsteadyShows(env, rest, "", active);
      RunBehind(env, q, name, gs);
      RunBehind(env, q, name, hs);
    case Parens(inner, rest) =>
      if !Steady(env, rest, "", active, false) {
        gs, hs := UnsteadyShows(env, rest, "", active);
        RunParens(env, q, name, gs);
        RunParens(env, q, name, hs);
      } else if ClaimedBy(name).Some? && ClaimedBy(name).value in active {
        var f := ClaimedBy(name).value;
        if Steady(env, inner, "", active - {f}, false) {
          gs, hs := RequestShows(env, q, name, f, active);
        } else {
          var gs', hs' := UnsteadyShows(env, inner, "", active - {f});
          gs, hs := InnerShows(env, q, name, f, active, gs', hs');
        }
      } else {
        assert ClaimedBy(name).Some? ==> active - {ClaimedBy(name).value} == active;
        gs, hs := UnsteadyShows(env, inner, "", active);
        RunInside(env, q, name, gs);
        RunInside(env, q, name, hs);
      }
  }

  lemma InnerShows(env: Env, q: Query, name: string, f: IntervalFn, active: set<IntervalFn>,
                   gs': seq<IntervalFn>, hs': seq<IntervalFn>)
    returns (gs: seq<IntervalFn>, hs: seq<IntervalFn>)
    requires q.Parens? && ClaimedBy(name) == Some(f) && f in active
    requires IsOrder(gs', active - {f}) && IsOrder(hs', active - {f})
    requires Run(env, q.inner, "", gs') != Run(env, q.inner, "", hs')
    ensures IsOrder(gs, active) && IsOrder(hs, active)
    ensures Run(env, q, name, gs) != Run(env, q, name, hs)
  {
    hide Run, NewInterval;
    gs, hs := FirstInOrder(f, active, gs'), FirstInOrder(f, active, hs');
    RunOnCall(env, q, name, f, [], gs');
    RunOnCall(env, q, name, f, [], hs');
    assert [] + ([f] + gs') == gs && [] + ([f] + hs') == hs;
    RunNothing(env, q.inner);
    RunWithOwn(env, q.inner, None, "", gs');
    RunWithOwn(env, q.inner, None, "", hs');
    DifferentOwn(Run(env, q.inner, "", gs'), Run(env, q.inner, "", hs'), NewInterval(env, f, q.inner), NewInterval(env, f, q.inner));
  }

  lemma RunNothing(env: Env, q: Query)
    ensures Run(env, q, "", []) == q
  {
  }

  function FirstInOrder(f: IntervalFn, active: set<IntervalFn>, fs: seq<IntervalFn>): (r: seq<IntervalFn>)
    requires f in active && IsOrder(fs, active - {f})
    ensures IsOrder(r, active) && r == [f] + fs && f !in fs
  {
    assert f !in Functions(fs);
    assert Functions([f] + fs) == {f} + Functions(fs);
    [f] + fs
  }

  /** The functions of `some`, then `f`, then the others. */
  function OrderAround(f: IntervalFn, active: set<IntervalFn>, some: set<IntervalFn>): (r: seq<IntervalFn>)
    requires f in active && some <= active - {f}
    ensures IsOrder(r, active) && r == SomeOrder(some) + ([f] + SomeOrder(active - {f} - some))
  {
    var before, after := SomeOrder(some), SomeOrder(active - {f} - some);
    JoinedOrder(before, some, f, after, active - {f} - some);
    assert some + {f} + (active - {f} - some) == active;
    before + ([f] + after)
  }

  lemma JoinedOrder(before: seq<IntervalFn>, some: set<IntervalFn>, f: IntervalFn, after: seq<IntervalFn>, others: set<IntervalFn>)
    requires IsOrder(before, some) && IsOrder(after, others) && some !! others && f !in some + others
    ensures IsOrder(before + ([f] + after), some + {f} + others)
  {
    assert forall g :: (g in before <==> g in some) && (g in after <==> g in others) by {
      assert forall g :: (g in before <==> g in Functions(before)) && (g in after <==> g in Functions(after));
    }
    var r := before + ([f] + after);
    forall i, j | 0 <= i < j < |r| ensures r[i] != r[j] {
      assert i < |before| ==> r[i] in before;
      assert j > |before| ==> r[j] in after;
    }
  }

  lemma RequestShows(env: Env, q: Query, name: string, f: IntervalFn, active: set<IntervalFn>)
    returns (gs: seq<IntervalFn>, hs: seq<IntervalFn>)
    requires q.Parens? && ClaimedBy(name) == Some(f) && f in active
    requires Steady(env, q.inner, "", active - {f}, false) && !SteadyRequest(env, f, q.inner, active - {f}, false)
    ensures IsOrder(gs, active) && IsOrder(hs, active)
    ensures Run(env, q, name, gs) != Run(env, q, name, hs)
  {
    hide Run, NewInterval, Steady, Rewrite, SomeOrder;
    var s :| s <= active - {f} && !SameRequest(env, f, q.inner, Rewrite(env, q.inner, "", s), false);
    gs, hs := OrderAround(f, active, {}), OrderAround(f, active, s);
    RunAround(env, q, name, f, active, {});
    RunAround(env, q, name, f, active, s);
    RewriteNone(env, q.inner, "");
    var inner := Rewrite(env, q.inner, "", s);
    RewriteKeepsStart(env, q.inner, "", s);
    ReplacedAlike(env, f, q.inner, inner);
    var p1 := Run(env, q.inner, "", SomeOrder(active - {f} - {}));
    var p2 := Run(env, inner, "", SomeOrder(active - {f} - s));
    RunWithOwn(env, q.inner, None, "", SomeOrder(active - {f} - {}));
    RunWithOwn(env, inner, None, "", SomeOrder(active - {f} - s));
    DifferentOwn(p1, p2, NewInterval(env, f, q.inner), NewInterval(env, f, inner));
  }

  lemma RunAround(env: Env, q: Query, name: string, f: IntervalFn, active: set<IntervalFn>, s: set<IntervalFn>)
    requires q.Parens? && ClaimedBy(name) == Some(f) && f in active && s <= active - {f}
    requires Steady(env, q.inner, "", active - {f}, false)
    ensures var inner := Rewrite(env, q.inner, "", s);
            var q' := Run(env, q, name, OrderAround(f, active, s));
            q'.Parens? && q'.inner == WithOwn(Run(env, inner, "", SomeOrder(active - {f} - s)), NewInterval(env, f, inner))
  {
    hide Run, NewInterval, Steady, Rewrite, SomeOrder;
    var before, after := SomeOrder(s), SomeOrder(active - {f} - s);
    assert f !in Functions(before) && f !in Functions(after);
    RunOnCall(env, q, name, f, before, after);
    SteadyForFewer(env, q.inner, "", active - {f}, s, false);
    RunIsRewrite(env, q.inner, "", before);
  }

  // ---------- texts tell trees apart ----------

  lemma PrintHead(q: Query)
    requires WellFormed(q)
    ensures q.End? <==> Print(q) == ""
    ensures q.Char? <==> Print(q) != "" && InertChar(Print(q)[0])
    ensures q.Literal? <==> Print(q) != "" && Print(q)[0] == '"'
    ensures q.Parens? <==> Print(q) != "" && Print(q)[0] == '('
    ensures q.Range? <==> Print(q) != "" && Print(q)[0] == '['
  {
  }

  /** No two well-formed queries have the same text. */
  lemma {:induction false} PrintInjective(q: Query, p: Query)
    requires WellFormed(q) && WellFormed(p) && Print(q) == Print(p)
    ensures q == p
    decreases q
  {
    hide LiteralText, NoCallText, Inert;
    PrintHead(q);
    PrintHead(p);
    var s := Print(q);
    HoldsSelf(s);
    match q
    case End =>
    case Char(_, rest) =>
      AtChar(s, 0, q);
      AtChar(s, 0, p);
      PrintInjective(rest, p.rest);
    case Literal(body, rest) =>
      SameLiteral(s, q, p);
      PrintInjective(rest, p.rest);
    case Parens(inner, rest) =>
      SameParens(s, q, p);
      PrintInjective(inner, p.inner);
      PrintInjective(rest, p.rest);
    case Range(interval, rest) =>
      SameRange(s, q, p);
      PrintInjective(rest, p.rest);
  }

  lemma HoldsSame(s: string, a: nat, x: string, y: string)
    requires Holds(s, a, x) && Holds(s, a, y) && |x| == |y|
    ensures x == y
  {
  }

  lemma SameParens(s: string, q: Query, p: Query)
    requires q.Parens? && p.Parens? && WellFormed(q) && WellFormed(p) && s == Print(q) == Print(p)
    ensures Print(q.inner) == Print(p.inner) && Print(q.rest) == Print(p.rest)
  {
    HoldsSelf(s);
    AtParens(s, 0, q);
    AtParens(s, 0, p);
    hide Print;
    ClosesAtInner(s, q);
    ClosesAtInner(s, p);
    HoldsSame(s, 1, Print(q.inner), Print(p.inner));
    HoldsSame(s, |Print(q.inner)| + 2, Print(q.rest), Print(p.rest));
  }

  lemma ClosesAtInner(s: string, q: Query)
    requires q.Parens? && WellFormed(q) && s == Print(q)
    ensures Matching(s, 0) == 1 + |Print(q.inner)|
  {
    HoldsSelf(s);
    HoldsSplit(s, 0, "(" + Print(q.inner) + ")", Print(q.rest));
    MatchingOfParens(s, 0, q.inner);
  }

  lemma SameRange(s: string, q: Query, p: Query)
    requires q.Range? && p.Range? && WellFormed(q) && WellFormed(p) && s == Print(q) == Print(p)
    ensures q.interval == p.interval && Print(q.rest) == Print(p.rest)
  {
    HoldsSelf(s);
    AtRange(s, 0, q);
    AtRange(s, 0, p);
    hide Print;
    EndsAtBracket(s, q.interval);
    EndsAtBracket(s, p.interval);
    HoldsSame(s, 1, q.interval, p.interval);
    HoldsSame(s, |q.interval| + 2, Print(q.rest), Print(p.rest));
  }

  lemma EndsAtBracket(s: string, interval: string)
    requires Holds(s, 1, interval) && Inert(interval) && 1 + |interval| < |s| && s[1 + |interval|] == ']'
    ensures IndexFrom(s, ']', 1) == 1 + |interval|
  {
    forall k | 1 <= k < 1 + |interval| ensures s[k] != ']' {
      HoldsFrom(s, 1, interval, k - 1);
    }
    IndexOfEnd(s, ']', 1, 1 + |interval|);
  }

  lemma SameLiteral(s: string, q: Query, p: Query)
    requires q.Literal? && p.Literal? && WellFormed(q) && WellFormed(p) && s == Print(q) == Print(p)
    ensures q.body == p.body && Print(q.rest) == Print(p.rest)
  {
    HoldsSelf(s);
    AtLiteral(s, 0, q);
    AtLiteral(s, 0, p);
    hide Print;
    ShorterLiteral(s, q.body, p.body);
    ShorterLiteral(s, p.body, q.body);
    HoldsSame(s, 1, q.body, p.body);
    HoldsSame(s, |q.body| + 2, Print(q.rest), Print(p.rest));
  }

  /** A literal ends at its first unescaped quote. */
  lemma ShorterLiteral(s: string, body: string, other: string)
    requires s != "" && s[0] == '"' && Holds(s, 1, body) && Holds(s, 1, other) && LiteralText(body) && LiteralText(other)
    requires 1 + |body| < |s| && s[1 + |body|] == '"'
    ensures |body| >= |other|
  {
    assert ModeAt(s, 0, 1) == Quoted;
    ScanLiteral(s, 0, 1, body);
    ScanLiteral(s, 0, 1, other);
    assert ModeAt(s, 0, 2 + |body|) == Code;
  }

  // ---------- the exact condition ----------

  /** All orders of the passes write the same query just when every call is steady: what it asks for does
      not depend on which inner calls have been adjusted. */
  lemma SameInEveryOrder(env: Env, q: Query, active: set<IntervalFn>)
    requires WellFormed(q)
    ensures (forall gs, hs :: IsOrder(gs, active) && IsOrder(hs, active) ==>
               AdjustAll(env, Print(q), gs).0 == AdjustAll(env, Print(q), hs).0)
            <==> Steady(env, q, "", active, false)
  {
    hide Steady, WellFormed, AdjustAll, Rewrite, Run, Print;
    if Steady(env, q, "", active, false) {
      forall gs, hs | IsOrder(gs, active) && IsOrder(hs, active)
        ensures AdjustAll(env, Print(q), gs).0 == AdjustAll(env, Print(q), hs).0
      {
        PassesOnTree(env, q, gs, false);
        PassesOnTree(env, q, hs, false);
      }
    } else {
      var gs, hs := UnsteadyShows(env, q, "", active);
      RunOnText(env, q, gs);
      RunOnText(env, q, hs);
      if Print(Run(env, q, "", gs)) == Print(Run(env, q, "", hs)) {
        PrintInjective(Run(env, q, "", gs), Run(env, q, "", hs));
      }
    }
  }
}
