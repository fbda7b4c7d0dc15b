/** Whatever the query, all passes together touch nothing outside brackets
    (internal/common/prometheus.go:527-577). */
module OutsideRanges {
  import opened Text
  import opened Duration
  import opened Scanner
  import opened Rewriter

  /** The text with everything between a `[` and the first `]` after it left out. */
  function Blanked(s: string): string
    decreases |s|
  {
    var j := IndexFrom(s, '[', 0);
    if j == -1 then s
    else
      var k := IndexFrom(s, ']', j);
      if k == -1 then s else s[..j] + ("[]" + Blanked(s[k + 1..]))
  }

  lemma BlankedStep(s: string)
    requires IndexFrom(s, '[', 0) != -1 && IndexFrom(s, ']', IndexFrom(s, '[', 0)) != -1
    ensures var j := IndexFrom(s, '[', 0);
            Blanked(s) == s[..j] + ("[]" + Blanked(s[IndexFrom(s, ']', j) + 1..]))
  {
    hide IndexFrom;
  }

  lemma BlankedAt(s: string, j: nat, k: nat)
    requires j < k < |s| && s[j] == '[' && s[k] == ']'
    requires forall i :: 0 <= i < j ==> s[i] != '['
    requires forall i :: j < i < k ==> s[i] != ']'
    ensures Blanked(s) == s[..j] + ("[]" + Blanked(s[k + 1..]))
  {
    hide Blanked, IndexFrom;
    IndexOfEnd(s, '[', 0, j);
    IndexOfEnd(s, ']', j, k);
    BlankedStep(s);
  }

  /** Replacing a fragment enclosed by brackets. */
  lemma {:induction false} BlankedEdit(s: string, lo: nat, hi: nat, text: string)
    requires 0 < lo <= hi < |s| && s[lo - 1] == '[' && s[hi] == ']' && ']' !in text
    requires forall k :: lo <= k < hi ==> s[k] != ']'
    ensures Blanked(s[..lo] + (text + s[hi..])) == Blanked(s)
    decreases |s|
  {
    hide Blanked;
    var j, k := FirstBrackets(s, lo - 1, hi);
    if k < lo {
      EditBehind(s, lo, hi, text, j, k);
      var rest := s[k + 1..];
      assert rest[lo - k - 2] == '[' && rest[hi - k - 1] == ']';
      BlankedEdit(rest, lo - k - 1, hi - k - 1, text);
    } else {
      EditWithin(s, lo, hi, text, j);
    }
  }

  /** An edit behind the first brackets. */
  lemma EditBehind(s: string, lo: nat, hi: nat, text: string, j: nat, k: nat)
    requires lo <= hi < |s| && j < k < lo && s[j] == '[' && s[k] == ']'
    requires forall i :: 0 <= i < j ==> s[i] != '['
    requires forall i :: j < i < k ==> s[i] != ']'
    ensures var rest := s[k + 1..];
            var rest' := rest[..lo - k - 1] + (text + rest[hi - k - 1..]);
            && Blanked(s) == s[..j] + ("[]" + Blanked(rest))
            && Blanked(s[..lo] + (text + s[hi..])) == s[..j] + ("[]" + Blanked(rest'))
  {
    hide Blanked;
    var s' := s[..lo] + (text + s[hi..]);
    EditedText(s, lo, hi, text);
    BlankedAt(s, j, k);
    BlankedAt(s', j, k);
    assert s[..j] == s'[..j];
    assert s[k + 1..][..lo - k - 1] + (text + s[k + 1..][hi - k - 1..]) == s'[k + 1..];
  }

  /** An edit within them. */
  lemma EditWithin(s: string, lo: nat, hi: nat, text: string, j: nat)
    requires j < lo <= hi < |s| && s[j] == '[' && s[hi] == ']' && ']' !in text
    requires forall i :: 0 <= i < j ==> s[i] != '['
    requires forall i :: j < i < hi ==> s[i] != ']'
    ensures Blanked(s[..lo] + (text + s[hi..])) == Blanked(s)
  {
    hide Blanked;
    var s' := s[..lo] + (text + s[hi..]);
    EditedText(s, lo, hi, text);
    BlankedAt(s, j, hi);
    BlankedAt(s', j, lo + |text|);
    assert s[..j] == s'[..j] && s[hi + 1..] == s'[lo + |text| + 1..];
  }

  lemma EditedText(s: string, lo: nat, hi: nat, text: string)
    requires lo <= hi < |s|
    ensures var s' := s[..lo] + (text + s[hi..]);
            && |s'| == lo + |text| + |s| - hi && s'[lo + |text|] == s[hi]
            && (forall i :: 0 <= i < lo ==> s'[i] == s[i]) && (forall i :: lo <= i < lo + |text| ==> s'[i] == text[i - lo])
  {
  }

  /** The first `[`, and the first `]` after it, which comes before `open` or is `close`. */
  lemma FirstBrackets(s: string, open: nat, close: nat) returns (j: nat, k: nat)
    requires open < close < |s| && s[open] == '[' && s[close] == ']'
    requires forall i :: open < i < close ==> s[i] != ']'
    ensures j <= open && j < k < |s| && s[j] == '[' && s[k] == ']'
    ensures forall i :: 0 <= i < j ==> s[i] != '['
    ensures forall i :: j < i < k ==> s[i] != ']'
    ensures k < open || k == close
  {
    assert s[0..][open] == '[';
    var a := IndexFrom(s, '[', 0);
    assert s[a..][close - a] == ']';
    j, k := a, IndexFrom(s, ']', a);
  }

  predicate Bracketless(edits: seq<Edit>) {
    forall n :: 0 <= n < |edits| ==> ']' !in edits[n].text
  }

  lemma SpliceStarts(query: string, from: nat, edits: seq<Edit>)
    requires Fragments(query, from, edits) && from < |query|
    ensures Splice(query, from, edits) != "" && Splice(query, from, edits)[0] == query[from]
  {
    if edits != [] {
      assert query[from..edits[0].lo][0] == query[from];
    }
  }

  lemma {:induction false} SpliceBlanked(query: string, from: nat, edits: seq<Edit>)
    requires Fragments(query, from, edits) && Bracketless(edits)
    ensures Blanked(query[..from] + Splice(query, from, edits)) == Blanked(query)
    decreases edits
  {
    if edits == [] {
      assert query[..from] + query[from..] == query;
    } else {
      var e, rest := edits[0], edits[1..];
      assert edits == [e] + rest;
      SpliceFirst(query, from, e, rest);
      FirstIsEnclosed(query, from, edits);
      assert Bracketless(rest) && ']' !in e.text;
      hide Splice, Fragments, Blanked;
      SpliceBlanked(query, e.hi, rest);
      SpliceStarts(query, e.hi, rest);
      EditInFront(query, from, e, Splice(query, e.hi, rest));
    }
  }

  /** An edit in front of a text that starts with the closing bracket. */
  lemma EditInFront(query: string, from: nat, e: Edit, behind: string)
    requires from < e.lo <= e.hi < |query| && query[e.lo - 1] == '[' && ']' !in e.text
    requires forall k :: e.lo <= k < e.hi ==> query[k] != ']'
    requires behind != "" && behind[0] == ']'
    ensures Blanked(query[..from] + (query[from..e.lo] + (e.text + behind))) == Blanked(query[..e.hi] + behind)
  {
    hide Blanked;
    var t := query[..e.hi] + behind;
    assert t[..e.lo] == query[..e.lo] && t[e.hi..] == behind;
    BlankedEdit(t, e.lo, e.hi, e.text);
    assert query[..from] + query[from..e.lo] == query[..e.lo];
    Assoc(query[..from], query[from..e.lo], e.text + behind);
  }

  lemma FirstIsEnclosed(query: string, from: nat, edits: seq<Edit>)
    requires edits != [] && Fragments(query, from, edits)
    ensures from < edits[0].lo <= edits[0].hi < |query| && query[edits[0].lo - 1] == '[' && query[edits[0].hi] == ']'
    ensures forall k :: edits[0].lo <= k < edits[0].hi ==> query[k] != ']'
  {
  }

  lemma AdjustedBracketless(env: Env, f: IntervalFn, scrapeInterval: int, interval: string)
    requires ']' !in interval
    ensures var r := AdjustedInterval(env, f, scrapeInterval, interval); r.Some? ==> ']' !in r.value
  {
    forall d: int ensures ']' !in Show(d) {
      InertHasNoBracket(Show(d));
    }
    hide Show, ScrapeMultiple, Trim, IndexFrom, Inert;
  }

  lemma InertHasNoBracket(s: string)
    requires Inert(s)
    ensures ']' !in s
  {
    forall i | 0 <= i < |s| ensures s[i] != ']' {
      assert InertChar(s[i]);
    }
  }

  lemma BodyEditBracketless(env: Env, f: IntervalFn, body: string)
    ensures var r := BodyEdit(env, f, body); r.Some? ==> ']' !in r.value.text
  {
    hide AdjustedInterval, ScrapeInterval, CallMetric;
    var j := FirstOpenRange(body, 0);
    if j != -1 {
      var k := IndexFrom(body, ']', j);
      assert body[j] == '[';
      AdjustedBracketless(env, f, ScrapeInterval(env, CallMetric(body[..j])), body[j + 1..k]);
    }
  }

  lemma {:induction false} EditsBracketless(env: Env, f: IntervalFn, query: string, i: nat)
    requires i <= |query|
    ensures Bracketless(Edits(env, f, query, i))
    decreases |query| - i
  {
    hide BodyEdit, CallAt;
    if i == |query| {
    } else if !CallAt(query, i, f) {
      EditsBracketless(env, f, query, i + 1);
    } else {
      var e := ClosingOfCall(query, i, f);
      EditsBracketless(env, f, query, e + 1);
      BodyEditBracketless(env, f, query[i + 1..e]);
    }
  }

  lemma ClosingOfCall(query: string, i: nat, f: IntervalFn) returns (e: nat)
    requires i < |query| && CallAt(query, i, f)
    ensures e == Matching(query, i) && i < e < |query|
  {
    e := Matching(query, i);
  }

  /** One pass leaves everything outside brackets as it is. */
  lemma PassKeepsOutside(env: Env, f: IntervalFn, query: string)
    ensures Blanked(Rest(env, f, query, 0)) == Blanked(query)
  {
    hide Edits, Splice, Blanked;
    EditsBracketless(env, f, query, 0);
    SpliceBlanked(query, 0, Edits(env, f, query, 0));
    assert query[..0] == "";
    assert "" + Splice(query, 0, Edits(env, f, query, 0)) == Splice(query, 0, Edits(env, f, query, 0));
  }

  /** And so do all of them, in any order. */
  lemma {:induction false} PassesKeepOutside(env: Env, query: string, fs: seq<IntervalFn>)
    ensures Blanked(AdjustAll(env, query, fs).0) == Blanked(query)
    decreases fs
  {
    hide Rest, Least, Blanked;
    if fs == [] {
    } else {
      PassKeepsOutside(env, fs[0], query);
      PassesKeepOutside(env, Rest(env, fs[0], query, 0), fs[1..]);
    }
  }

  lemma NothingBlanked(s: string)
    requires '[' !in s
    ensures Blanked(s) == s
  {
    assert s[0..] == s;
  }

  lemma BracketStays(s: string)
    requires '[' in s
    ensures '[' in Blanked(s)
  {
    assert s[0..] == s;
    var j := IndexFrom(s, '[', 0);
    var k := IndexFrom(s, ']', j);
    if k != -1 {
      assert Blanked(s)[j] == '[';
    }
  }

  /** So a query without brackets is left as it is. */
  lemma NoBracketNoChange(env: Env, query: string, fs: seq<IntervalFn>)
    requires '[' !in query
    ensures AdjustAll(env, query, fs).0 == query
  {
    hide Blanked, AdjustAll;
    var r := AdjustAll(env, query, fs).0;
    NothingBlanked(query);
    PassesKeepOutside(env, query, fs);
    if '[' in r {
      BracketStays(r);
    } else {
      NothingBlanked(r);
    }
  }
}
