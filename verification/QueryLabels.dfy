/** Cluster labels in queries: embedding the placeholder, replacing it and cleaning up the commas
    (internal/common/query.go, internal/common/filter.go). */
module QueryLabels {
  import opened Text

  const LABELS_PLACEHOLDER := "#//#CLUSTER_LABELS#//#"
  const LABEL_NAMES_PLACEHOLDER := "LNPH"

  // ---------- strings.ReplaceAll ----------

  /** `strings.ReplaceAll` of a non-empty pattern: left to right, matches do not overlap. */
  function ReplaceAll(s: string, pat: string, rep: string): string
    requires pat != ""
    decreases |s|
  {
    if |s| < |pat| then s
    else if s[..|pat|] == pat then rep + ReplaceAll(s[|pat|..], pat, rep)
    else [s[0]] + ReplaceAll(s[1..], pat, rep)
  }

  predicate OccursAt(pat: string, s: string, i: int) {
    0 <= i <= |s| - |pat| && s[i..i + |pat|] == pat
  }

  ghost predicate Occurs(pat: string, s: string) {
    exists i :: OccursAt(pat, s, i)
  }

  lemma OccursWider(pat: string, before: string, s: string, after: string)
    requires Occurs(pat, s)
    ensures Occurs(pat, before + (s + after))
  {
    var whole := before + (s + after);
    var i :| OccursAt(pat, s, i);
    assert s[i..i + |pat|] == whole[|before| + i..|before| + i + |pat|];
    assert OccursAt(pat, whole, |before| + i);
  }

  lemma OccursInPart(pat: string, before: string, s: string, after: string)
    requires !Occurs(pat, before + (s + after))
    ensures !Occurs(pat, s)
  {
    if Occurs(pat, s) {
      OccursWider(pat, before, s, after);
    }
  }

  lemma {:induction false} ReplaceAbsent(s: string, pat: string, rep: string)
    requires pat != "" && !Occurs(pat, s)
    ensures ReplaceAll(s, pat, rep) == s
    decreases |s|
  {
    if |s| >= |pat| {
      assert !OccursAt(pat, s, 0) && s[0..0 + |pat|] == s[..|pat|];
      assert [s[0]] + (s[1..] + "") == s;
      OccursInPart(pat, [s[0]], s[1..], "");
      ReplaceAbsent(s[1..], pat, rep);
    }
  }

  /** A pattern that cannot lie across the border is replaced on either side of it. */
  lemma {:induction false} ReplaceSplit(s: string, t: string, pat: string, rep: string)
    requires pat != "" && t != "" && t[0] !in pat[1..]
    ensures ReplaceAll(s + t, pat, rep) == ReplaceAll(s, pat, rep) + ReplaceAll(t, pat, rep)
    decreases |s|
  {
    if s == "" {
      assert s + t == t;
    } else if |s| < |pat| {
      assert (s + t)[1..] == s[1..] + t;
      if |s + t| >= |pat| {
        assert (s + t)[..|pat|][|s|] == t[0];
        assert (s + t)[..|pat|] != pat by {
          assert pat[1..][|s| - 1] == pat[|s|];
        }
        ReplaceSplit(s[1..], t, pat, rep);
        Assoc([s[0]], ReplaceAll(s[1..], pat, rep), ReplaceAll(t, pat, rep));
      }
    } else {
      assert (s + t)[..|pat|] == s[..|pat|];
      if s[..|pat|] == pat {
        assert (s + t)[|pat|..] == s[|pat|..] + t;
        ReplaceSplit(s[|pat|..], t, pat, rep);
        Assoc(rep, ReplaceAll(s[|pat|..], pat, rep), ReplaceAll(t, pat, rep));
      } else {
        assert (s + t)[1..] == s[1..] + t;
        ReplaceSplit(s[1..], t, pat, rep);
        Assoc([s[0]], ReplaceAll(s[1..], pat, rep), ReplaceAll(t, pat, rep));
      }
    }
  }

  predicate EndsIn(s: string, c: char) {
    s != "" && s[|s| - 1] == c
  }

  /** A pattern of two characters that does not lie across the border. */
  lemma {:induction false} ReplaceSplitTwo(s: string, t: string, pat: string, rep: string)
    requires |pat| == 2 && !(EndsIn(s, pat[0]) && t != "" && t[0] == pat[1])
    ensures ReplaceAll(s + t, pat, rep) == ReplaceAll(s, pat, rep) + ReplaceAll(t, pat, rep)
    decreases |s|
  {
    var u := s + t;
    if s == "" {
      assert u == t;
    } else if |s| == 1 {
      assert u[1..] == t;
      if t != "" {
        assert u[..2][0] == s[0] && u[..2][1] == t[0];
        assert u[..2] != pat;
      } else {
        assert u == s;
      }
    } else if s[..2] == pat {
      assert u[..2] == pat && u[2..] == s[2..] + t;
      ReplaceSplitTwo(s[2..], t, pat, rep);
      Assoc(rep, ReplaceAll(s[2..], pat, rep), ReplaceAll(t, pat, rep));
    } else {
      assert u[..2] == s[..2] && u[1..] == s[1..] + t;
      ReplaceSplitTwo(s[1..], t, pat, rep);
      Assoc([s[0]], ReplaceAll(s[1..], pat, rep), ReplaceAll(t, pat, rep));
    }
  }

  lemma ReplaceShort(s: string, pat: string, rep: string)
    requires |s| < |pat|
    ensures ReplaceAll(s, pat, rep) == s
  {
  }

  /** A text without one of the pattern's characters. */
  lemma CharAbsent(pat: string, s: string, k: nat)
    requires k < |pat| && pat[k] !in s
    ensures !Occurs(pat, s)
  {
    forall i ensures !OccursAt(pat, s, i) {
      if 0 <= i <= |s| - |pat| {
        assert s[i..i + |pat|][k] == s[i + k];
      }
    }
  }

  /** A character outside the pattern stays and separates. */
  lemma ReplaceAround(s: string, c: char, t: string, pat: string, rep: string)
    requires pat != "" && c !in pat
    ensures ReplaceAll(s + ([c] + t), pat, rep) == ReplaceAll(s, pat, rep) + ([c] + ReplaceAll(t, pat, rep))
  {
    var ct := [c] + t;
    assert ct[1..] == t && c !in pat[1..];
    ReplaceSplit(s, ct, pat, rep);
    if |ct| >= |pat| {
      assert ct[..|pat|][0] == c;
    } else if |t| < |pat| {
      assert ReplaceAll(t, pat, rep) == t;
    }
  }

  lemma ReplaceWhole(pat: string, t: string, rep: string)
    requires pat != ""
    ensures ReplaceAll(pat + t, pat, rep) == rep + ReplaceAll(t, pat, rep)
    ensures ReplaceAll(pat, pat, rep) == rep
  {
    assert (pat + t)[..|pat|] == pat && (pat + t)[|pat|..] == t;
    assert pat[..|pat|] == pat && pat[|pat|..] == "";
    assert ReplaceAll("", pat, rep) == "";
    assert rep + "" == rep;
  }

  lemma {:induction false} ReplaceKeepsOut(s: string, pat: string, rep: string, c: char)
    requires pat != "" && c !in s && c !in rep
    ensures c !in ReplaceAll(s, pat, rep)
    decreases |s|
  {
    if |s| >= |pat| {
      if s[..|pat|] == pat {
        ReplaceKeepsOut(s[|pat|..], pat, rep, c);
      } else {
        ReplaceKeepsOut(s[1..], pat, rep, c);
      }
    }
  }

  // ---------- embedding ----------

  function Count(s: string, c: char): nat {
    if s == "" then 0 else (if s[0] == c then 1 else 0) + Count(s[1..], c)
  }

  /** The query with `embed` before every closing brace. */
  function Inserted(q: string, embed: string): string
    decreases |q|
  {
    var k := IndexFrom(q, '}', 0);
    if k == -1 then q else q[..k] + (embed + (['}'] + Inserted(q[k + 1..], embed)))
  }

  lemma InsertedCons(p: string, rest: string, embed: string)
    requires '}' !in p
    ensures Inserted(p + (['}'] + rest), embed) == p + (embed + (['}'] + Inserted(rest, embed)))
    ensures Inserted(p, embed) == p
  {
    var q := p + (['}'] + rest);
    FirstBrace(p, rest);
    assert q[..|p|] == p && q[|p| + 1..] == rest;
    assert p[0..] == p;
  }

  lemma FirstBrace(p: string, rest: string)
    requires '}' !in p
    ensures IndexFrom(p + (['}'] + rest), '}', 0) == |p|
  {
    hide Inserted;
    var q := p + (['}'] + rest);
    assert q[|p|] == '}';
    assert q[0..][|p|] == '}';
    forall i | 0 <= i < |p| ensures q[i] != '}' {
      assert q[i] == p[i];
    }
  }

  function Range(n: nat): (r: seq<nat>)
    ensures |r| == n && forall i :: 0 <= i < n ==> r[i] == i
  {
    seq(n, i => i)
  }

  method CreateRange(n: nat) returns (r: seq<nat>)
    ensures r == Range(n)
  {
    r := [];
    for i := 0 to n
      invariant |r| == i && forall j :: 0 <= j < i ==> r[j] == j
    {
      r := r + [i];
    }
  }

  /** The parts with `embed` appended at every index, one index after the other. */
  function Appended(parts: seq<string>, indices: seq<nat>, embed: string): (r: seq<string>)
    requires forall i :: 0 <= i < |indices| ==> indices[i] < |parts|
    ensures |r| == |parts|
  {
    if indices == [] then parts
    else
      var n := |indices| - 1;
      var done := Appended(parts, indices[..n], embed);
      done[indices[n] := done[indices[n]] + embed]
  }

  datatype Embedding = Embedded(query: string) | Failed

  /** `embedClusterLabels` for the search string "}". */
  method EmbedAt(query: string, indices: seq<nat>, embed: string) returns (r: Embedding)
    ensures indices == [] ==> r == Embedded(query)
    ensures r == Failed <==> indices != [] && ('}' !in query || exists i :: i in indices && i >= |Split(query, '}')|)
    ensures r.Embedded? && indices != [] ==> (forall i :: 0 <= i < |indices| ==> indices[i] < |Split(query, '}')|)
    ensures r.Embedded? && indices != [] ==> r.query == Join(Appended(Split(query, '}'), indices, embed), '}')
  {
    if |indices| == 0 {
      return Embedded(query);
    }
    if '}' !in query {
      return Failed;
    }
    hide Join, Split;
    var s := Split(query, '}');
    var n := |s|;
    for k := 0 to |indices|
      invariant forall i :: 0 <= i < k ==> indices[i] < n
      invariant s == Appended(Split(query, '}'), indices[..k], embed)
    {
      var index := indices[k];
      if index >= n {
        assert index in indices;
        return Failed;
      }
      assert indices[..k + 1][..k] == indices[..k];
      s := s[index := s[index] + embed];
    }
    assert indices[..|indices|] == indices;
    r := Embedded(Join(s, '}'));
  }

  /** All parts but the last one extended. */
  function AllButLast(parts: seq<string>, embed: string): (r: seq<string>)
    ensures |r| == |parts|
    ensures forall i :: 0 <= i < |parts| ==> r[i] == if i < |parts| - 1 then parts[i] + embed else parts[i]
  {
    if |parts| <= 1 then parts else [parts[0] + embed] + AllButLast(parts[1..], embed)
  }

  lemma {:induction false} AppendedInRange(parts: seq<string>, n: nat, embed: string)
    requires n <= |parts|
    ensures var r := Appended(parts, Range(n), embed);
            forall i :: 0 <= i < |parts| ==> r[i] == if i < n then parts[i] + embed else parts[i]
  {
    if n == 0 {
    } else {
      assert Range(n)[..n - 1] == Range(n - 1);
      AppendedInRange(parts, n - 1, embed);
    }
  }

  /** Splitting at "}", extending every part but the last and joining again is insertion. */
  lemma {:induction false} JoinOfExtended(q: string, embed: string)
    ensures Join(AllButLast(Split(q, '}'), embed), '}') == Inserted(q, embed)
    decreases |q|
  {
    var k := IndexFrom(q, '}', 0);
    if k == -1 {
      assert q[0..] == q;
      hide IndexFrom;
      InsertedCons(q, "", embed);
    } else {
      var p, behind := q[..k], q[k + 1..];
      assert q == p + (['}'] + behind);
      hide Join, AllButLast, IndexFrom, Split, Inserted;
      JoinOfExtended(behind, embed);
      var rest := Split(behind, '}');
      SplitFirst(p, behind, '}');
      InsertedCons(p, behind, embed);
      ExtendedCons(p, rest, embed);
      JoinCons(p + embed, AllButLast(rest, embed), '}');
      Assoc(p, embed, ['}'] + Inserted(behind, embed));
    }
  }

  lemma ExtendedCons(part: string, rest: seq<string>, embed: string)
    requires rest != []
    ensures AllButLast([part] + rest, embed) == [part + embed] + AllButLast(rest, embed)
  {
    assert ([part] + rest)[1..] == rest;
  }

  lemma {:induction false} PartsOfSplit(q: string)
    ensures |Split(q, '}')| == Count(q, '}') + 1
    decreases |q|
  {
    var k := IndexFrom(q, '}', 0);
    if k == -1 {
      assert q[0..] == q;
      CountAbsent(q);
    } else {
      PartsOfSplit(q[k + 1..]);
      CountAbsent(q[..k]);
      CountOver(q[..k], q[k + 1..]);
      assert q == q[..k] + (['}'] + q[k + 1..]);
    }
  }

  lemma {:induction false} CountAbsent(s: string)
    ensures Count(s, '}') == 0 <==> '}' !in s
  {
    if s == "" {
    } else {
      CountAbsent(s[1..]);
    }
  }

  lemma {:induction false} CountOver(p: string, rest: string)
    requires '}' !in p
    ensures Count(p + (['}'] + rest), '}') == 1 + Count(rest, '}')
  {
    if p == "" {
      assert p + (['}'] + rest) == ['}'] + rest;
    } else {
      assert (p + (['}'] + rest))[1..] == p[1..] + (['}'] + rest);
      CountOver(p[1..], rest);
    }
  }

  datatype QueryType = Plain | Aggregator | Labeled

  datatype Embedder = PlainQuery | ComplexQuery(rightBracketIndices: seq<nat>, rightBraceIndices: seq<nat>)

  /** What the three classes of queries become. */
  function WithPlaceholder(query: string): string {
    if '}' in query then Inserted(query, [','] + LABELS_PLACEHOLDER)
    else if ')' in query then query
    else query + ("{" + (LABELS_PLACEHOLDER + "}"))
  }

  lemma PlaceholderIs()
    ensures [','] + LABELS_PLACEHOLDER == ",#//#CLUSTER_LABELS#//#"
    ensures "{" + (LABELS_PLACEHOLDER + "}") == "{#//#CLUSTER_LABELS#//#}"
  {
  }

  predicate Serves(qt: QueryType, n: nat, cle: Embedder) {
    match qt
    case Plain => cle == PlainQuery
    case Aggregator => cle == ComplexQuery(Range(n), [])
    case Labeled => cle == ComplexQuery([], Range(n))
  }

  /** `embedClusterLabels` of an embedder. */
  method Embed(cle: Embedder, query: string) returns (r: Embedding)
    ensures cle.PlainQuery? ==> r == Embedded(query + ("{" + (LABELS_PLACEHOLDER + "}")))
    ensures cle.ComplexQuery? && cle.rightBraceIndices == [] ==> r == Embedded(query)
    ensures cle == ComplexQuery([], Range(Count(query, '}'))) && '}' in query ==>
              r == Embedded(Inserted(query, [','] + LABELS_PLACEHOLDER))
  {
    match cle
    case PlainQuery => r := Embedded(query + ("{" + (LABELS_PLACEHOLDER + "}")));
    case ComplexQuery(_, rightBraceIndices) =>
      hide Count, Split, Inserted, Join, Appended, AllButLast;
      r := EmbedAt(query, rightBraceIndices, [','] + LABELS_PLACEHOLDER);
      PartsOfSplit(query);
      CountAbsent(query);
      var k := Count(query, '}');
      if rightBraceIndices == Range(k) && '}' in query {
        AppendedInRange(Split(query, '}'), k, [','] + LABELS_PLACEHOLDER);
        JoinOfExtended(query, [','] + LABELS_PLACEHOLDER);
        assert Range(k)[0] in Range(k);
        if r.Embedded? {
          assert Appended(Split(query, '}'), Range(k), [','] + LABELS_PLACEHOLDER)
              == AllButLast(Split(query, '}'), [','] + LABELS_PLACEHOLDER);
        }
      }
  }

  class Embedders {
    /** The memo table. */
    var cles: map<QueryType, map<nat, Embedder>>

    ghost predicate Valid()
      reads this
    {
      forall qt, n :: qt in cles && n in cles[qt] ==> Serves(qt, n, cles[qt][n])
    }

    constructor ()
      ensures Valid()
    {
      cles := map[];
    }

    /** `getLabelsEmbedder`; a complex embedder without an index would panic. */
    method GetLabelsEmbedder(qt: QueryType, n: nat) returns (cle: Embedder)
      requires Valid() && (qt != Plain ==> n > 0)
      modifies this
      ensures Valid() && Serves(qt, n, cle)
      ensures qt in cles && n in cles[qt] && cles[qt][n] == cle
      ensures forall t, k :: t in old(cles) && k in old(cles)[t] ==> t in cles && k in cles[t] && cles[t][k] == old(cles)[t][k]
    {
      if qt !in cles {
        cles := cles[qt := map[]];
      }
      if n in cles[qt] {
        cle := cles[qt][n];
      } else {
        match qt {
          case Plain => cle := PlainQuery;
          case Aggregator =>
            var r := CreateRange(n);
            cle := ComplexQuery(r, []);
          case Labeled =>
            var r := CreateRange(n);
            cle := ComplexQuery([], r);
        }
        var m: map<nat, Embedder> := cles[qt];
        m := m[n := cle];
        cles := cles[qt := m];
      }
    }

    /** `getClusterLabelsEmbedder` and the embedding: whatever queries came before, it never fails and
        depends on the query alone. */
    method EmbedClusterLabels(query: string) returns (r: Embedding)
      requires Valid()
      modifies this
      ensures Valid() && r == Embedded(WithPlaceholder(query))
      ensures '}' in query ==> r == Embedded(Inserted(query, ",#//#CLUSTER_LABELS#//#"))
      ensures '}' !in query && ')' in query ==> r == Embedded(query)
      ensures '}' !in query && ')' !in query ==> r == Embedded(query + "{#//#CLUSTER_LABELS#//#}")
    {
      PlaceholderIs();
      CountAbsent(query);
      var qt, n := Plain, 0;
      var k := Count(query, '}');
      if k > 0 {
        qt, n := Labeled, k;
      } else if ')' in query {
        qt, n := Aggregator, 1;
      }
      var cle := GetLabelsEmbedder(qt, n);
      r := Embed(cle, query);
    }
  }
}
