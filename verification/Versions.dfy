/** The cache of distinct versions that is sorted once, on the first query (internal/kubernetes/kubernetes.go). */
module Versions {
  import opened Duration
  import opened Text

  type Uint64 = x: int | 0 <= x < 2 * TWO_63

  datatype BuildInfo = BuildInfo(gitVersion: string, major: Uint64, minor: Uint64)

  /** `Compare`; `None` is the nil pointer. The unsigned subtractions wrap, the conversions to `int`
      keep the bits. */
  function Compare(a: Option<BuildInfo>, b: Option<BuildInfo>): int {
    match (a, b)
    case (None, None) => 0
    case (None, Some(_)) => -1
    case (Some(_), None) => 1
    case (Some(x), Some(y)) =>
      var d := Wrap64(x.major - y.major);
      if d == 0 then Wrap64(x.minor - y.minor) else d
  }

  predicate AtMost(x: BuildInfo, y: BuildInfo) {
    Compare(Some(x), Some(y)) <= 0
  }

  predicate Small(x: BuildInfo) {
    x.major < 0x8000_0000_0000_0000 && x.minor < 0x8000_0000_0000_0000
  }

  predicate Lexicographic(x: BuildInfo, y: BuildInfo) {
    x.major < y.major || (x.major == y.major && x.minor <= y.minor)
  }

  /** The differences that are taken do not wrap. */
  predicate NoWrap(x: BuildInfo, y: BuildInfo) {
    && -0x8000_0000_0000_0000 <= x.major - y.major < 0x8000_0000_0000_0000
    && (x.major == y.major ==> -0x8000_0000_0000_0000 <= x.minor - y.minor < 0x8000_0000_0000_0000)
  }

  /** The comparison is the lexicographic one exactly if nothing wraps. */
  lemma ComparesLexicographically(x: BuildInfo, y: BuildInfo)
    ensures (AtMost(x, y) <==> Lexicographic(x, y)) <==> NoWrap(x, y)
  {
  }

  /** No difference of two of these versions wraps. */
  predicate Unwrapped(vs: seq<BuildInfo>) {
    forall v, w :: v in vs && w in vs ==> NoWrap(v, w)
  }

  predicate Fits(x: BuildInfo, vs: seq<BuildInfo>) {
    forall v :: v in vs ==> NoWrap(x, v)
  }

  /** That is so if all parts are below 2^63. */
  lemma SmallIsUnwrapped(vs: seq<BuildInfo>)
    requires forall v :: v in vs ==> Small(v)
    ensures Unwrapped(vs)
  {
  }

  /** Where it wraps it is not even transitive. */
  lemma CompareIsNotAnOrder()
    ensures var a, b, c := BuildInfo("a", 0, 0), BuildInfo("b", 0x7FFF_FFFF_FFFF_FFFF, 0), BuildInfo("c", 0x8000_0000_0000_0001, 0);
            AtMost(a, b) && AtMost(b, c) && !AtMost(a, c) && !NoWrap(a, c)
  {
  }

  // ---------- stable sorting ----------

  /** `x` put behind everything that is at most `x`. */
  function Insert(x: BuildInfo, vs: seq<BuildInfo>): seq<BuildInfo> {
    if vs == [] then [x]
    else if AtMost(vs[|vs| - 1], x) then vs + [x]
    else Insert(x, vs[..|vs| - 1]) + [vs[|vs| - 1]]
  }

  /** What a stable sort makes of a list. */
  function Sorted(vs: seq<BuildInfo>): seq<BuildInfo> {
    if vs == [] then [] else Insert(vs[|vs| - 1], Sorted(vs[..|vs| - 1]))
  }

  predicate IsSorted(vs: seq<BuildInfo>) {
    forall i, j :: 0 <= i < j < |vs| ==> AtMost(vs[i], vs[j])
  }

  lemma {:induction false} InsertKeeps(x: BuildInfo, vs: seq<BuildInfo>)
    ensures multiset(Insert(x, vs)) == multiset(vs) + multiset{x}
    ensures |Insert(x, vs)| == |vs| + 1
    ensures forall v :: v in Insert(x, vs) ==> v == x || v in vs
  {
    hide AtMost;
    if vs == [] {
    } else {
      var n := |vs| - 1;
      assert vs == vs[..n] + [vs[n]];
      if !AtMost(vs[n], x) {
        InsertKeeps(x, vs[..n]);
      }
    }
  }

  lemma {:induction false} InsertSorts(x: BuildInfo, vs: seq<BuildInfo>)
    requires Unwrapped(vs + [x]) && IsSorted(vs)
    ensures IsSorted(Insert(x, vs))
  {
    hide AtMost, NoWrap;
    assert x in vs + [x] && forall v :: v in vs ==> v in vs + [x];
    if vs == [] {
    } else {
      var n := |vs| - 1;
      if AtMost(vs[n], x) {
        forall i | 0 <= i < n ensures AtMost(vs[i], x) {
          LexicographicThree(vs[i], vs[n], x);
        }
      } else {
        assert forall v :: v in vs[..n] + [x] ==> v in vs + [x];
        InsertSorts(x, vs[..n]);
        InsertKeeps(x, vs[..n]);
        EitherWay(x, vs[n]);
        forall v | v in Insert(x, vs[..n]) ensures AtMost(v, vs[n]) {
          assert v == x || v in vs[..n];
        }
      }
    }
  }

  lemma EitherWay(x: BuildInfo, y: BuildInfo)
    requires NoWrap(x, y) && NoWrap(y, x)
    ensures AtMost(x, y) || AtMost(y, x)
  {
    ComparesLexicographically(x, y);
    ComparesLexicographically(y, x);
  }

  lemma LexicographicThree(x: BuildInfo, y: BuildInfo, z: BuildInfo)
    requires NoWrap(x, y) && NoWrap(y, z) && NoWrap(x, z) && AtMost(x, y) && AtMost(y, z)
    ensures AtMost(x, z)
  {
    ComparesLexicographically(x, y);
    ComparesLexicographically(y, z);
    ComparesLexicographically(x, z);
  }

  lemma AtMostItself(x: BuildInfo)
    ensures AtMost(x, x)
  {
    ComparesLexicographically(x, x);
  }

  /** The sorted list is sorted and holds the same versions. */
  lemma {:induction false} SortedSorts(vs: seq<BuildInfo>)
    ensures multiset(Sorted(vs)) == multiset(vs) && |Sorted(vs)| == |vs|
    ensures forall v :: v in Sorted(vs) <==> v in vs
    ensures Unwrapped(vs) ==> Unwrapped(Sorted(vs)) && IsSorted(Sorted(vs))
    decreases |vs|
  {
    hide NoWrap, AtMost, Insert;
    if vs == [] {
    } else {
      var n := |vs| - 1;
      assert vs == vs[..n] + [vs[n]];
      SortedSorts(vs[..n]);
      InsertKeeps(vs[n], Sorted(vs[..n]));
      SameElements(Sorted(vs), vs);
      if Unwrapped(vs) {
        assert forall v :: v in Sorted(vs[..n]) + [vs[n]] ==> v in vs;
        InsertSorts(vs[n], Sorted(vs[..n]));
      }
    }
  }

  /** The versions with the same parts as `x`, in order. */
  function Alike(vs: seq<BuildInfo>, x: BuildInfo): seq<BuildInfo> {
    if vs == [] then []
    else
      Alike(vs[..|vs| - 1], x) + AlikeOne(vs[|vs| - 1], x)
  }

  lemma {:induction false} InsertStable(v: BuildInfo, vs: seq<BuildInfo>, x: BuildInfo)
    ensures Alike(Insert(v, vs), x) == Alike(vs + [v], x)
  {
    hide AtMost, Alike;
    AlikeSnoc(vs, v, x);
    if vs == [] {
      assert vs + [v] == [v];
    } else if !AtMost(vs[|vs| - 1], v) {
      var n := |vs| - 1;
      InsertStable(v, vs[..n], x);
      AlikeSnoc(vs[..n], v, x);
      AlikeSnoc(vs[..n], vs[n], x);
      AlikeSnoc(Insert(v, vs[..n]), vs[n], x);
      assert vs[..n] + [vs[n]] == vs;
      NotAlike(vs[n], v, x);
    }
  }

  function AlikeOne(v: BuildInfo, x: BuildInfo): seq<BuildInfo> {
    if v.major == x.major && v.minor == x.minor then [v] else []
  }

  lemma AlikeSnoc(vs: seq<BuildInfo>, v: BuildInfo, x: BuildInfo)
    ensures Alike(vs + [v], x) == Alike(vs, x) + AlikeOne(v, x)
  {
    assert (vs + [v])[..|vs|] == vs;
  }

  /** What is strictly ordered cannot both be alike to one version. */
  lemma NotAlike(u: BuildInfo, v: BuildInfo, x: BuildInfo)
    requires !AtMost(u, v)
    ensures AlikeOne(u, x) == [] || AlikeOne(v, x) == []
  {
  }

  /** Versions that compare alike keep their order. */
  lemma {:induction false} SortedIsStable(vs: seq<BuildInfo>, x: BuildInfo)
    ensures Alike(Sorted(vs), x) == Alike(vs, x)
    decreases |vs|
  {
    hide Insert, Alike, AlikeOne;
    if vs == [] {
    } else {
      var n := |vs| - 1;
      SortedIsStable(vs[..n], x);
      InsertStable(vs[n], Sorted(vs[..n]), x);
      AlikeSnoc(Sorted(vs[..n]), vs[n], x);
      AlikeSnoc(vs[..n], vs[n], x);
      assert vs == vs[..n] + [vs[n]];
    }
  }

  // ---------- the cache ----------

  datatype Report = Report(name: string, version: Option<BuildInfo>)

  predicate Ignored(r: Report) {
    r.version.None? || r.version.value.gitVersion == "" || r.name == ""
  }

  predicate Knows(vs: seq<BuildInfo>, gitVersion: string) {
    exists i :: 0 <= i < |vs| && vs[i].gitVersion == gitVersion
  }

  /** One report: the first of every git version is kept. */
  function Grown(vs: seq<BuildInfo>, r: Report): seq<BuildInfo> {
    if Ignored(r) || Knows(vs, r.version.value.gitVersion) then vs else vs + [r.version.value]
  }

  class TypedVersions {
    var versions: seq<BuildInfo>
    var byGitVersion: map<string, BuildInfo>
    var byName: map<string, BuildInfo>
    /** The sort has been done; it is done once. */
    var sorted: bool

    ghost predicate Valid()
      reads this
    {
      && (forall i :: 0 <= i < |versions| ==>
            versions[i].gitVersion in byGitVersion && byGitVersion[versions[i].gitVersion] == versions[i])
      && (forall g :: g in byGitVersion ==> byGitVersion[g] in versions && byGitVersion[g].gitVersion == g)
      && DistinctVersions(versions)
      && (forall n :: n in byName ==> byName[n] in versions)
    }

    /** No version came after the sort, so what is sorted once is still sorted. */
    ghost predicate UpToDate()
      reads this
    {
      Unwrapped(versions) && (sorted ==> IsSorted(versions))
    }

    lemma KnownVersions()
      requires Valid()
      ensures forall g :: g in byGitVersion <==> Knows(versions, g)
    {
    }

    constructor ()
      ensures Valid() && versions == [] && byName == map[] && !sorted
    {
      versions, byGitVersion, byName, sorted := [], map[], map[], false;
    }

    /** `Add`. */
    method Add(name: string, version: Option<BuildInfo>)
      requires Valid()
      modifies this
      ensures Valid() && sorted == old(sorted)
      ensures versions == Grown(old(versions), Report(name, version))
      ensures !Ignored(Report(name, version)) ==> version.value.gitVersion in byGitVersion
      ensures byName == if Ignored(Report(name, version)) then old(byName)
                        else old(byName)[name := byGitVersion[version.value.gitVersion]]
      ensures !sorted && Unwrapped(versions) ==> UpToDate()
    {
      KnownVersions();
      if version.None? || version.value.gitVersion == "" || name == "" {
        return;
      }
      var bi := version.value;
      if bi.gitVersion in byGitVersion {
        bi := byGitVersion[bi.gitVersion];
      } else {
        byGitVersion := byGitVersion[bi.gitVersion := bi];
        versions := versions + [bi];
      }
      byName := byName[name := bi];
    }

    /** The closure run once: later additions are not sorted in. */
    method SortOnce()
      requires Valid()
      modifies this`versions, this`sorted
      ensures Valid() && sorted && multiset(versions) == old(multiset(versions))
      ensures versions == if old(sorted) then old(versions) else Sorted(old(versions))
      ensures old(UpToDate()) ==> UpToDate()
    {
      hide AtMost, Sorted, IsSorted, NoWrap, DistinctVersions;
      if !sorted {
        SortedDistinct(versions);
        SortedSorts(versions);
        versions := Sorted(versions);
        sorted := true;
        assert forall i :: 0 <= i < |versions| ==> versions[i] in old(versions);
      }
    }

    /** `getExtremum`: with everything added before the first query, the true minimum or maximum. */
    method GetExtremum(isMin: bool) returns (r: Option<BuildInfo>)
      requires Valid()
      modifies this`versions, this`sorted
      ensures Valid() && multiset(versions) == old(multiset(versions))
      ensures versions == if old(versions) == [] || old(sorted) then old(versions) else Sorted(old(versions))
      ensures sorted == (old(sorted) || old(versions) != [])
      ensures r == if versions == [] then None else Some(versions[if isMin then 0 else |versions| - 1])
      ensures old(UpToDate()) ==> UpToDate()
      ensures old(UpToDate()) && r.Some? ==> IsExtremum(r.value, versions, isMin)
    {
      hide AtMost, Sorted, IsSorted, NoWrap, DistinctVersions, IsExtremum;
      if |versions| == 0 {
        return None;
      }
      SortOnce();
      assert |versions| == |multiset(versions)|;
      var idx := if isMin then 0 else |versions| - 1;
      r := Some(versions[idx]);
      if UpToDate() {
        EndsAreExtrema(versions, isMin);
      }
    }

    /** A version that is added after the sort and asked about: the answer is right exactly if the version
        belongs where it stands, behind all the others. */
    method AddAfterSort(name: string, version: BuildInfo, isMin: bool) returns (r: Option<BuildInfo>)
      requires Valid() && UpToDate() && sorted && versions != [] && forall v :: v in versions ==> NoWrap(v, version)
      requires name != "" && version.gitVersion != "" && version.gitVersion !in byGitVersion
      modifies this
      ensures Valid() && versions == old(versions) + [version]
      ensures r.Some? && (isMin ==> r.value == old(versions)[0]) && (!isMin ==> r.value == version)
      ensures IsExtremum(r.value, versions, isMin)
         <==> AtMost(if isMin then old(versions)[0] else old(versions)[|old(versions)| - 1], version)
    {
      hide AtMost, IsSorted, NoWrap, DistinctVersions, Sorted, Ignored, Knows;
      ghost var before := versions;
      KnownVersions();
      AddedAfterSort(before, version);
      NewIsGrown(before, Report(name, Some(version)));
      Add(name, Some(version));
      r := GetExtremum(isMin);
      assert version in versions;
    }

    /** `hasMinimum`. */
    method HasMinimum(bi: BuildInfo) returns (b: bool)
      requires Valid()
      modifies this`versions, this`sorted
      ensures Valid() && byName == old(byName) && multiset(versions) == old(multiset(versions))
      ensures old(UpToDate()) ==> UpToDate()
      ensures old(UpToDate()) && Fits(bi, versions) ==> (b <==> versions != [] && forall v :: v in versions ==> AtMost(bi, v))
      ensures old(UpToDate()) && Fits(bi, versions) && b ==> forall n :: n in byName ==> AtMost(bi, byName[n])
    {
      var minimum := GetExtremum(true);
      b := Compare(Some(bi), minimum) <= 0;
      if UpToDate() && Fits(bi, versions) && minimum.Some? && b {
        forall v | v in versions ensures AtMost(bi, v) {
          LexicographicThree(bi, minimum.value, v);
        }
      }
    }
  }

  /** A version of the list that no other one is below, or above. */
  predicate IsExtremum(x: BuildInfo, vs: seq<BuildInfo>, isMin: bool) {
    x in vs && forall v :: v in vs ==> if isMin then AtMost(x, v) else AtMost(v, x)
  }

  lemma EndsAreExtrema(vs: seq<BuildInfo>, isMin: bool)
    requires vs != [] && IsSorted(vs)
    ensures IsExtremum(vs[if isMin then 0 else |vs| - 1], vs, isMin)
  {
    FirstOfSorted(vs);
    LastOfSorted(vs);
    hide AtMost, IsSorted;
  }

  predicate DistinctVersions(vs: seq<BuildInfo>) {
    forall i, j :: 0 <= i < j < |vs| ==> vs[i].gitVersion != vs[j].gitVersion
  }

  lemma {:induction false} InsertDistinct(x: BuildInfo, vs: seq<BuildInfo>)
    requires DistinctVersions(vs) && forall v :: v in vs ==> v.gitVersion != x.gitVersion
    ensures DistinctVersions(Insert(x, vs))
    ensures forall v :: v in Insert(x, vs) ==> v == x || v in vs
  {
    hide AtMost;
    if vs != [] && !AtMost(vs[|vs| - 1], x) {
      var n := |vs| - 1;
      InsertDistinct(x, vs[..n]);
      forall v | v in Insert(x, vs[..n]) ensures v.gitVersion != vs[n].gitVersion {
        if v != x {
          assert v in vs[..n];
        }
      }
    }
  }

  lemma {:induction false} SortedDistinct(vs: seq<BuildInfo>)
    requires DistinctVersions(vs)
    ensures DistinctVersions(Sorted(vs))
    ensures forall v :: v in Sorted(vs) <==> v in vs
    decreases |vs|
  {
    hide AtMost, Insert;
    if vs == [] {
    } else {
      var n := |vs| - 1;
      SortedDistinct(vs[..n]);
      InsertDistinct(vs[n], Sorted(vs[..n]));
    }
    SortedSorts(vs);
    forall v ensures v in Sorted(vs) <==> v in vs {
      assert v in multiset(Sorted(vs)) <==> v in multiset(vs);
    }
  }

  /** A version added after the sort is only seen where it happens to belong: the first stays the
      minimum just when it is at most the new one, and the new one is the maximum just when it is at
      least the last. */
  lemma AddedAfterSort(vs: seq<BuildInfo>, v: BuildInfo)
    requires vs != [] && IsSorted(vs) && forall w :: w in vs ==> NoWrap(w, v)
    requires Unwrapped(vs)
    ensures (forall w :: w in vs + [v] ==> AtMost(vs[0], w)) <==> AtMost(vs[0], v)
    ensures (forall w :: w in vs + [v] ==> AtMost(w, v)) <==> AtMost(vs[|vs| - 1], v)
  {
    FirstOfSorted(vs);
    LastOfSorted(vs);
    hide AtMost, IsSorted;
    assert v in vs + [v] && vs[|vs| - 1] in vs + [v];
    AtMostItself(v);
    if AtMost(vs[|vs| - 1], v) {
      forall w | w in vs + [v] ensures AtMost(w, v) {
        if w in vs {
          LexicographicThree(w, vs[|vs| - 1], v);
        }
      }
    }
  }

  lemma FirstOfSorted(vs: seq<BuildInfo>)
    requires vs != [] && IsSorted(vs)
    ensures forall w :: w in vs ==> AtMost(vs[0], w)
  {
    AtMostItself(vs[0]);
    hide AtMost;
  }

  lemma LastOfSorted(vs: seq<BuildInfo>)
    requires vs != [] && IsSorted(vs)
    ensures forall w :: w in vs ==> AtMost(w, vs[|vs| - 1])
  {
    var last := vs[|vs| - 1];
    AtMostItself(last);
    hide AtMost;
  }

  // ---------- a whole run ----------

  function Collected(reports: seq<Report>): seq<BuildInfo> {
    if reports == [] then [] else Grown(Collected(reports[..|reports| - 1]), reports[|reports| - 1])
  }

  /** A report with a name, about this git version. */
  predicate IsAbout(r: Report, gitVersion: string) {
    r.name != "" && r.version.Some? && r.version.value.gitVersion == gitVersion
  }

  /** The first such report says `v`. */
  predicate IsFirst(reports: seq<Report>, i: nat, v: BuildInfo) {
    && i < |reports| && v.gitVersion != "" && reports[i].name != "" && reports[i].version == Some(v)
    && forall j :: 0 <= j < i ==> !IsAbout(reports[j], v.gitVersion)
  }

  /** The versions collected are exactly what the first reports about every git version say, one of each. */
  lemma {:induction false} FirstReportsAreCollected(reports: seq<Report>)
    ensures forall v :: v in Collected(reports) <==> exists i: nat :: IsFirst(reports, i, v)
    ensures forall g :: Knows(Collected(reports), g) <==> g != "" && exists i :: 0 <= i < |reports| && IsAbout(reports[i], g)
    ensures DistinctVersions(Collected(reports))
    decreases |reports|
  {
    if reports == [] {
    } else {
      var n := |reports| - 1;
      FirstReportsAreCollected(reports[..n]);
      forall v ensures v in Collected(reports) <==> exists i: nat :: IsFirst(reports, i, v) {
        CollectedOneMore(reports, v);
      }
      forall g ensures Knows(Collected(reports), g) <==> g != "" && exists i :: 0 <= i < |reports| && IsAbout(reports[i], g) {
        KnownOneMore(reports, g);
      }
    }
  }

  lemma CollectedOneMore(reports: seq<Report>, v: BuildInfo)
    requires reports != []
    requires var before := reports[..|reports| - 1];
             && (v in Collected(before) <==> exists i: nat :: IsFirst(before, i, v))
             && forall g :: Knows(Collected(before), g) <==> g != "" && exists i :: 0 <= i < |before| && IsAbout(before[i], g)
    ensures v in Collected(reports) <==> exists i: nat :: IsFirst(reports, i, v)
  {
    hide Knows;
    var n := |reports| - 1;
    var before := reports[..n];
    if v in Collected(before) {
      var i: nat :| IsFirst(before, i, v);
      assert IsFirst(reports, i, v);
    } else if v in Collected(reports) {
      assert IsFirst(reports, n, v) by {
        forall j | 0 <= j < n ensures !IsAbout(reports[j], v.gitVersion) {
          assert before[j] == reports[j];
        }
      }
    } else {
      forall i: nat ensures IsFirst(reports, i, v) && i < n ==> IsFirst(before, i, v) {
      }
    }
  }

  lemma KnownOneMore(reports: seq<Report>, g: string)
    requires reports != []
    requires var before := reports[..|reports| - 1];
             Knows(Collected(before), g) <==> g != "" && exists i :: 0 <= i < |before| && IsAbout(before[i], g)
    ensures Knows(Collected(reports), g) <==> g != "" && exists i :: 0 <= i < |reports| && IsAbout(reports[i], g)
  {
    var n := |reports| - 1;
    var before := reports[..n];
    var vs, last := Collected(before), reports[n];
    KnowsMore(vs, last, g);
    if g != "" && exists i :: 0 <= i < n && IsAbout(reports[i], g) {
      var i :| 0 <= i < n && IsAbout(reports[i], g);
      assert before[i] == reports[i];
    }
    hide Knows, Grown, Ignored;
  }

  lemma NewIsGrown(vs: seq<BuildInfo>, r: Report)
    requires r.name != "" && r.version.Some? && r.version.value.gitVersion != "" && !Knows(vs, r.version.value.gitVersion)
    ensures !Ignored(r) && Grown(vs, r) == vs + [r.version.value]
  {
  }

  lemma KnowsMore(vs: seq<BuildInfo>, r: Report, g: string)
    ensures Knows(Grown(vs, r), g) <==> Knows(vs, g) || (g != "" && IsAbout(r, g))
  {
    var grown := Grown(vs, r);
    if Knows(vs, g) {
      var i :| 0 <= i < |vs| && vs[i].gitVersion == g;
      assert grown[i] == vs[i];
    }
    if grown != vs {
      assert grown[|vs|] == r.version.value;
    }
  }

  method AddAll(reports: seq<Report>) returns (tv: TypedVersions)
    ensures fresh(tv) && tv.Valid() && !tv.sorted && tv.versions == Collected(reports)
  {
    hide AtMost, IsSorted, Grown;
    tv := new TypedVersions();
    for n := 0 to |reports|
      invariant fresh(tv) && tv.Valid() && !tv.sorted
      invariant tv.versions == Collected(reports[..n])
    {
      assert reports[..n + 1][..n] == reports[..n];
      tv.Add(reports[n].name, reports[n].version);
    }
    assert reports[..|reports|] == reports;
  }

  /** Reports first, questions afterwards. */
  method AddThenAsk(reports: seq<Report>, bi: BuildInfo)
    returns (atLeast: bool, minimum: Option<BuildInfo>, maximum: Option<BuildInfo>)
    requires Unwrapped(Collected(reports)) && Fits(bi, Collected(reports))
    ensures minimum.None? <==> Collected(reports) == []
    ensures maximum.None? <==> Collected(reports) == []
    ensures minimum.Some? ==> IsExtremum(minimum.value, Collected(reports), true)
    ensures maximum.Some? ==> IsExtremum(maximum.value, Collected(reports), false)
    ensures atLeast <==> Collected(reports) != [] && forall v :: v in Collected(reports) ==> AtMost(bi, v)
  {
    hide AtMost, NoWrap, IsSorted, Sorted;
    var tv := AddAll(reports);
    var collected := tv.versions;
    atLeast := tv.HasMinimum(bi);
    SameElements(collected, tv.versions);
    minimum := tv.GetExtremum(true);
    SameElements(collected, tv.versions);
    maximum := tv.GetExtremum(false);
    SameElements(collected, tv.versions);
  }

  lemma SameElements(vs: seq<BuildInfo>, ws: seq<BuildInfo>)
    requires multiset(vs) == multiset(ws)
    ensures |vs| == |ws|
    ensures forall v :: v in vs <==> v in ws
  {
    assert |vs| == |multiset(vs)| && |ws| == |multiset(ws)|;
    forall v ensures v in vs <==> v in ws {
      assert v in multiset(vs) <==> v in multiset(ws);
    }
  }
}
