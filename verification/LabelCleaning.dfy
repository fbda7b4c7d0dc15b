/** What becomes of a cluster's labels when the placeholders of a query are replaced and the query is
    cleaned up (internal/common/filter.go:232-255). */
module LabelCleaning {
  import opened Text
  import opened QueryLabels
  import opened QueryCleaning
  import opened LabelMatchers

  // ---------- cleaning changes every text that is not tidy ----------

  lemma {:induction false} Shrinks(s: string, pat: string, rep: string)
    requires |rep| < |pat|
    ensures |ReplaceAll(s, pat, rep)| <= |s|
    ensures Occurs(pat, s) ==> |ReplaceAll(s, pat, rep)| < |s|
    decreases |s|
  {
    if |s| < |pat| {
    } else if s[..|pat|] == pat {
      Shrinks(s[|pat|..], pat, rep);
    } else {
      Shrinks(s[1..], pat, rep);
      OccursInTail(pat, s);
    }
  }

  lemma OccursInTail(pat: string, s: string)
    requires pat != "" && s != "" && |s| >= |pat| && s[..|pat|] != pat
    ensures Occurs(pat, s) <==> Occurs(pat, s[1..])
  {
    if Occurs(pat, s) {
      var i :| OccursAt(pat, s, i);
      assert i != 0;
      assert s[1..][i - 1..i - 1 + |pat|] == s[i..i + |pat|];
      assert OccursAt(pat, s[1..], i - 1);
    }
    if !Occurs(pat, s) {
      assert [s[0]] + (s[1..] + "") == s;
      OccursInPart(pat, [s[0]], s[1..], "");
    }
  }

  /** A step leaves a text as it is only if it finds nothing. */
  lemma Unshrunk(s: string, pat: string, rep: string)
    requires |rep| < |pat| && |ReplaceAll(s, pat, rep)| >= |s|
    ensures !Occurs(pat, s) && ReplaceAll(s, pat, rep) == s
  {
    hide ReplaceAll, Occurs;
    Shrinks(s, pat, rep);
    ReplaceAbsent(s, pat, rep);
  }

  lemma CleanShrinks(s: string)
    ensures |Clean(s)| <= |s|
  {
    hide ReplaceAll;
    var s1 := ReplaceAll(s, ",,", ",");
    var s2 := ReplaceAll(s1, "{,", "{");
    var s3 := ReplaceAll(s2, ",}", "}");
    var s4 := ReplaceAll(s3, "(,", "(");
    var s5 := ReplaceAll(s4, ",)", ")");
    Shrinks(s, ",,", ",");
    Shrinks(s1, "{,", "{");
    Shrinks(s2, ",}", "}");
    Shrinks(s3, "(,", "(");
    Shrinks(s4, ",)", ")");
    Shrinks(s5, " by ()", "");
    Shrinks(ReplaceAll(s5, " by ()", ""), "{}", "");
  }

  /** Exactly the tidy texts are left as they are. */
  lemma CleanIsExact(s: string)
    ensures Clean(s) == s <==> Tidy(s)
    ensures |Clean(s)| >= |s| ==> Tidy(s)
  {
    hide ReplaceAll, Occurs;
    if |Clean(s)| >= |s| {
      var s1 := ReplaceAll(s, ",,", ",");
      var s2 := ReplaceAll(s1, "{,", "{");
      var s3 := ReplaceAll(s2, ",}", "}");
      var s4 := ReplaceAll(s3, "(,", "(");
      var s5 := ReplaceAll(s4, ",)", ")");
      var s6 := ReplaceAll(s5, " by ()", "");
      Shrinks(s, ",,", ",");
      Shrinks(s1, "{,", "{");
      Shrinks(s2, ",}", "}");
      Shrinks(s3, "(,", "(");
      Shrinks(s4, ",)", ")");
      Shrinks(s5, " by ()", "");
      Shrinks(s6, "{}", "");
      Unshrunk(s, ",,", ",");
      Unshrunk(s1, "{,", "{");
      Unshrunk(s2, ",}", "}");
      Unshrunk(s3, "(,", "(");
      Unshrunk(s4, ",)", ")");
      Unshrunk(s5, " by ()", "");
      Unshrunk(s6, "{}", "");
    }
    if Tidy(s) {
      TidyStays(s);
    }
  }

  // ---------- characters that nothing touches ----------

  const TOUCHED := ",{}() byLNPH"

  /** What a text becomes when the label names are put in and the query is cleaned up. */
  function Through(x: string, names: string): string {
    Clean(ReplaceAll(x, LABEL_NAMES_PLACEHOLDER, names))
  }

  /** A character that no pattern has stays and separates. */
  lemma CleanAround(x: string, c: char, y: string)
    requires c !in ",{}() by"
    ensures Clean(x + ([c] + y)) == Clean(x) + ([c] + Clean(y))
  {
    hide ReplaceAll;
    CleanLabelsAround(x, c, y);
    var x3, y3 := CleanLabels(x), CleanLabels(y);
    hide CleanLabels;
    ReplaceAround(x3, c, y3, "(,", "(");
    var x4, y4 := ReplaceAll(x3, "(,", "("), ReplaceAll(y3, "(,", "(");
    ReplaceAround(x4, c, y4, ",)", ")");
    var x5, y5 := ReplaceAll(x4, ",)", ")"), ReplaceAll(y4, ",)", ")");
    ReplaceAround(x5, c, y5, " by ()", "");
    ReplaceAround(ReplaceAll(x5, " by ()", ""), c, ReplaceAll(y5, " by ()", ""), "{}", "");
  }

  lemma CleanLabelsAround(x: string, c: char, y: string)
    requires c !in ",{}() by"
    ensures CleanLabels(x + ([c] + y)) == CleanLabels(x) + ([c] + CleanLabels(y))
  {
    hide ReplaceAll;
    ReplaceAround(x, c, y, ",,", ",");
    var x1, y1 := ReplaceAll(x, ",,", ","), ReplaceAll(y, ",,", ",");
    ReplaceAround(x1, c, y1, "{,", "{");
    ReplaceAround(ReplaceAll(x1, "{,", "{"), c, ReplaceAll(y1, "{,", "{"), ",}", "}");
  }

  lemma ThroughAround(x: string, c: char, y: string, names: string)
    requires c !in TOUCHED
    ensures Through(x + ([c] + y), names) == Through(x, names) + ([c] + Through(y, names))
  {
    hide ReplaceAll, Clean;
    ReplaceAround(x, c, y, LABEL_NAMES_PLACEHOLDER, names);
    CleanAround(ReplaceAll(x, LABEL_NAMES_PLACEHOLDER, names), c, ReplaceAll(y, LABEL_NAMES_PLACEHOLDER, names));
  }

  lemma {:induction false} CountOf(s: string, t: string, c: char)
    ensures Count(s + t, c) == Count(s, c) + Count(t, c)
  {
    if s == "" {
      assert s + t == t;
    } else {
      assert (s + t)[1..] == s[1..] + t;
      CountOf(s[1..], t, c);
    }
  }

  /** How a replacement changes the number of a character. */
  lemma {:induction false} CountReplaced(s: string, pat: string, rep: string, c: char)
    requires pat != "" && Count(rep, c) <= Count(pat, c)
    ensures Count(ReplaceAll(s, pat, rep), c) <= Count(s, c)
    ensures Count(rep, c) == Count(pat, c) ==> Count(ReplaceAll(s, pat, rep), c) == Count(s, c)
    ensures Count(rep, c) < Count(pat, c) && Occurs(pat, s) ==> Count(ReplaceAll(s, pat, rep), c) < Count(s, c)
    decreases |s|
  {
    hide Occurs;
    if |s| < |pat| {
      assert !Occurs(pat, s) by { TooShort(pat, s); }
    } else if s[..|pat|] == pat {
      CountReplaced(s[|pat|..], pat, rep, c);
      CountOf(rep, ReplaceAll(s[|pat|..], pat, rep), c);
      CountOf(pat, s[|pat|..], c);
      assert pat + s[|pat|..] == s;
    } else {
      CountReplaced(s[1..], pat, rep, c);
      OccursInTail(pat, s);
    }
  }

  lemma TooShort(pat: string, s: string)
    requires |s| < |pat|
    ensures !Occurs(pat, s)
  {
  }

  lemma {:induction false} CountNone(s: string, c: char)
    ensures Count(s, c) == 0 <==> c !in s
  {
    if s == "" {
    } else {
      CountNone(s[1..], c);
    }
  }

  lemma CountKept(s: string, pat: string, rep: string, c: char)
    requires pat != "" && c !in pat && c !in rep
    ensures Count(ReplaceAll(s, pat, rep), c) == Count(s, c)
  {
    hide ReplaceAll, Occurs;
    CountNone(pat, c);
    CountNone(rep, c);
    CountReplaced(s, pat, rep, c);
  }

  lemma CleanKeepsCount(s: string, c: char)
    requires c !in ",{}() by"
    ensures Count(Clean(s), c) == Count(s, c)
  {
    hide ReplaceAll;
    var s1 := ReplaceAll(s, ",,", ",");
    var s2 := ReplaceAll(s1, "{,", "{");
    var s3 := ReplaceAll(s2, ",}", "}");
    var s4 := ReplaceAll(s3, "(,", "(");
    var s5 := ReplaceAll(s4, ",)", ")");
    CountKept(s, ",,", ",", c);
    CountKept(s1, "{,", "{", c);
    CountKept(s2, ",}", "}", c);
    CountKept(s3, "(,", "(", c);
    CountKept(s4, ",)", ")", c);
    CountKept(s5, " by ()", "", c);
    CountKept(ReplaceAll(s5, " by ()", ""), "{}", "", c);
  }

  // ---------- the placeholder of the label names ----------

  /** Label names joined by commas. */
  predicate IsNameList(s: string) {
    && s != "" && s[0] != ',' && s[|s| - 1] != ','
    && (forall i :: 0 <= i < |s| ==> IsLabelNameChar(s[i]) || s[i] == ',')
    && (forall i :: 0 <= i < |s| - 1 ==> s[i] != ',' || s[i + 1] != ',')
  }

  function NoCommas(s: string): (r: string)
    ensures ',' !in r
  {
    if s == "" then "" else (if s[0] == ',' then "" else [s[0]]) + NoCommas(s[1..])
  }

  lemma {:induction false} NoCommasJoin(s: string, t: string)
    ensures NoCommas(s + t) == NoCommas(s) + NoCommas(t)
  {
    if s == "" {
      assert s + t == t;
    } else {
      var u := s + t;
      assert u[0] == s[0] && u[1..] == s[1..] + t;
      NoCommasJoin(s[1..], t);
      var first := if s[0] == ',' then "" else [s[0]];
      assert NoCommas(u) == first + NoCommas(s[1..] + t) && NoCommas(s) == first + NoCommas(s[1..]);
      hide NoCommas;
      Assoc(first, NoCommas(s[1..]), NoCommas(t));
    }
  }

  lemma {:induction false} WithoutCommas(s: string)
    requires ',' !in s
    ensures NoCommas(s) == s
  {
    if s == "" {
    } else {
      WithoutCommas(s[1..]);
    }
  }

  /** A replacement that only moves commas. */
  lemma {:induction false} NoCommasReplaced(s: string, pat: string, rep: string)
    requires pat != "" && NoCommas(rep) == NoCommas(pat)
    ensures NoCommas(ReplaceAll(s, pat, rep)) == NoCommas(s)
    decreases |s|
  {
    if |s| < |pat| {
    } else if s[..|pat|] == pat {
      NoCommasReplaced(s[|pat|..], pat, rep);
      NoCommasJoin(rep, ReplaceAll(s[|pat|..], pat, rep));
      NoCommasJoin(pat, s[|pat|..]);
      assert pat + s[|pat|..] == s;
    } else {
      NoCommasReplaced(s[1..], pat, rep);
    }
  }

  lemma {:induction false} NoCommasLength(s: string, pat: string, rep: string)
    requires pat != ""
    ensures |NoCommas(rep)| >= |NoCommas(pat)| ==> |NoCommas(ReplaceAll(s, pat, rep))| >= |NoCommas(s)|
    ensures |NoCommas(rep)| <= |NoCommas(pat)| ==> |NoCommas(ReplaceAll(s, pat, rep))| <= |NoCommas(s)|
    decreases |s|
  {
    hide NoCommas;
    if |s| < |pat| {
    } else {
      var n := if s[..|pat|] == pat then |pat| else 1;
      var front := if s[..|pat|] == pat then rep else [s[0]];
      NoCommasLength(s[n..], pat, rep);
      NoCommasJoin(front, ReplaceAll(s[n..], pat, rep));
      NoCommasJoin(s[..n], s[n..]);
      assert s[..n] + s[n..] == s && s[..1] == [s[0]];
    }
  }

  /** If no parenthesis and no brace is lost, cleaning only removes commas. */
  lemma OnlyCommas(s: string)
    requires Count(Clean(s), '(') >= Count(s, '(') && Count(Clean(s), '{') >= Count(s, '{')
    ensures NoCommas(Clean(s)) == NoCommas(s)
  {
    hide ReplaceAll, Occurs;
    var s3 := CleanLabels(s);
    var s5 := ReplaceAll(ReplaceAll(s3, "(,", "("), ",)", ")");
    CommaSteps(s);
    var s6 := ReplaceAll(s5, " by ()", "");
    CountReplaced(s5, " by ()", "", '(');
    CountReplaced(s6, "{}", "", '(');
    CountReplaced(s5, " by ()", "", '{');
    CountReplaced(s6, "{}", "", '{');
    ReplaceAbsent(s5, " by ()", "");
    ReplaceAbsent(s5, "{}", "");
  }

  lemma CommaSteps(s: string)
    ensures var s5 := ReplaceAll(ReplaceAll(CleanLabels(s), "(,", "("), ",)", ")");
            && NoCommas(s5) == NoCommas(s)
            && Count(s5, '(') == Count(s, '(') && Count(s5, '{') == Count(s, '{')
  {
    hide ReplaceAll;
    var s1 := ReplaceAll(s, ",,", ",");
    var s2 := ReplaceAll(s1, "{,", "{");
    var s3 := ReplaceAll(s2, ",}", "}");
    var s4 := ReplaceAll(s3, "(,", "(");
    OneStep(s, ",,", ",");
    OneStep(s1, "{,", "{");
    OneStep(s2, ",}", "}");
    OneStep(s3, "(,", "(");
    OneStep(s4, ",)", ")");
  }

  lemma OneStep(s: string, pat: string, rep: string)
    requires (pat == ",," && rep == ",") || (pat == "{," && rep == "{") || (pat == ",}" && rep == "}")
          || (pat == "(," && rep == "(") || (pat == ",)" && rep == ")")
    ensures var r := ReplaceAll(s, pat, rep);
            NoCommas(r) == NoCommas(s) && Count(r, '(') == Count(s, '(') && Count(r, '{') == Count(s, '{')
  {
    hide ReplaceAll;
    assert pat[1..][1..] == "" && rep[1..] == "";
    NoCommasReplaced(s, pat, rep);
    CountReplaced(s, pat, rep, '(');
    CountReplaced(s, pat, rep, '{');
  }

  lemma {:induction false} FirstOccurrence(pat: string, s: string) returns (a: string, b: string)
    requires pat != "" && Occurs(pat, s)
    ensures s == a + (pat + b) && !Occurs(pat, a)
    decreases |s|
  {
    hide Occurs;
    LongEnough(pat, s);
    if s[..|pat|] == pat {
      a, b := "", s[|pat|..];
      TooShort(pat, a);
    } else {
      OccursInTail(pat, s);
      var a1, b1 := FirstOccurrence(pat, s[1..]);
      a, b := [s[0]] + a1, b1;
      assert s == [s[0]] + s[1..];
      if |a| < |pat| {
        TooShort(pat, a);
      } else {
        assert a[..|pat|] == s[..|pat|] && a[1..] == a1;
        OccursInTail(pat, a);
      }
    }
  }

  lemma LongEnough(pat: string, s: string)
    requires Occurs(pat, s)
    ensures |s| >= |pat|
  {
  }

  lemma PlaceholderBorderFree()
    ensures BorderFree(LABEL_NAMES_PLACEHOLDER)
    ensures NoCommas(LABEL_NAMES_PLACEHOLDER) == LABEL_NAMES_PLACEHOLDER
  {
    var p := LABEL_NAMES_PLACEHOLDER;
    forall k | 0 < k < |p| ensures p[k..] != p[..|p| - k] {
      assert p[k..][0] == p[k] && p[..|p| - k][0] == 'L';
    }
    WithoutCommas(p);
  }

  /** The text with the first placeholder replaced. */
  lemma FirstReplaced(x: string, names: string) returns (a: string, b: string)
    requires Occurs(LABEL_NAMES_PLACEHOLDER, x)
    ensures x == a + (LABEL_NAMES_PLACEHOLDER + b)
    ensures ReplaceAll(x, LABEL_NAMES_PLACEHOLDER, names) == a + (names + ReplaceAll(b, LABEL_NAMES_PLACEHOLDER, names))
  {
    hide ReplaceAll, Occurs, BorderFree;
    var p := LABEL_NAMES_PLACEHOLDER;
    a, b := FirstOccurrence(p, x);
    PlaceholderBorderFree();
    ReplaceBetween(a, p, b, names);
  }

  /** A name list that is the placeholder but for its commas has one behind one of the first three letters. */
  lemma CommaBetween(names: string) returns (n1: string, c1: char, c2: char, n2: string)
    requires IsNameList(names) && NoCommas(names) == LABEL_NAMES_PLACEHOLDER && names != LABEL_NAMES_PLACEHOLDER
    ensures names == n1 + ([c1] + ([','] + ([c2] + n2))) && c1 in LABEL_NAMES_PLACEHOLDER && c2 in LABEL_NAMES_PLACEHOLDER
    ensures n1 + ([c1] + [c2]) <= LABEL_NAMES_PLACEHOLDER
  {
    var k := IndexFrom(names, ',', 0);
    assert names[0..] == names;
    if k == -1 {
      WithoutCommas(names);
      assert false;
    }
    n1, c1, c2, n2 := names[..k - 1], names[k - 1], names[k + 1], names[k + 2..];
    assert names[k - 1] != ',' && names[k + 1] != ',';
    CommaAt(names, n1, c1, c2, n2);
  }

  lemma CommaAt(names: string, n1: string, c1: char, c2: char, n2: string)
    requires NoCommas(names) == LABEL_NAMES_PLACEHOLDER && c1 != ',' && c2 != ',' && ',' !in n1
    requires names == n1 + [c1] + [','] + [c2] + n2
    ensures names == n1 + ([c1] + ([','] + ([c2] + n2))) && c1 in LABEL_NAMES_PLACEHOLDER && c2 in LABEL_NAMES_PLACEHOLDER
    ensures n1 + ([c1] + [c2]) <= LABEL_NAMES_PLACEHOLDER
  {
    hide NoCommas;
    var p := LABEL_NAMES_PLACEHOLDER;
    var front := n1 + [c1];
    WithoutCommas(front);
    NoCommasJoin(front, [','] + [c2] + n2);
    NoCommasJoin([','] + [c2], n2);
    assert NoCommas([','] + [c2]) == [c2] by { TwoChars(c2); }
    assert names == front + ([','] + [c2] + n2);
    assert p == front + ([c2] + NoCommas(n2));
    assert p[|n1|] == c1 && p[|front|] == c2;
    assert n1 + ([c1] + [c2]) == p[..|front| + 1];
  }

  lemma TwoChars(c: char)
    requires c != ','
    ensures NoCommas([','] + [c]) == [c]
  {
    assert ([','] + [c])[1..] == [c] && [c][1..] == "";
    assert NoCommas([c]) == [c] + NoCommas("");
  }

  /** Text that cleaning leaves shorter cannot be followed by what a character of it is followed by. */
  lemma CannotShift(x: string, c1: char, c2: char, b: string, y: string)
    requires c1 !in ",{}() by" && c2 != ','
    ensures Clean(x) + ([c1] + ([','] + y)) != x + ([c1] + ([c2] + b))
  {
    hide Clean;
    CleanShrinks(x);
    CleanKeepsCount(x, c1);
    var z := Clean(x);
    var s := x + ([c1] + ([c2] + b));
    assert s[|x| + 1] == c2;
    if z + ([c1] + ([','] + y)) == s {
      assert z == s[..|z|] && s[|z|] == c1 && s[|z| + 1] == ',';
      if |z| < |x| {
        var tail := x[|z|..];
        assert x == z + tail && tail[0] == c1;
        CountOf(z, tail, c1);
        CountNone(tail, c1);
      }
    }
  }

  /** A placeholder in a text shows, unless it is the only label name itself. */
  lemma PlaceholderShows(x: string, names: string)
    requires Occurs(LABEL_NAMES_PLACEHOLDER, x) && IsNameList(names) && names != LABEL_NAMES_PLACEHOLDER
    ensures Through(x, names) != x
  {
    hide Occurs, Clean, ReplaceAll, NoCommas, Count, IsNameList;
    if Through(x, names) == x {
      var a, b := FirstReplaced(x, names);
      SameBrackets(x, names);
      OnlyCommas(ReplaceAll(x, LABEL_NAMES_PLACEHOLDER, names));
      SameLetters(a, names, b);
      CommaShows(a, names, b, ReplaceAll(b, LABEL_NAMES_PLACEHOLDER, names));
    }
  }

  lemma CommaShows(a: string, names: string, b: string, rb: string)
    requires IsNameList(names) && NoCommas(names) == LABEL_NAMES_PLACEHOLDER && names != LABEL_NAMES_PLACEHOLDER
    ensures Clean(a + (names + rb)) != a + (LABEL_NAMES_PLACEHOLDER + b)
  {
    hide Clean, NoCommas, IsNameList;
    var p := LABEL_NAMES_PLACEHOLDER;
    var n1, c1, c2, n2 := CommaBetween(names);
    SplitAtComma(a, n1, c1, c2, n2, rb);
    var q := p[|n1| + 2..];
    assert p == n1 + ([c1] + [c2]) + q;
    CannotShift(a + n1, c1, c2, q + b, Clean([c2] + n2 + rb));
    Regrouped(a, n1, c1, c2, q, b);
  }

  lemma Regrouped(a: string, n1: string, c1: char, c2: char, q: string, b: string)
    ensures a + ((n1 + ([c1] + [c2]) + q) + b) == (a + n1) + ([c1] + ([c2] + (q + b)))
  {
  }

  lemma SameBrackets(x: string, names: string)
    requires IsNameList(names)
    ensures var r := ReplaceAll(x, LABEL_NAMES_PLACEHOLDER, names); Count(r, '(') == Count(x, '(') && Count(r, '{') == Count(x, '{')
  {
    CountKept(x, LABEL_NAMES_PLACEHOLDER, names, '(');
    CountKept(x, LABEL_NAMES_PLACEHOLDER, names, '{');
  }

  lemma SameLetters(a: string, names: string, b: string)
    requires NoCommas(a + (LABEL_NAMES_PLACEHOLDER + b))
          == NoCommas(a + (names + ReplaceAll(b, LABEL_NAMES_PLACEHOLDER, names)))
    ensures NoCommas(names) == LABEL_NAMES_PLACEHOLDER
  {
    hide ReplaceAll, NoCommas;
    var p := LABEL_NAMES_PLACEHOLDER;
    var rb := ReplaceAll(b, p, names);
    NoCommasJoin(a, p + b);
    NoCommasJoin(p, b);
    NoCommasJoin(a, names + rb);
    NoCommasJoin(names, rb);
    PlaceholderBorderFree();
    NoCommasLength(b, p, names);
    SameFront(NoCommas(a), p, NoCommas(b), NoCommas(names), NoCommas(rb));
  }

  lemma SameFront(a: string, p: string, b: string, n: string, rb: string)
    requires a + (p + b) == a + (n + rb)
    requires |n| >= |p| ==> |rb| >= |b|
    requires |n| <= |p| ==> |rb| <= |b|
    ensures n == p
  {
    assert (a + (p + b))[|a|..] == p + b && (a + (n + rb))[|a|..] == n + rb;
    assert |p + b| == |n + rb|;
    assert (p + b)[..|p|] == p && (n + rb)[..|n|] == n;
  }

  lemma SplitAtComma(a: string, n1: string, c1: char, c2: char, n2: string, rb: string)
    requires c1 !in ",{}() by" && c2 !in ",{}() by"
    ensures Clean(a + (n1 + ([c1] + ([','] + ([c2] + n2))) + rb)) == Clean(a + n1) + ([c1] + ([','] + Clean([c2] + n2 + rb)))
  {
    hide Clean;
    var s := n2 + rb;
    assert a + (n1 + ([c1] + ([','] + ([c2] + n2))) + rb) == (a + n1) + ([c1] + ("," + ([c2] + s)));
    assert [c2] + n2 + rb == "" + ([c2] + s);
    CleanAround(a + n1, c1, "," + ([c2] + s));
    CleanAround(",", c2, s);
    CleanAround("", c2, s);
    ShortIsClean();
    assert "," + ([c2] + Clean(s)) == [','] + ("" + ([c2] + Clean(s)));
  }

  lemma ShortIsClean()
    ensures Clean(",") == "," && Clean("") == ""
  {
    hide ReplaceAll;
    ReplaceShort(",", ",,", ",");
    ReplaceShort(",", "{,", "{");
    ReplaceShort(",", ",}", "}");
    ReplaceShort(",", "(,", "(");
    ReplaceShort(",", ",)", ")");
    ReplaceShort(",", " by ()", "");
    ReplaceShort(",", "{}", "");
    CleanShrinks("");
  }

  // ---------- the exact condition ----------

  /** The text comes through: it holds none of the texts that are cleaned up, and not the placeholder,
      unless that is what is put in for it. */
  ghost predicate Kept(x: string, names: string) {
    Tidy(x) && (Occurs(LABEL_NAMES_PLACEHOLDER, x) ==> names == LABEL_NAMES_PLACEHOLDER)
  }

  lemma {:induction false} ReplaceBySelf(s: string, pat: string)
    requires pat != ""
    ensures ReplaceAll(s, pat, pat) == s
    decreases |s|
  {
    if |s| < |pat| {
    } else if s[..|pat|] == pat {
      ReplaceBySelf(s[|pat|..], pat);
    } else {
      ReplaceBySelf(s[1..], pat);
    }
  }

  lemma ThroughIsExact(x: string, names: string)
    requires IsNameList(names)
    ensures Through(x, names) == x <==> Kept(x, names)
  {
    hide ReplaceAll, Occurs, Clean, Tidy;
    CleanIsExact(x);
    if names == LABEL_NAMES_PLACEHOLDER {
      ReplaceBySelf(x, names);
    } else if Occurs(LABEL_NAMES_PLACEHOLDER, x) {
      PlaceholderShows(x, names);
    } else {
      ReplaceAbsent(x, LABEL_NAMES_PLACEHOLDER, names);
    }
  }

  // ---------- characters that do not come from elsewhere ----------

  lemma StepAddsNone(s: string, pat: string, rep: string, c: char)
    requires (pat != "" && rep == "") || (|pat| == 2 && (rep == pat[..1] || rep == pat[1..]))
    ensures Count(ReplaceAll(s, pat, rep), c) <= Count(s, c)
  {
    hide ReplaceAll, Occurs;
    if rep != "" {
      assert pat == [pat[0]] + ([pat[1]] + "");
      CountOf([pat[0]], [pat[1]], c);
      assert pat == [pat[0]] + [pat[1]];
    }
    CountReplaced(s, pat, rep, c);
  }

  lemma CleanAddsNone(s: string, c: char)
    ensures Count(Clean(s), c) <= Count(s, c)
  {
    hide ReplaceAll;
    var s1 := ReplaceAll(s, ",,", ",");
    var s2 := ReplaceAll(s1, "{,", "{");
    var s3 := ReplaceAll(s2, ",}", "}");
    var s4 := ReplaceAll(s3, "(,", "(");
    var s5 := ReplaceAll(s4, ",)", ")");
    StepAddsNone(s, ",,", ",", c);
    StepAddsNone(s1, "{,", "{", c);
    StepAddsNone(s2, ",}", "}", c);
    StepAddsNone(s3, "(,", "(", c);
    StepAddsNone(s4, ",)", ")", c);
    StepAddsNone(s5, " by ()", "", c);
    StepAddsNone(ReplaceAll(s5, " by ()", ""), "{}", "", c);
  }

  lemma ThroughAddsNone(x: string, names: string, c: char)
    requires c !in names && c !in LABEL_NAMES_PLACEHOLDER
    ensures Count(Through(x, names), c) <= Count(x, c)
  {
    hide ReplaceAll, Clean;
    CountKept(x, LABEL_NAMES_PLACEHOLDER, names, c);
    CleanAddsNone(ReplaceAll(x, LABEL_NAMES_PLACEHOLDER, names), c);
  }
}
