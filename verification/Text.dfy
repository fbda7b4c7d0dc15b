/** The few string operations of Go's `strings` package, and facts about collections, that the models
    share.
    A `char` stands for one byte of an ASCII text. */
module Text {

  datatype Option<+T> = None | Some(value: T)

  predicate IsSpace(c: char) {
    c == ' ' || c == '\t' || c == '\n' || c == '\r' || c == 11 as char || c == 12 as char
  }

  function TrimLeft(s: string): string {
    if s != [] && IsSpace(s[0]) then TrimLeft(s[1..]) else s
  }

  function TrimRight(s: string): string {
    if s != [] && IsSpace(s[|s| - 1]) then TrimRight(s[..|s| - 1]) else s
  }

  function Trim(s: string): string {
    TrimRight(TrimLeft(s))
  }

  /** Trimming takes the blanks off both ends and nothing else. */
  lemma TrimTakesBlanks(s: string) returns (a: string, b: string)
    ensures s == a + (Trim(s) + b) && AreBlanks(a) && AreBlanks(b)
    ensures var t := Trim(s); t != "" ==> !AreBlanks(t[..1]) && !AreBlanks(t[|t| - 1..])
  {
    a := TrimmedLeft(s);
    b := TrimmedRight(TrimLeft(s));
    if Trim(s) != "" {
      assert Trim(s)[0] == TrimLeft(s)[0];
    }
  }

  /** Space, tab, line feed, vertical tab, form feed or carriage return. */
  predicate AreBlanks(s: string) {
    forall i :: 0 <= i < |s| ==> s[i] as int == 32 || 9 <= s[i] as int <= 13
  }

  lemma {:induction false} TrimmedLeft(s: string) returns (a: string)
    ensures s == a + TrimLeft(s) && AreBlanks(a) && (TrimLeft(s) != "" ==> !AreBlanks(TrimLeft(s)[..1]))
  {
    a := "";
    if s != "" && IsSpace(s[0]) {
      var rest := TrimmedLeft(s[1..]);
      a := [s[0]] + rest;
    } else if s != "" {
      assert s[..1][0] == s[0];
    }
  }

  lemma {:induction false} TrimmedRight(s: string) returns (b: string)
    ensures s == TrimRight(s) + b && AreBlanks(b)
    ensures var t := TrimRight(s); t != "" ==> !AreBlanks(t[|t| - 1..])
    decreases |s|
  {
    b := "";
    if s != "" && IsSpace(s[|s| - 1]) {
      var rest := TrimmedRight(s[..|s| - 1]);
      b := rest + [s[|s| - 1]];
      assert s == s[..|s| - 1] + [s[|s| - 1]];
    } else if s != "" {
      assert s[|s| - 1..][0] == s[|s| - 1];
    }
  }

  predicate StartsWith(s: string, prefix: string) {
    prefix <= s
  }

  predicate EndsWith(s: string, suffix: string) {
    |suffix| <= |s| && s[|s| - |suffix|..] == suffix
  }

  /** The first index at or after `from` that holds `c`, or -1. */
  function IndexFrom(s: string, c: char, from: nat): (k: int)
    requires from <= |s|
    ensures k == -1 <==> c !in s[from..]
    ensures k != -1 ==> from <= k < |s| && s[k] == c && forall i :: from <= i < k ==> s[i] != c
    decreases |s| - from
  {
    if from == |s| then -1 else if s[from] == c then from else IndexFrom(s, c, from + 1)
  }

  lemma {:induction false} IndexOfEnd(s: string, c: char, i: nat, j: nat)
    requires i <= j < |s| && s[j] == c
    requires forall k :: i <= k < j ==> s[k] != c
    ensures IndexFrom(s, c, i) == j
    decreases j - i
  {
    if i < j {
      IndexOfEnd(s, c, i + 1, j);
    }
  }

  /** The last index that holds one of `chars`, or -1. */
  function LastIndexAny(s: string, chars: string): (k: int)
    ensures -1 <= k < |s|
    ensures k != -1 ==> s[k] in chars
    ensures forall i :: k < i < |s| ==> s[i] !in chars
  {
    if s == [] then -1
    else if s[|s| - 1] in chars then |s| - 1
    else LastIndexAny(s[..|s| - 1], chars)
  }

  /** Everything before the first `c`, or the whole text: `strings.Split(s, c)[0]`. */
  function Before(s: string, c: char): string {
    var k := IndexFrom(s, c, 0);
    if k == -1 then s else s[..k]
  }

  /** A text without outer white space is its own trimming. */
  lemma TrimIdentity(s: string)
    requires s == [] || (!IsSpace(s[0]) && !IsSpace(s[|s| - 1]))
    ensures Trim(s) == s
  {
  }

  lemma Assoc<T>(a: seq<T>, b: seq<T>, c: seq<T>)
    ensures a + b + c == a + (b + c)
  {
  }

  lemma Assoc4<T>(a: seq<T>, b: seq<T>, c: seq<T>, d: seq<T>)
    ensures a + b + c + d == a + (b + (c + d))
    ensures a + (b + c) + d == a + (b + (c + d))
  {
    Assoc(a + b, c, d);
    Assoc(a, b, c + d);
    Assoc(a, b, c);
  }

  /** `strings.Join` with a one-character separator. */
  function Join(parts: seq<string>, sep: char): string {
    if parts == [] then ""
    else if |parts| == 1 then parts[0]
    else parts[0] + ([sep] + Join(parts[1..], sep))
  }

  /** `strings.Split` at a character. */
  function Split(s: string, sep: char): (parts: seq<string>)
    ensures parts != []
    decreases |s|
  {
    var k := IndexFrom(s, sep, 0);
    if k == -1 then [s] else [s[..k]] + Split(s[k + 1..], sep)
  }

  lemma SplitFirst(part: string, rest: string, sep: char)
    requires sep !in part
    ensures Split(part + ([sep] + rest), sep) == [part] + Split(rest, sep)
    ensures Split(part, sep) == [part]
  {
    var s := part + ([sep] + rest);
    assert s[|part|] == sep && s[..|part|] == part && s[|part| + 1..] == rest;
    assert s[0..][|part|] == sep;
    forall i | 0 <= i < |part| ensures s[i] != sep {
      assert s[i] == part[i];
    }
  }

  /** A text cut at its first `c`. */
  lemma CutAt(s: string, c: char) returns (part: string, rest: string)
    requires c in s
    ensures c !in part && s == part + ([c] + rest) && |rest| < |s|
  {
    assert s[0..] == s;
    var k := IndexFrom(s, c, 0);
    part, rest := s[..k], s[k + 1..];
  }

  /** Splitting undoes joining when no part holds the separator. */
  lemma {:induction false} SplitJoin(parts: seq<string>, sep: char)
    requires parts != [] && forall i :: 0 <= i < |parts| ==> sep !in parts[i]
    ensures Split(Join(parts, sep), sep) == parts
  {
    var first, rest := parts[0], parts[1..];
    assert parts == [first] + rest;
    if |parts| == 1 {
      assert Join(parts, sep) == first;
      hide Split, Join;
      SplitFirst(first, "", sep);
      assert parts == [first];
    } else {
      hide Split, Join;
      SplitJoin(rest, sep);
      JoinCons(first, rest, sep);
      SplitFirst(first, Join(rest, sep), sep);
    }
  }

  lemma JoinCons(part: string, parts: seq<string>, sep: char)
    requires parts != []
    ensures Join([part] + parts, sep) == part + ([sep] + Join(parts, sep))
  {
    assert ([part] + parts)[1..] == parts;
  }

  /** Joining undoes splitting. */
  lemma {:induction false} JoinSplit(s: string, sep: char)
    ensures Join(Split(s, sep), sep) == s
    decreases |s|
  {
    var k := IndexFrom(s, sep, 0);
    if k != -1 {
      JoinSplit(s[k + 1..], sep);
      JoinCons(s[..k], Split(s[k + 1..], sep), sep);
      assert s == s[..k] + ([sep] + s[k + 1..]);
    }
  }

  /** Joining one part more. */
  lemma {:induction false} JoinSnoc(parts: seq<string>, part: string, sep: char)
    requires parts != []
    ensures Join(parts + [part], sep) == Join(parts, sep) + ([sep] + part)
  {
    if |parts| > 1 {
      JoinSnoc(parts[1..], part, sep);
      assert (parts + [part])[1..] == parts[1..] + [part];
      Assoc4(parts[0], [sep], Join(parts[1..], sep), [sep] + part);
    }
  }

  // ---------- collections ----------

  predicate Distinct<T(==)>(xs: seq<T>) {
    forall i, j :: 0 <= i < j < |xs| ==> xs[i] != xs[j]
  }

  lemma SubsetSize<T>(a: set<T>, b: set<T>)
    requires a <= b
    ensures |a| <= |b|
  {
    assert b == a + (b - a);
  }
}
