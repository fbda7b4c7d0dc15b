/** Label filters: how their matchers are printed (internal/common/filter.go:183-214), and how a query's
    reader takes printed matchers. */
module LabelMatchers {
  import opened Text
  import opened QueryLabels
  import opened ClusterFilters

  // ---------- label filters ----------

  /** A matcher of a selector: `=`, or `=~` with alternatives. */
  datatype Matcher = Matcher(name: string, regex: bool, text: string)

  function PrintMatcher(m: Matcher): string {
    m.name + (if m.regex then "=~" else "=") + "\"" + m.text + "\""
  }

  /** An absent label reads as the empty text. */
  function Label(s: LabelSet, name: string): string {
    if name in s then s[name] else ""
  }

  function Values(lss: seq<LabelSet>, name: string): (vs: seq<string>)
    ensures |vs| == |lss| && forall i :: 0 <= i < |lss| ==> vs[i] == Label(lss[i], name)
  {
    seq(|lss|, i requires 0 <= i < |lss| => Label(lss[i], name))
  }

  function MatcherOf(lss: seq<LabelSet>, name: string): Matcher {
    Matcher(name, |lss| > 1, Join(Values(lss, name), '|'))
  }

  function Printed(lss: seq<LabelSet>, names: seq<string>): (ps: seq<string>)
    ensures |ps| == |names| && forall i :: 0 <= i < |names| ==> ps[i] == PrintMatcher(MatcherOf(lss, names[i]))
  {
    seq(|names|, i requires 0 <= i < |names| => PrintMatcher(MatcherOf(lss, names[i])))
  }

  /** `calculateFilter`; `names` are the sorted label names of the first label set. */
  method CalculateFilter(lss: seq<LabelSet>, names: seq<string>) returns (labelNames: string, labels: string)
    ensures lss == [] ==> labelNames == "" && labels == ""
    ensures lss != [] ==> labelNames == Join(names, ',') && labels == Join(Printed(lss, names), ',')
  {
    hide Join;
    labelNames, labels := "", "";
    var l := |lss|;
    if l == 0 {
      return;
    }
    var op := if l == 1 then "=" else "=~";
    var lfs: seq<string> := [];
    for i := 0 to |names|
      invariant lfs == Printed(lss, names)[..i]
    {
      var vals: seq<string> := [];
      for j := 0 to l
        invariant vals == Values(lss, names[i])[..j]
      {
        vals := vals + [Label(lss[j], names[i])];
      }
      assert vals == Values(lss, names[i]);
      lfs := lfs + [names[i] + op + "\"" + Join(vals, '|') + "\""];
    }
    assert lfs == Printed(lss, names);
    labelNames, labels := Join(names, ','), Join(lfs, ',');
  }

  // ---------- what filters select ----------

  /** Whether a regular expression, anchored at both ends, matches a text. */
  type Regex = (string, string) -> bool

  const METACHARACTERS := ".+*?()[]{}^$\\"

  /** Of the metacharacters it has at most bars. */
  predicate IsPlainPattern(p: string) {
    forall i :: 0 <= i < |p| ==> p[i] !in METACHARACTERS
  }

  /** What is taken for granted of the engine: such a pattern matches its alternatives. */
  ghost predicate IsEngine(re: Regex) {
    forall p, v :: IsPlainPattern(p) ==> (re(p, v) <==> v in Split(p, '|'))
  }

  predicate Matches(re: Regex, s: LabelSet, m: Matcher) {
    if m.regex then re(m.text, Label(s, m.name)) else Label(s, m.name) == m.text
  }

  // ---------- reading matchers ----------

  predicate IsLabelNameChar(c: char) {
    c == '_' || '0' <= c <= '9' || 'A' <= c <= 'Z' || 'a' <= c <= 'z'
  }

  predicate IsLabelName(s: string) {
    s != "" && !('0' <= s[0] <= '9') && forall i :: 0 <= i < |s| ==> IsLabelNameChar(s[i])
  }

  /** What a backslash and a character stand for in a double-quoted literal. */
  function Unescaped(c: char): Option<char> {
    match c
    case 'a' => Some('\U{0007}')
    case 'b' => Some('\U{0008}')
    case 'f' => Some('\U{000C}')
    case 'n' => Some('\n')
    case 'r' => Some('\r')
    case 't' => Some('\t')
    case 'v' => Some('\U{000B}')
    case '\\' => Some('\\')
    case '"' => Some('"')
    case _ => None
  }

  function Prepend(c: char, r: Option<(string, string)>): Option<(string, string)> {
    match r
    case None => None
    case Some((text, rest)) => Some(([c] + text, rest))
  }

  /** The text of a literal after its opening quote, and what follows the closing one. */
  function ReadLiteral(s: string): (r: Option<(string, string)>)
    ensures r.Some? ==> |r.value.1| < |s|
    decreases |s|
  {
    if s == "" || s[0] == '\n' then None
    else if s[0] == '"' then Some(("", s[1..]))
    else if s[0] != '\\' then Prepend(s[0], ReadLiteral(s[1..]))
    else if |s| < 2 then None
    else
      match Unescaped(s[1])
      case None => None
      case Some(c) => Prepend(c, ReadLiteral(s[2..]))
  }

  function ReadMatcher(s: string): (r: Option<(Matcher, string)>)
    ensures r.Some? ==> |r.value.1| < |s|
  {
    var k := IndexFrom(s, '=', 0);
    if k == -1 || !IsLabelName(s[..k]) then None
    else
      var regex := k + 1 < |s| && s[k + 1] == '~';
      var quote := if regex then k + 2 else k + 1;
      if quote < |s| && s[quote] == '"' then
        match ReadLiteral(s[quote + 1..])
        case None => None
        case Some((text, rest)) => Some((Matcher(s[..k], regex, text), rest))
      else None
  }

  /** The matchers up to a closing brace, and what follows it. A last comma is allowed. */
  function ReadMatchers(s: string): Option<(seq<Matcher>, string)>
    decreases |s|, 1
  {
    if s != "" && s[0] == '}' then Some(([], s[1..])) else ReadsOn(ReadMatcher(s))
  }

  /** How reading goes on after a matcher. */
  function ReadsOn(r: Option<(Matcher, string)>): Option<(seq<Matcher>, string)>
    decreases if r.Some? then |r.value.1| else 0, 0
  {
    match r
    case None => None
    case Some((m, rest)) =>
      if rest == "" then None
      else if rest[0] == '}' then Some(([m], rest[1..]))
      else if rest[0] != ',' then None
      else
        match ReadMatchers(rest[1..])
        case None => None
        case Some((ms, end)) => Some(([m] + ms, end))
  }

  /** A selector that is the whole text: a metric, and its matchers if there are any. */
  function ReadSelector(s: string): Option<(string, seq<Matcher>)> {
    var k := IndexFrom(s, '{', 0);
    if k == -1 then Some((s, []))
    else
      match ReadMatchers(s[k + 1..])
      case None => None
      case Some((ms, end)) => if end == "" then Some((s[..k], ms)) else None
  }

  // ---------- printed matchers are read back ----------

  /** A text that a literal can hold as it is: no quote, no backslash, no line end. */
  predicate IsLiteral(s: string) {
    '"' !in s && '\\' !in s && '\n' !in s
  }

  lemma {:induction false} ReadsLiteral(text: string, t: string)
    requires IsLiteral(text)
    ensures ReadLiteral(text + (['"'] + t)) == Some((text, t))
  {
    var s := text + (['"'] + t);
    if text == "" {
      assert s == ['"'] + t;
      assert s[1..] == t;
    } else {
      assert s[0] == text[0] && s[1..] == text[1..] + (['"'] + t);
      ReadsLiteral(text[1..], t);
      assert [text[0]] + text[1..] == text;
    }
  }

  /** Of a literal that has been closed, or that an escaped quote continues, at most half of the
      backslashes are left; without any it is what was printed. */
  predicate Halved(w: string, d: string) {
    && 2 * Count(d, '\\') <= Count(w, '\\')
    && (Count(w, '\\') == 0 ==> d == w && IsLiteral(w))
  }

  /** How the first quote behind a text without quotes is taken: as the literal's end, or as a part of it. */
  predicate Continued(w: string, d: string, d0: string) {
    d0 + "\"" <= d && '"' !in d0 && 2 * Count(d0, '\\') < Count(w, '\\')
  }

  /** What both say of a reading. */
  predicate Taken(w: string, r: Option<(string, string)>, d0: string) {
    r.Some? ==> ('"' !in r.value.0 && Halved(w, r.value.0)) || Continued(w, r.value.0, d0)
  }

  lemma TakenPlain(c: char, w: string, r: Option<(string, string)>, d0: string)
    requires c != '"' && c != '\\' && c != '\n' && Taken(w, r, d0)
    ensures Taken([c] + w, Prepend(c, r), [c] + d0)
  {
    if r.Some? {
      var d := r.value.0;
      CountMore(c, w);
      CountMore(c, d);
      CountMore(c, d0);
      if Continued(w, d, d0) {
        assert ([c] + d0) + "\"" == [c] + (d0 + "\"");
      }
    }
  }

  lemma CountMore(c: char, s: string)
    ensures Count([c] + s, '\\') == Count(s, '\\') + if c == '\\' then 1 else 0
  {
    assert ([c] + s)[1..] == s;
  }

  lemma TakenEscape(e: char, c: char, w: string, r: Option<(string, string)>, d0: string)
    requires e != '"' && Unescaped(e) == Some(c) && Taken(w, r, d0)
    ensures Taken(['\\', e] + w, Prepend(c, r), [c] + d0)
  {
    if r.Some? {
      var d := r.value.0;
      assert ['\\', e] + w == ['\\'] + ([e] + w);
      CountMore('\\', [e] + w);
      CountMore(e, w);
      CountMore(c, d);
      CountMore(c, d0);
      if Continued(w, d, d0) {
        assert ([c] + d0) + "\"" == [c] + (d0 + "\"");
      }
    }
  }

  lemma {:induction false} ReadToQuote(w: string, t: string) returns (d0: string)
    requires '"' !in w
    ensures Taken(w, ReadLiteral(w + (['"'] + t)), d0)
    decreases |w|
  {
    hide Taken;
    var s := w + (['"'] + t);
    d0 := "";
    if w == "" {
      assert Taken(w, ReadLiteral(s), d0) by { TakenEnd(s, t); }
    } else if w[0] == '\n' {
      assert Taken(w, None, d0) by { TakenNothing(w); }
    } else if w[0] != '\\' {
      var d1 := ReadToQuote(w[1..], t);
      assert s[1..] == w[1..] + (['"'] + t);
      TakenPlain(w[0], w[1..], ReadLiteral(s[1..]), d1);
      d0 := [w[0]] + d1;
      assert [w[0]] + w[1..] == w;
    } else if |w| == 1 {
      assert s[1] == '"' && s[2..] == t;
      TakenOver(w, ReadLiteral(t));
    } else {
      var d1 := ReadToQuote(w[2..], t);
      assert s[2..] == w[2..] + (['"'] + t) && s[1] == w[1];
      if Unescaped(w[1]).Some? {
        TakenEscape(w[1], Unescaped(w[1]).value, w[2..], ReadLiteral(s[2..]), d1);
        d0 := [Unescaped(w[1]).value] + d1;
        assert ['\\', w[1]] + w[2..] == w;
      } else {
        TakenNothing(w);
      }
    }
  }

  lemma TakenNothing(w: string)
    ensures Taken(w, None, "")
  {
  }

  lemma TakenEnd(s: string, t: string)
    requires s == "" + (['"'] + t)
    ensures Taken("", ReadLiteral(s), "")
  {
    assert ReadLiteral(s) == Some(("", s[1..]));
  }

  lemma TakenOver(w: string, r: Option<(string, string)>)
    requires w == "\\"
    ensures Taken(w, Prepend('"', r), "")
  {
    if r.Some? {
      CountMore('\\', "");
      assert w == ['\\'] + "";
      assert Count("", '\\') == 0;
      assert ("" + "\"") <= ['"'] + r.value.0;
    }
  }

  /** A text up to its first quote, and whether there is one. */
  function BeforeQuote(s: string): (w: string)
    ensures w <= s && '"' !in w
    ensures '"' in s ==> w + "\"" <= s
    ensures '"' !in s ==> w == s
  {
    var k := IndexFrom(s, '"', 0);
    assert s[0..] == s;
    if k == -1 then s else assert s[..k + 1] == s[..k] + "\""; s[..k]
  }

  lemma AroundQuote(w: string, t: string) returns (behind: string)
    ensures w + (['"'] + t) == BeforeQuote(w) + (['"'] + behind)
    ensures '"' !in w ==> behind == t
  {
    var w0 := BeforeQuote(w);
    behind := t;
    if '"' in w {
      behind := w[|w0| + 1..] + (['"'] + t);
      assert w == (w0 + "\"") + w[|w0| + 1..];
    }
  }

  /** A literal that was printed as `w` reads as `v` only if it is `v`, and `v` is a text that a literal can
      hold, if quotes and the backslashes before the first one are the same in both. */
  lemma TakenRight(v: string, w: string, t: string)
    requires ('"' in v <==> '"' in w) && Count(BeforeQuote(v), '\\') == Count(BeforeQuote(w), '\\')
    requires var r := ReadLiteral(w + (['"'] + t)); r.Some? && r.value.0 == v
    ensures w == v && IsLiteral(v)
  {
    hide ReadLiteral, Count, BeforeQuote;
    var behind := AroundQuote(w, t);
    var d0 := ReadToQuote(BeforeQuote(w), behind);
    if Continued(BeforeQuote(w), v, d0) {
      SamePrefix(v, d0);
    }
  }

  lemma SamePrefix(v: string, d0: string)
    requires d0 + "\"" <= v && '"' !in d0
    ensures BeforeQuote(v) == d0 && '"' in v
  {
    var w := BeforeQuote(v);
    assert v[|d0|] == (d0 + "\"")[|d0|] == '"';
    assert v[|w|] == (w + "\"")[|w|] == '"';
    assert w == v[..|w|] && d0 == v[..|d0|];
  }

  // ---------- lists of matchers ----------

  /** A text that can stand for a name: it does not end one. */
  predicate IsNameText(s: string) {
    s != "" && '=' !in s && '}' !in s
  }

  function PrintMatchers(ms: seq<Matcher>): string {
    if ms == [] then ""
    else if |ms| == 1 then PrintMatcher(ms[0])
    else PrintMatcher(ms[0]) + ([','] + PrintMatchers(ms[1..]))
  }

  function MatcherBehind(m: Matcher, r: Option<(string, string)>): Option<(Matcher, string)> {
    match r
    case None => None
    case Some((text, rest)) => Some((m.(text := text), rest))
  }

  function Op(m: Matcher): string {
    if m.regex then "=~" else "="
  }

  lemma PrintedParts(m: Matcher, t: string)
    ensures var s := PrintMatcher(m) + t;
            && s == m.name + (Op(m) + (['"'] + (m.text + (['"'] + t))))
            && |m.name| + |Op(m)| < |s|
  {
    assert PrintMatcher(m) == m.name + Op(m) + "\"" + m.text + "\"";
  }

  lemma AtOp(m: Matcher, s: string, u: string)
    requires s == m.name + (Op(m) + (['"'] + u)) && '=' !in m.name
    ensures var k := |m.name|;
            && IndexFrom(s, '=', 0) == k && s[..k] == m.name
            && (m.regex <==> k + 1 < |s| && s[k + 1] == '~')
            && s[k + |Op(m)|] == '"' && s[k + |Op(m)| + 1..] == u
  {
    var k := |m.name|;
    assert s[k] == '=' && forall i :: 0 <= i < k ==> s[i] == m.name[i];
    IndexOfEnd(s, '=', 0, k);
    assert s[k + 1] == (Op(m) + (['"'] + u))[1];
  }

  lemma ReadsMatcher(m: Matcher, t: string)
    requires '=' !in m.name
    ensures ReadMatcher(PrintMatcher(m) + t)
         == if IsLabelName(m.name) then MatcherBehind(m, ReadLiteral(m.text + (['"'] + t))) else None
  {
    hide ReadLiteral, IsLabelName, PrintMatcher, IndexFrom;
    PrintedParts(m, t);
    AtOp(m, PrintMatcher(m) + t, m.text + (['"'] + t));
  }

  /** What follows the text of a matcher that is followed by others. */
  function Behind(ms: seq<Matcher>, t: string): string {
    (if ms == [] then "" else [','] + PrintMatchers(ms)) + (['}'] + t)
  }

  lemma PrintedFirst(ms: seq<Matcher>, t: string)
    requires ms != []
    ensures PrintMatchers(ms) + (['}'] + t) == PrintMatcher(ms[0]) + Behind(ms[1..], t)
  {
    hide PrintMatcher;
    Assoc(PrintMatcher(ms[0]), [','] + PrintMatchers(ms[1..]), ['}'] + t);
    assert "" + (['}'] + t) == ['}'] + t;
  }

  /** What is read of the first of several matchers. */
  lemma ReadsFirst(ms: seq<Matcher>, t: string)
    requires ms != [] && IsNameText(ms[0].name)
    ensures ReadMatchers(PrintMatchers(ms) + (['}'] + t))
         == if IsLabelName(ms[0].name)
            then ReadsOn(MatcherBehind(ms[0], ReadLiteral(ms[0].text + (['"'] + Behind(ms[1..], t))))) else None
  {
    hide ReadLiteral, IsLabelName, PrintMatcher, PrintMatchers, ReadMatcher;
    PrintedFirst(ms, t);
    ReadsMatcher(ms[0], Behind(ms[1..], t));
    NoBraceFirst(ms[0]);
  }

  lemma NoBraceFirst(m: Matcher)
    requires m.name != ""
    ensures PrintMatcher(m) != "" && PrintMatcher(m)[0] == m.name[0]
  {
  }

  /** What is read of the first of several matchers that reads as something else. */
  ghost predicate ReadsAs(m: Matcher, ms: seq<Matcher>, t: string, got: Matcher) {
    && IsLabelName(m.name) && got.name == m.name && got.regex == m.regex
    && var d := ReadLiteral(m.text + (['"'] + Behind(ms, t))); d.Some? && got.text == d.value.0
  }

  predicate Readable(m: Matcher) {
    IsLabelName(m.name) && IsLiteral(m.text)
  }

  lemma LabelNameIsText(s: string)
    requires IsLabelName(s)
    ensures IsNameText(s)
  {
  }

  lemma ReadsReadable(ms: seq<Matcher>, t: string)
    requires ms != [] && Readable(ms[0])
    ensures var r := if |ms| == 1 then Some(([], t)) else ReadMatchers(PrintMatchers(ms[1..]) + (['}'] + t));
            ReadMatchers(PrintMatchers(ms) + (['}'] + t))
            == if r.Some? then Some(([ms[0]] + r.value.0, r.value.1)) else None
  {
    hide ReadLiteral, PrintMatchers, ReadMatchers, IsLabelName, IsLiteral;
    LabelNameIsText(ms[0].name);
    ReadsFirst(ms, t);
    ReadsLiteral(ms[0].text, Behind(ms[1..], t));
    BehindParts(ms[1..], t);
    assert ms[0].(text := ms[0].text) == ms[0];
    assert [ms[0]] + [] == [ms[0]];
  }

  lemma BehindParts(ms: seq<Matcher>, t: string)
    ensures var b := Behind(ms, t);
            b != "" && (if ms == [] then b[0] == '}' && b[1..] == t else b[0] == ',' && b[1..] == PrintMatchers(ms) + (['}'] + t))
  {
    hide PrintMatchers;
    if ms != [] {
      Assoc([','], PrintMatchers(ms), ['}'] + t);
    } else {
      assert Behind(ms, t) == ['}'] + t;
    }
  }

  lemma {:induction false} ReadsUpTo(ms: seq<Matcher>, i: nat, t: string)
    requires i < |ms| && IsNameText(ms[i].name) && forall j :: 0 <= j < i ==> Readable(ms[j])
    ensures var r := ReadMatchers(PrintMatchers(ms) + (['}'] + t));
            r.Some? ==> |r.value.0| > i && ReadsAs(ms[i], ms[i + 1..], t, r.value.0[i])
    decreases |ms|
  {
    hide ReadLiteral, PrintMatchers, ReadMatchers, IsLabelName, IsLiteral, Behind;
    if i == 0 {
      ReadsFirst(ms, t);
    } else {
      ReadsUpTo(ms[1..], i - 1, t);
      ReadsReadable(ms, t);
      assert ms[1..][i..] == ms[i + 1..] && ms[1..][i - 1] == ms[i];
    }
  }

  /** Printed matchers are read back as they are. */
  lemma {:induction false} ReadsAll(ms: seq<Matcher>, t: string)
    requires ms != [] && forall i :: 0 <= i < |ms| ==> Readable(ms[i])
    ensures ReadMatchers(PrintMatchers(ms) + (['}'] + t)) == Some((ms, t))
    decreases |ms|
  {
    hide PrintMatchers, ReadMatchers, Readable;
    ReadsReadable(ms, t);
    if |ms| == 1 {
      assert [ms[0]] + [] == ms;
    } else {
      ReadsAll(ms[1..], t);
      assert [ms[0]] + ms[1..] == ms;
    }
  }

  /** They are exactly if every text is one that a literal can hold. */
  lemma ReadsBackExactly(ms: seq<Matcher>, t: string)
    requires ms != [] && forall i :: 0 <= i < |ms| ==> IsLabelName(ms[i].name)
    ensures ReadMatchers(PrintMatchers(ms) + (['}'] + t)) == Some((ms, t))
       <==> forall i :: 0 <= i < |ms| ==> IsLiteral(ms[i].text)
  {
    hide PrintMatchers, ReadMatchers, IsLabelName, IsLiteral, ReadLiteral, Behind;
    if forall i :: 0 <= i < |ms| ==> IsLiteral(ms[i].text) {
      ReadsAll(ms, t);
    } else {
      var i := FirstUnreadable(ms);
      LabelNameIsText(ms[i].name);
      ReadsUpTo(ms, i, t);
      var d := ReadLiteral(ms[i].text + (['"'] + Behind(ms[i + 1..], t)));
      if d.Some? && d.value.0 == ms[i].text {
        TakenRight(ms[i].text, ms[i].text, Behind(ms[i + 1..], t));
      }
    }
  }

  lemma FirstUnreadable(ms: seq<Matcher>) returns (i: nat)
    requires exists i :: 0 <= i < |ms| && !Readable(ms[i])
    ensures i < |ms| && !Readable(ms[i]) && forall j :: 0 <= j < i ==> Readable(ms[j])
  {
    hide Readable;
    i := 0;
    while Readable(ms[i])
      invariant i < |ms| && (forall j :: 0 <= j < i ==> Readable(ms[j]))
      decreases |ms| - i
    {
      i := i + 1;
    }
  }
}
