/** Which metric name the rewriter recovers in front of a range (internal/common/prometheus.go:716-746). */
module MetricNames {
  import opened Text
  import opened Scanner
  import opened Rewriter
  import opened QueryTree
  import opened TreePasses

  /** A metric name without `:`, which the recovery takes for a delimiter. */
  predicate IsMetricName(s: string) {
    s != [] && forall i :: 0 <= i < |s| ==> IsNameChar(s[i]) && s[i] != ':'
  }

  /** Label matchers: balanced literals, and no brace outside them. */
  predicate IsLabelText(s: string) {
    ModeAt(s, 0, |s|) == Code && forall i :: 0 <= i < |s| ==> !CodeAt(s, 0, i, '{')
  }

  /** A selector: a name, possibly with label matchers in braces. */
  function Selector(name: string, labels: Option<string>): string {
    match labels
    case None => name
    case Some(text) => name + ("{" + text + "}")
  }

  /** A text in front of a selector: it ends outside literals, in a delimiter unless it is empty. */
  predicate IsLeadIn(s: string) {
    ModeAt(s, 0, |s|) == Code && (s != [] ==> s[|s| - 1] in " \t(,+-*/%^:")
  }

  lemma {:induction false} ModeOfSuffix(a: string, b: string, i: nat)
    requires i <= |b| && ModeAt(a, 0, |a|) == Code
    ensures ModeAt(a + b, 0, |a| + i) == ModeAt(b, 0, i)
    decreases i
  {
    if i == 0 {
      ModeOfPrefix(a, b, |a|);
    } else {
      ModeOfSuffix(a, b, i - 1);
    }
  }

  lemma {:induction false} ModeOfPrefix(a: string, b: string, i: nat)
    requires i <= |a|
    ensures ModeAt(a + b, 0, i) == ModeAt(a, 0, i)
    decreases i
  {
    if i == 0 {
    } else {
      ModeOfPrefix(a, b, i - 1);
    }
  }

  lemma {:induction false} NameMode(name: string, i: nat)
    requires i <= |name| && forall k :: 0 <= k < |name| ==> IsNameChar(name[k])
    ensures ModeAt(name, 0, i) == Code
    decreases i
  {
    if i == 0 {
    } else {
      NameMode(name, i - 1);
    }
  }

  /** Trimming on the left keeps a lead-in one. */
  lemma {:induction false} TrimLeadIn(pre: string, s: string)
    requires IsLeadIn(pre) && s != [] && !IsSpace(s[0])
    ensures IsLeadIn(TrimLeft(pre)) && TrimLeft(pre + s) == TrimLeft(pre) + s
    decreases |pre|
  {
    if pre == [] {
      assert pre + s == s;
    } else if IsSpace(pre[0]) {
      assert (pre + s)[1..] == pre[1..] + s;
      assert pre == [pre[0]] + pre[1..];
      ModeOfSuffix([pre[0]], pre[1..], |pre| - 1);
      TrimLeadIn(pre[1..], s);
    }
  }

  lemma {:induction false} LastCodeIs(s: string, c: char, i: nat, k: nat)
    requires k < i <= |s| && CodeAt(s, 0, k, c)
    requires forall j :: k < j < i ==> !CodeAt(s, 0, j, c)
    ensures LastCode(s, c, i) == k
  {
    if i - 1 != k {
      LastCodeIs(s, c, i - 1, k);
    }
  }

  /** The selector start of `pre name{labels}` is its opening brace. */
  lemma SelectorStart(pre: string, labels: string)
    requires ModeAt(pre, 0, |pre|) == Code && IsLabelText(labels)
    ensures var s := pre + ("{" + labels + "}"); LastCode(s, '{', |s|) == |pre|
  {
    var brace := "{" + labels + "}";
    var s := pre + brace;
    assert ModeAt(brace, 0, 1) == Code;
    forall j | 0 <= j <= |labels| ensures ModeAt(s, 0, |pre| + 1 + j) == ModeAt(labels, 0, j) {
      assert "{" + (labels + "}") == brace;
      ModeOfSuffix(pre, brace, 1 + j);
      ModeOfSuffix("{", labels + "}", j);
      ModeOfPrefix(labels, "}", j);
    }
    ModeOfSuffix(pre, brace, 0);
    forall j | |pre| < j < |s| ensures !CodeAt(s, 0, j, '{') {
      var i := j - |pre| - 1;
      if i < |labels| {
        assert s[j] == labels[i] && ModeAt(s, 0, |pre| + 1 + i) == ModeAt(labels, 0, i);
        assert !CodeAt(labels, 0, i, '{');
      }
    }
    LastCodeIs(s, '{', |s|, |pre|);
  }

  /** After the selector is cut off, the name is what follows the last delimiter. */
  lemma NameAfterDelimiter(pre: string, name: string)
    requires IsLeadIn(pre) && IsMetricName(name)
    ensures var s := pre + name; s[LastIndexAny(s, NAME_DELIMITERS) + 1..] == name
  {
    var s := pre + name;
    var k := LastIndexAny(s, NAME_DELIMITERS);
    forall i | |pre| <= i < |s| ensures s[i] !in NAME_DELIMITERS {
      NotDelimiter(name[i - |pre|]);
    }
    assert k == |pre| - 1 by {
      if pre != [] {
        assert s[|pre| - 1] == pre[|pre| - 1];
      }
    }
  }

  lemma NotDelimiter(c: char)
    requires IsNameChar(c) && c != ':'
    ensures c !in NAME_DELIMITERS && !IsSpace(c) && c != '{' && c != '}'
  {
  }

  lemma TrimSelector(pre: string, name: string, labels: Option<string>)
    requires IsLeadIn(pre) && IsMetricName(name)
    ensures IsLeadIn(TrimLeft(pre))
    ensures Trim(pre + Selector(name, labels)) == TrimLeft(pre) + Selector(name, labels)
  {
    var selector := Selector(name, labels);
    NotDelimiter(name[0]);
    NotDelimiter(name[|name| - 1]);
    assert selector[0] == name[0];
    assert !IsSpace(selector[|selector| - 1]);
    TrimLeadIn(pre, selector);
  }

  lemma EndsInBrace(t: string)
    requires t != []
    ensures EndsWith(t, "}") <==> t[|t| - 1] == '}'
  {
    assert t[|t| - 1..] == [t[|t| - 1]];
  }

  /** Cutting the trimmed text `lead selector` where its labels start leaves `lead name`. */
  lemma CutSelector(lead: string, name: string, labels: Option<string>)
    requires IsLeadIn(lead) && IsMetricName(name) && (labels.Some? ==> IsLabelText(labels.value))
    ensures var t := lead + Selector(name, labels);
            && EndsWith(t, "}") == labels.Some?
            && (labels.Some? ==> LastCode(t, '{', |t|) == |lead + name|)
            && t[..|lead + name|] == lead + name
  {
    hide ModeAt, IsLabelText, LastCode, EndsWith;
    var t := lead + Selector(name, labels);
    EndsInBrace(t);
    match labels
    case None =>
      NotDelimiter(name[|name| - 1]);
      assert t[|t| - 1] == name[|name| - 1];
    case Some(text) =>
      NameMode(name, |name|);
      ModeOfSuffix(lead, name, |name|);
      Assoc(lead, name, "{" + text + "}");
      assert t == (lead + name) + ("{" + text + "}");
      SelectorStart(lead + name, text);
      assert t[|t| - 1] == '}';
  }

  /** In front of a range, the selector's own metric name is recovered. */
  lemma NameOfSelector(pre: string, name: string, labels: Option<string>)
    requires IsLeadIn(pre) && IsMetricName(name) && (labels.Some? ==> IsLabelText(labels.value))
    ensures NameAtEnd(pre + Selector(name, labels)) == name
  {
    hide IsLeadIn, IsMetricName, IsLabelText, Selector, ModeAt, Trim, Before, EndsWith;
    var lead := TrimLeft(pre);
    TrimSelector(pre, name, labels);
    CutSelector(lead, name, labels);
    NameAfterDelimiter(lead, name);
    NameAlone(name);
    assert labels.None? ==> lead + Selector(name, labels) == lead + name by { NoLabels(name, labels); }
  }

  lemma NoLabels(name: string, labels: Option<string>)
    ensures labels.None? ==> Selector(name, labels) == name
  {
  }

  lemma NameAlone(name: string)
    requires IsMetricName(name)
    ensures Trim(Before(name, '{')) == name
  {
    forall i | 0 <= i < |name| ensures name[i] != '{' && !IsSpace(name[i]) {
      NotDelimiter(name[i]);
    }
    TrimIdentity(name);
  }

  /** A call whose body names a metric before its first range is adjusted for that metric. */
  lemma MetricOfSelector(body: Query, pre: string, name: string, labels: Option<string>)
    requires IsLeadIn(pre) && IsMetricName(name) && (labels.Some? ==> IsLabelText(labels.value))
    requires ToFirstRange(BeforeOwn(body)) == pre + Selector(name, labels)
    ensures Metric(body) == name && MetricNamed(body)
  {
    NameOfSelector(pre, name, labels);
  }
}
