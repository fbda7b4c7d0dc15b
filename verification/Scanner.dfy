/** The quote-aware scanners of the interval rewriter (internal/common/prometheus.go). */
module Scanner {
  import opened Text

  /** What a character means to a scanner: code, literal text, or the character after a backslash. */
  datatype Mode = Code | Quoted | Escaped

  function Next(m: Mode, c: char): Mode {
    match m
    case Code => if c == '"' then Quoted else Code
    case Quoted => if c == '\\' then Escaped else if c == '"' then Code else Quoted
    case Escaped => Quoted
  }

  /** The mode at position `i` of a scan that starts in code at `from`. */
  function ModeAt(s: string, from: nat, i: nat): Mode
    requires from <= i <= |s|
    decreases i
  {
    if i == from then Code else Next(ModeAt(s, from, i - 1), s[i - 1])
  }

  /** Whether position `i` holds the code character `c`. */
  predicate CodeAt(s: string, from: nat, i: nat, c: char)
    requires from <= i < |s|
  {
    s[i] == c && ModeAt(s, from, i) == Code
  }

  /** Parentheses opened minus parentheses closed by the code in s[from..i]. */
  function Depth(s: string, from: nat, i: nat): int
    requires from <= i <= |s|
    decreases i
  {
    if i == from then 0
    else Depth(s, from, i - 1)
         + (if CodeAt(s, from, i - 1, '(') then 1 else if CodeAt(s, from, i - 1, ')') then -1 else 0)
  }

  /** A code `)` at `i` brings the depth, counted from `left`, back to zero. */
  predicate ClosesAt(s: string, left: nat, i: nat)
    requires left <= i < |s|
  {
    CodeAt(s, left, i, ')') && Depth(s, left, i + 1) == 0
  }

  /** A code `[` at `i` outside every parenthesis, with a `]` after it. */
  predicate OpensRangeAt(s: string, i: nat)
    requires i < |s|
  {
    CodeAt(s, 0, i, '[') && Depth(s, 0, i) == 0 && ']' in s[i..]
  }

  /** The least closing position at or after `i`, or -1. */
  function FirstClose(s: string, left: nat, i: nat): (k: int)
    requires left <= i <= |s|
    ensures k == -1 || i <= k < |s|
    ensures k != -1 ==> ClosesAt(s, left, k)
    ensures forall j :: i <= j < (if k == -1 then |s| else k) ==> !ClosesAt(s, left, j)
    decreases |s| - i
  {
    if i == |s| then -1 else if ClosesAt(s, left, i) then i else FirstClose(s, left, i + 1)
  }

  function Matching(s: string, left: nat): (k: int)
    requires left <= |s|
    ensures k == -1 || left <= k < |s|
  {
    FirstClose(s, left, left)
  }

  function FirstOpenRange(s: string, i: nat): (k: int)
    requires i <= |s|
    ensures k == -1 || i <= k < |s|
    ensures k != -1 ==> OpensRangeAt(s, k)
    ensures forall j :: i <= j < (if k == -1 then |s| else k) ==> !OpensRangeAt(s, j)
    decreases |s| - i
  {
    if i == |s| then -1 else if OpensRangeAt(s, i) then i else FirstOpenRange(s, i + 1)
  }

  /** The first code `c` at or after `i`, or -1. */
  function FirstCode(s: string, c: char, i: nat): (k: int)
    requires i <= |s|
    ensures k == -1 || i <= k < |s|
    ensures k != -1 ==> CodeAt(s, 0, k, c)
    ensures forall j :: i <= j < (if k == -1 then |s| else k) ==> !CodeAt(s, 0, j, c)
    decreases |s| - i
  {
    if i == |s| then -1 else if CodeAt(s, 0, i, c) then i else FirstCode(s, c, i + 1)
  }

  /** The last code `c` before `i`, or -1. */
  function LastCode(s: string, c: char, i: nat): (k: int)
    requires i <= |s|
    ensures -1 <= k < i
    ensures k != -1 ==> CodeAt(s, 0, k, c)
    ensures forall j :: k < j < i ==> !CodeAt(s, 0, j, c)
  {
    if i == 0 then -1 else if CodeAt(s, 0, i - 1, c) then i - 1 else LastCode(s, c, i - 1)
  }

  /** `matchingRightParen`: the least position where the depth returns to zero, -1 exactly when there is none. */
  method MatchingRightParen(query: string, left: nat) returns (r: int)
    requires left <= |query|
    ensures r == -1 <==> forall i :: left <= i < |query| ==> !ClosesAt(query, left, i)
    ensures r != -1 ==> left <= r < |query| && ClosesAt(query, left, r)
    ensures r != -1 ==> forall i :: left <= i < r ==> !ClosesAt(query, left, i)
    ensures r == Matching(query, left)
  {
    var depth, inString, i := 0, false, left;
    while i < |query|
      invariant left <= i <= |query| + 1
      invariant forall j :: left <= j < i && j < |query| ==> !ClosesAt(query, left, j)
      invariant i <= |query| ==> ModeAt(query, left, i) == (if inString then Quoted else Code)
      invariant i <= |query| ==> depth == Depth(query, left, i)
    {
      var c := query[i];
      if c == '\\' && inString {
        i := i + 2;
        continue;
      }
      if c == '"' {
        inString := !inString;
        i := i + 1;
        continue;
      }
      if inString {
        i := i + 1;
        continue;
      }
      if c == '(' {
        depth := depth + 1;
      } else if c == ')' {
        depth := depth - 1;
        if depth == 0 {
          assert ClosesAt(query, left, i);
          return i;
        }
      }
      i := i + 1;
    }
    return -1;
  }

  /** `intervalInFunctionBody`: the first range bracket at depth zero and the first `]` after it. */
  method IntervalInFunctionBody(body: string) returns (start: int, end: int)
    ensures start == FirstOpenRange(body, 0)
    ensures end == if start == -1 then -1 else IndexFrom(body, ']', start)
    ensures start == -1 <==> forall i :: 0 <= i < |body| ==> !OpensRangeAt(body, i)
    ensures start != -1 ==> 0 <= start < end < |body| && body[start] == '[' && body[end] == ']'
    ensures start != -1 ==> forall i :: start <= i < end ==> body[i] != ']'
  {
    var parenDepth, inString, i := 0, false, 0;
    while i < |body|
      invariant 0 <= i <= |body| + 1
      invariant forall j :: 0 <= j < i && j < |body| ==> !OpensRangeAt(body, j)
      invariant i <= |body| ==> ModeAt(body, 0, i) == (if inString then Quoted else Code)
      invariant i <= |body| ==> parenDepth == Depth(body, 0, i)
    {
      var c := body[i];
      if c == '\\' && inString {
        i := i + 2;
        continue;
      }
      if c == '"' {
        inString := !inString;
        i := i + 1;
        continue;
      }
      if inString {
        i := i + 1;
        continue;
      }
      if c == '(' {
        parenDepth := parenDepth + 1;
      } else if c == ')' {
        parenDepth := parenDepth - 1;
      } else if c == '[' {
        if parenDepth == 0 {
          var k := IndexFrom(body, ']', i);
          if k > -1 {
            assert OpensRangeAt(body, i);
            return i, k;
          }
        }
      }
      i := i + 1;
    }
    return -1, -1;
  }

  /** `firstRangeStart`: the first `[` outside literals. */
  method FirstRangeStart(expr: string) returns (r: int)
    ensures r == FirstCode(expr, '[', 0)
    ensures r == -1 <==> forall i :: 0 <= i < |expr| ==> !CodeAt(expr, 0, i, '[')
    ensures r != -1 ==> 0 <= r < |expr| && CodeAt(expr, 0, r, '[')
    ensures r != -1 ==> forall i :: 0 <= i < r ==> !CodeAt(expr, 0, i, '[')
  {
    var inString, i := false, 0;
    while i < |expr|
      invariant 0 <= i <= |expr| + 1
      invariant forall j :: 0 <= j < i && j < |expr| ==> !CodeAt(expr, 0, j, '[')
      invariant i <= |expr| ==> ModeAt(expr, 0, i) == (if inString then Quoted else Code)
    {
      var c := expr[i];
      if c == '\\' && inString {
        i := i + 2;
        continue;
      }
      if c == '"' {
        inString := !inString;
        i := i + 1;
        continue;
      }
      if !inString && c == '[' {
        assert CodeAt(expr, 0, i, '[');
        return i;
      }
      i := i + 1;
    }
    return -1;
  }

  /** The selector scan inside `metricNameBeforeRange`: the last `{` outside literals. */
  method LastSelectorStart(s: string) returns (selectorStart: int)
    ensures selectorStart == LastCode(s, '{', |s|)
  {
    var inString, i := false, 0;
    selectorStart := -1;
    while i < |s|
      invariant 0 <= i <= |s| + 1
      invariant selectorStart == LastCode(s, '{', if i <= |s| then i else |s|)
      invariant i <= |s| ==> ModeAt(s, 0, i) == (if inString then Quoted else Code)
    {
      var c := s[i];
      if c == '\\' && inString {
        i := i + 2;
        continue;
      }
      if c == '"' {
        inString := !inString;
        i := i + 1;
        continue;
      }
      if !inString && c == '{' {
        selectorStart := i;
      }
      i := i + 1;
    }
  }
}
