/** The part of the query language that the role query is written in: what a query selects among
    node-role samples, and how its text is read. */
module RoleQueries {
  import opened Text
  import opened LabelMatchers

  datatype Op = Equal | Matches | NotMatches

  datatype Query =
    | Select(op: Op, value: string)
    | Or(left: Query, right: Query)
    | UnlessOnNode(left: Query, right: Query)

  /** One node holding one role. */
  datatype Sample = Sample(node: string, role: string)

  /** `=` is string equality, `=~` is membership in the alternatives. */
  predicate Accepts(op: Op, value: string, role: string) {
    match op
    case Equal => role == value
    case Matches => role in Split(value, '|')
    case NotMatches => role !in Split(value, '|')
  }

  /** Samples of a query; `or` matches on all labels and `unless on (node)` on the node. */
  function Eval(q: Query, data: set<Sample>): set<Sample> {
    match q
    case Select(op, value) => set s | s in data && Accepts(op, value, s.role)
    case Or(left, right) => Eval(left, data) + Eval(right, data)
    case UnlessOnNode(left, right) =>
      set s | s in Eval(left, data) && forall t :: t in Eval(right, data) ==> t.node != s.node
  }

  // ---------- reading ----------

  /** The operator in front of a quote, and what follows the quote. */
  function ReadOp(s: string): (r: Option<(Op, string)>)
    ensures r.Some? ==> |r.value.1| < |s|
  {
    if StartsWith(s, "=\"") then Some((Equal, s[2..]))
    else if StartsWith(s, "=~\"") then Some((Matches, s[3..]))
    else if StartsWith(s, "!~\"") then Some((NotMatches, s[3..]))
    else None
  }

  /** The value in front of a closing brace. */
  function ReadValue(op: Op, s: string): (r: Option<(Query, string)>)
    ensures r.Some? ==> |r.value.1| < |s|
  {
    match ReadLiteral(s)
    case None => None
    case Some((value, rest)) => if rest != "" && rest[0] == '}' then Some((Select(op, value), rest[1..])) else None
  }

  /** A selector of role samples, and what follows it. */
  function ReadSelect(s: string): (r: Option<(Query, string)>)
    ensures r.Some? ==> |r.value.1| < |s|
  {
    if !StartsWith(s, "kube_node_role{role") then None
    else
      match ReadOp(s[19..])
      case None => None
      case Some((op, rest)) => ReadValue(op, rest)
  }

  /** A selector, or a query in parentheses. */
  function ReadOperand(s: string): (r: Option<(Query, string)>)
    ensures r.Some? ==> |r.value.1| < |s|
    decreases |s|, 0
  {
    if !StartsWith(s, "(") then ReadSelect(s)
    else
      match ReadOrs(s[1..])
      case None => None
      case Some((q, rest)) => if StartsWith(rest, ")") then Some((q, rest[1..])) else None
  }

  /** Operands joined by `unless`, which binds more tightly than `or`; both group to the left. */
  function ReadUnlesses(s: string): (r: Option<(Query, string)>)
    ensures r.Some? ==> |r.value.1| < |s|
    decreases |s|, 1
  {
    match ReadOperand(s)
    case None => None
    case Some((q, rest)) => MoreUnlesses(q, rest)
  }

  function MoreUnlesses(left: Query, s: string): (r: Option<(Query, string)>)
    ensures r.Some? ==> |r.value.1| <= |s|
    decreases |s|, 0
  {
    if !StartsWith(s, " unless on (node) ") then Some((left, s))
    else
      match ReadOperand(s[18..])
      case None => None
      case Some((q, rest)) => MoreUnlesses(UnlessOnNode(left, q), rest)
  }

  function ReadOrs(s: string): (r: Option<(Query, string)>)
    ensures r.Some? ==> |r.value.1| < |s|
    decreases |s|, 2
  {
    match ReadUnlesses(s)
    case None => None
    case Some((q, rest)) => MoreOrs(q, rest)
  }

  function MoreOrs(left: Query, s: string): (r: Option<(Query, string)>)
    ensures r.Some? ==> |r.value.1| <= |s|
    decreases |s|, 0
  {
    if !StartsWith(s, " or ") then Some((left, s))
    else
      match ReadUnlesses(s[4..])
      case None => None
      case Some((q, rest)) => MoreOrs(Or(left, q), rest)
  }

  /** A query that is the whole text. */
  function ReadQuery(s: string): Option<Query> {
    match ReadOrs(s)
    case None => None
    case Some((q, rest)) => if rest == "" then Some(q) else None
  }
}
