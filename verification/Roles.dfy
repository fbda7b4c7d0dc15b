/** The role-priority query compiler and the check that lets it decide (internal/nodegroup/role.go). */
module Roles {
  import opened Text
  import opened LabelMatchers
  import opened RoleQueries

  function OpText(op: Op): string {
    match op
    case Equal => "="
    case Matches => "=~"
    case NotMatches => "!~"
  }

  function Print(q: Query): string {
    match q
    case Select(op, value) => SubRoleQuery(OpText(op), value)
    case Or(left, right) => Print(left) + (" or (" + Print(right) + ")")
    case UnlessOnNode(left, right) => Print(left) + " unless on (node) " + Print(right)
  }

  /** `subRoleQuery`. */
  function SubRoleQuery(op: string, value: string): string {
    "kube_node_role{role" + op + "\"" + value + "\"}"
  }

  /** `roleQueryClause`. */
  function RoleQueryClause(roleOp: string, role: string, prevRolesOp: string, prevRoles: string): string {
    " or (" + (SubRoleQuery(roleOp, role) + " unless on (node) " + SubRoleQuery(prevRolesOp, prevRoles)) + ")"
  }

  // ---------- the compiler ----------

  /** The clauses for the first `n` roles. */
  function Clauses(roles: seq<string>, n: nat): Query
    requires 1 <= n <= |roles|
  {
    if n == 1 then Select(Equal, roles[0])
    else Or(Clauses(roles, n - 1),
            UnlessOnNode(Select(Equal, roles[n - 1]),
                         Select(if n - 1 > 1 then Matches else Equal, Join(roles[..n - 1], '|'))))
  }

  /** All clauses: the operator of the last one is the one the loop ended with. */
  function CoreQuery(roles: seq<string>): Query
    requires roles != []
  {
    var all := Join(roles, '|');
    Or(Clauses(roles, |roles|), UnlessOnNode(Select(NotMatches, all), Select(if |roles| > 2 then Matches else Equal, all)))
  }

  /** `buildCoreQuery`. If a literal can hold the role names, the text is read as a query that gives every
      node its earliest configured role; for two roles see `TwoRolesChoose`. */
  method BuildCoreQuery(roleValues: seq<string>) returns (text: string)
    requires roleValues != []
    ensures text == Print(CoreQuery(roleValues))
    ensures AreLiterals(roleValues) ==> ReadQuery(text) == Some(CoreQuery(roleValues))
    ensures AreLiterals(roleValues) && NoBar(roleValues) && |roleValues| != 2 ==>
              ReadQuery(text).Some? && ChoosesByPriority(ReadQuery(text).value, roleValues)
  {
    hide ReadQuery, ChoosesByPriority, AreLiterals, NoBar, SubRoleQuery;
    var prevRoles, op := roleValues[0], "=";
    text := SubRoleQuery(op, prevRoles);
    for i := 1 to |roleValues|
      invariant prevRoles == Join(roleValues[..i], '|')
      invariant op == if i > 2 then "=~" else "="
      invariant text == Print(Clauses(roleValues, i))
    {
      if i > 1 {
        op := "=~";
      }
      PrintClause(Clauses(roleValues, i), Equal, roleValues[i], if i > 1 then Matches else Equal, prevRoles);
      text := text + RoleQueryClause("=", roleValues[i], op, prevRoles);
      JoinSnoc(roleValues[..i], roleValues[i], '|');
      assert roleValues[..i + 1] == roleValues[..i] + [roleValues[i]];
      prevRoles := prevRoles + ("|" + roleValues[i]);
    }
    assert roleValues[..|roleValues|] == roleValues;
    PrintClause(Clauses(roleValues, |roleValues|), NotMatches, prevRoles, if |roleValues| > 2 then Matches else Equal, prevRoles);
    text := text + RoleQueryClause("!~", prevRoles, op, prevRoles);
    TextChooses(roleValues);
  }

  lemma PrintClause(left: Query, roleOp: Op, role: string, prevOp: Op, prevRoles: string)
    ensures Print(Or(left, UnlessOnNode(Select(roleOp, role), Select(prevOp, prevRoles))))
            == Print(left) + RoleQueryClause(OpText(roleOp), role, OpText(prevOp), prevRoles)
  {
    var clause := UnlessOnNode(Select(roleOp, role), Select(prevOp, prevRoles));
    assert Print(clause)
        == SubRoleQuery(OpText(roleOp), role) + " unless on (node) " + SubRoleQuery(OpText(prevOp), prevRoles);
  }

  // ---------- what the text means ----------

  lemma ReadsSelect(op: Op, value: string, t: string)
    requires IsLiteral(value)
    ensures ReadOperand(SubRoleQuery(OpText(op), value) + t) == Some((Select(op, value), t))
  {
    hide ReadLiteral;
    var s, head := SubRoleQuery(OpText(op), value) + t, "kube_node_role{role";
    var tail := value + (['"'] + (['}'] + t));
    assert s == head + (OpText(op) + (['"'] + tail));
    assert s[0] == 'k' && StartsWith(s, head) && s[19..] == OpText(op) + (['"'] + tail);
    ReadsOp(op, tail);
    ReadsLiteral(value, ['}'] + t);
  }

  lemma ReadsOp(op: Op, t: string)
    ensures ReadOp(OpText(op) + (['"'] + t)) == Some((op, t))
  {
    var s := OpText(op) + (['"'] + t);
    match op
    case Equal => assert s[..2] == "=\"" && s[2..] == t;
    case Matches => assert s[..3] == "=~\"" && s[3..] == t && s[1] == '~';
    case NotMatches => assert s[..3] == "!~\"" && s[3..] == t && s[0] == '!';
  }

  /** What may follow a clause. */
  predicate Follows(t: string) {
    t == "" || StartsWith(t, " or ")
  }

  /** A clause without its ` or `, up to what follows it. */
  lemma ReadsClause(roleOp: Op, role: string, prevOp: Op, prevRoles: string, t: string)
    requires IsLiteral(role) && IsLiteral(prevRoles) && Follows(t)
    ensures var first, second := SubRoleQuery(OpText(roleOp), role), SubRoleQuery(OpText(prevOp), prevRoles);
            ReadUnlesses("(" + (first + " unless on (node) " + second) + ")" + t)
            == Some((UnlessOnNode(Select(roleOp, role), Select(prevOp, prevRoles)), t))
  {
    var first, second := SubRoleQuery(OpText(roleOp), role), SubRoleQuery(OpText(prevOp), prevRoles);
    var clause := UnlessOnNode(Select(roleOp, role), Select(prevOp, prevRoles));
    hide SubRoleQuery, OpText, ReadSelect;
    var behind := second + (")" + t);
    var inner := first + (" unless on (node) " + behind);
    var s := "(" + (first + " unless on (node) " + second) + ")" + t;
    assert s[1..] == inner;
    ReadsSelect(roleOp, role, " unless on (node) " + behind);
    assert (" unless on (node) " + behind)[18..] == behind;
    ReadsSelect(prevOp, prevRoles, ")" + t);
    ReadsPair(inner, Select(roleOp, role), behind, Select(prevOp, prevRoles), t);
    assert (")" + t)[1..] == t;
    ReadsAlone(s, clause, t);
  }

  lemma ReadsPair(inner: string, left: Query, behind: string, right: Query, t: string)
    requires ReadOperand(inner) == Some((left, " unless on (node) " + behind))
    requires ReadOperand(behind) == Some((right, ")" + t))
    ensures ReadOrs(inner) == Some((UnlessOnNode(left, right), ")" + t))
  {
    hide ReadOperand;
    var u := " unless on (node) " + behind;
    assert u[18..] == behind && StartsWith(u, " unless on (node) ");
    assert (")" + t)[0] == ')';
    var clause := UnlessOnNode(left, right);
    assert MoreUnlesses(clause, ")" + t) == Some((clause, ")" + t));
    assert ReadUnlesses(inner) == Some((clause, ")" + t));
  }

  lemma ReadsAlone(s: string, q: Query, t: string)
    requires ReadOperand(s) == Some((q, t)) && Follows(t)
    ensures ReadUnlesses(s) == Some((q, t))
  {
    hide ReadOperand;
    if t != "" {
      assert t[1] == 'o';
    }
  }

  /** One clause more. */
  lemma ReadsOr(text: string, left: Query, roleOp: Op, role: string, prevOp: Op, prevRoles: string, t: string)
    requires IsLiteral(role) && IsLiteral(prevRoles) && Follows(t)
    requires var clause := RoleQueryClause(OpText(roleOp), role, OpText(prevOp), prevRoles) + t;
             ReadOrs(text + clause) == MoreOrs(left, clause)
    ensures ReadOrs(text + RoleQueryClause(OpText(roleOp), role, OpText(prevOp), prevRoles) + t)
            == MoreOrs(Or(left, UnlessOnNode(Select(roleOp, role), Select(prevOp, prevRoles))), t)
  {
    hide ReadOrs, ReadUnlesses, SubRoleQuery, OpText;
    var clause := RoleQueryClause(OpText(roleOp), role, OpText(prevOp), prevRoles);
    var first, second := SubRoleQuery(OpText(roleOp), role), SubRoleQuery(OpText(prevOp), prevRoles);
    Assoc(text, clause, t);
    ReadsClause(roleOp, role, prevOp, prevRoles, t);
    var behind := "(" + (first + " unless on (node) " + second) + ")" + t;
    assert clause + t == " or " + behind;
    assert (" or " + behind)[4..] == behind && StartsWith(" or " + behind, " or ");
  }

  predicate AreLiterals(roles: seq<string>) {
    forall i :: 0 <= i < |roles| ==> IsLiteral(roles[i])
  }

  lemma {:induction false} JoinedLiteral(roles: seq<string>)
    requires AreLiterals(roles)
    ensures IsLiteral(Join(roles, '|'))
  {
    if |roles| > 1 {
      JoinedLiteral(roles[1..]);
    }
  }

  lemma {:induction false} ReadsClauses(roles: seq<string>, n: nat, t: string)
    requires 1 <= n <= |roles| && AreLiterals(roles) && Follows(t)
    ensures ReadOrs(Print(Clauses(roles, n)) + t) == MoreOrs(Clauses(roles, n), t)
    decreases n
  {
    if n == 1 {
      hide ReadOperand;
      ReadsSelect(Equal, roles[0], t);
      ReadsAlone(Print(Clauses(roles, 1)) + t, Select(Equal, roles[0]), t);
    } else {
      hide ReadOrs, MoreOrs, Print, Join, RoleQueryClause, OpText;
      var left, prev, op := Clauses(roles, n - 1), Join(roles[..n - 1], '|'), if n - 1 > 1 then Matches else Equal;
      var clause := RoleQueryClause(OpText(Equal), roles[n - 1], OpText(op), prev);
      JoinedLiteral(roles[..n - 1]);
      PrintClause(left, Equal, roles[n - 1], op, prev);
      ClauseFollows(OpText(Equal), roles[n - 1], OpText(op), prev, t);
      ReadsClauses(roles, n - 1, clause + t);
      ReadsOr(Print(left), left, Equal, roles[n - 1], op, prev, t);
    }
  }

  lemma ClauseFollows(roleOp: string, role: string, prevOp: string, prevRoles: string, t: string)
    ensures Follows(RoleQueryClause(roleOp, role, prevOp, prevRoles) + t)
  {
    hide SubRoleQuery;
    assert (RoleQueryClause(roleOp, role, prevOp, prevRoles) + t)[..4] == " or ";
  }

  /** The text of the core query is read as that query. */
  lemma ReadsCoreQuery(roles: seq<string>)
    requires roles != [] && AreLiterals(roles)
    ensures ReadQuery(Print(CoreQuery(roles))) == Some(CoreQuery(roles))
  {
    hide ReadOrs, Print, Join, RoleQueryClause, OpText, Clauses;
    var left, all, op := Clauses(roles, |roles|), Join(roles, '|'), if |roles| > 2 then Matches else Equal;
    var clause := RoleQueryClause(OpText(NotMatches), all, OpText(op), all);
    JoinedLiteral(roles);
    PrintClause(left, NotMatches, all, op, all);
    ClauseFollows(OpText(NotMatches), all, OpText(op), all, "");
    ReadsClauses(roles, |roles|, clause + "");
    ReadsOr(Print(left), left, NotMatches, all, op, all, "");
    assert Print(left) + clause + "" == Print(CoreQuery(roles));
  }

  // ---------- the priority assignment ----------

  predicate NoBar(roles: seq<string>) {
    forall i :: 0 <= i < |roles| ==> '|' !in roles[i]
  }

  /** The node of `s` holds one of the roles. */
  predicate HoldsOneOf(s: Sample, roles: seq<string>, data: set<Sample>) {
    exists t :: t in data && t.node == s.node && t.role in roles
  }

  /** The sample's role is the earliest of the roles that its node holds. */
  predicate IsEarliest(s: Sample, roles: seq<string>, data: set<Sample>) {
    exists i :: 0 <= i < |roles| && s.role == roles[i] && !HoldsOneOf(s, roles[..i], data)
  }

  /** A sample is chosen when its role is its node's earliest configured role, or when its node holds
      no configured role. */
  predicate Chosen(s: Sample, roles: seq<string>, data: set<Sample>) {
    IsEarliest(s, roles, data) || !HoldsOneOf(s, roles, data)
  }

  lemma SelectsConfigured(roles: seq<string>, data: set<Sample>)
    requires roles != [] && NoBar(roles)
    ensures Eval(Select(Matches, Join(roles, '|')), data) == set s | s in data && s.role in roles
    ensures Eval(Select(NotMatches, Join(roles, '|')), data) == set s | s in data && s.role !in roles
    ensures |roles| == 1 ==> Eval(Select(Equal, Join(roles, '|')), data) == set s | s in data && s.role in roles
  {
    SplitJoin(roles, '|');
  }

  /** One clause: the samples of a role on nodes that hold none of the roles before it. */
  lemma ClauseSelects(role: string, before: seq<string>, op: Op, data: set<Sample>)
    requires before != [] && NoBar(before) && op == (if |before| > 1 then Matches else Equal)
    ensures Eval(UnlessOnNode(Select(Equal, role), Select(op, Join(before, '|'))), data)
            == set s | s in data && s.role == role && !HoldsOneOf(s, before, data)
  {
    SelectsConfigured(before, data);
  }

  /** The clauses for the first `n` roles choose the earliest of them. */
  lemma {:induction false} ClausesChooseEarliest(roles: seq<string>, n: nat, data: set<Sample>)
    requires 1 <= n <= |roles| && NoBar(roles)
    ensures Eval(Clauses(roles, n), data) == set s | s in data && IsEarliest(s, roles[..n], data)
    decreases n
  {
    if n == 1 {
      assert roles[..1] == [roles[0]];
      forall s | s in data ensures IsEarliest(s, [roles[0]], data) <==> s.role == roles[0] {
        assert [roles[0]][..0] == [];
      }
    } else {
      ClausesChooseEarliest(roles, n - 1, data);
      ClauseSelects(roles[n - 1], roles[..n - 1], if n - 1 > 1 then Matches else Equal, data);
      forall s | s in data
        ensures IsEarliest(s, roles[..n], data)
                <==> IsEarliest(s, roles[..n - 1], data)
                     || (s.role == roles[n - 1] && !HoldsOneOf(s, roles[..n - 1], data))
      {
        EarliestOfMore(s, roles, n, data);
      }
    }
  }

  lemma EarliestOfMore(s: Sample, roles: seq<string>, n: nat, data: set<Sample>)
    requires 1 < n <= |roles|
    ensures IsEarliest(s, roles[..n], data)
            <==> IsEarliest(s, roles[..n - 1], data)
                 || (s.role == roles[n - 1] && !HoldsOneOf(s, roles[..n - 1], data))
  {
    forall i | 0 <= i < n ensures roles[..n][..i] == roles[..i] {
    }
    forall i | 0 <= i < n - 1 ensures roles[..n - 1][..i] == roles[..i] {
    }
  }

  /** The compiled query is the priority assignment for one configured role or for three and more. */
  lemma CoreQueryChooses(roles: seq<string>, data: set<Sample>)
    requires NoBar(roles) && (|roles| == 1 || |roles| >= 3)
    ensures Eval(CoreQuery(roles), data) == set s | s in data && Chosen(s, roles, data)
  {
    ClausesChooseEarliest(roles, |roles|, data);
    SelectsConfigured(roles, data);
    assert roles[..|roles|] == roles;
  }

  /** What the query selects are the samples with their node's earliest configured role, and those of nodes
      without one. */
  ghost predicate ChoosesByPriority(q: Query, roles: seq<string>) {
    forall data: set<Sample> :: Eval(q, data) == set s | s in data && Chosen(s, roles, data)
  }

  lemma TextChooses(roles: seq<string>)
    requires roles != []
    ensures AreLiterals(roles) ==> ReadQuery(Print(CoreQuery(roles))) == Some(CoreQuery(roles))
    ensures NoBar(roles) && |roles| != 2 ==> ChoosesByPriority(CoreQuery(roles), roles)
  {
    hide ReadQuery, Print, CoreQuery, Eval, Chosen;
    if AreLiterals(roles) {
      ReadsCoreQuery(roles);
    }
    if NoBar(roles) && |roles| != 2 {
      forall data: set<Sample> ensures Eval(CoreQuery(roles), data) == set s | s in data && Chosen(s, roles, data) {
        CoreQueryChooses(roles, data);
      }
    }
  }

  /** With exactly two configured roles the last clause compares with `=` against both roles joined. */
  lemma TwoRolesEval(roles: seq<string>, data: set<Sample>)
    requires NoBar(roles) && |roles| == 2
    ensures Eval(CoreQuery(roles), data)
            == (set s | s in data && IsEarliest(s, roles, data))
               + set s | s in data && s.role !in roles && !HoldsOneOf(s, [Join(roles, '|')], data)
  {
    hide IsEarliest;
    var joined := Join(roles, '|');
    var last := UnlessOnNode(Select(NotMatches, joined), Select(Equal, joined));
    ClausesChooseEarliest(roles, 2, data);
    SelectsConfigured(roles, data);
    assert roles[..2] == roles;
    assert CoreQuery(roles) == Or(Clauses(roles, 2), last);
    assert Eval(last, data) == set s | s in data && s.role !in roles && !HoldsOneOf(s, [joined], data);
  }

  /** So the query is the priority assignment just when every node with an unconfigured role holds a
      configured one exactly if it holds a role spelled like the two joined by a bar. */
  lemma TwoRolesChoose(roles: seq<string>, data: set<Sample>)
    requires NoBar(roles) && |roles| == 2
    ensures Eval(CoreQuery(roles), data) == (set s | s in data && Chosen(s, roles, data))
            <==> forall s :: s in data && s.role !in roles ==>
                   (HoldsOneOf(s, roles, data) <==> HoldsOneOf(s, [Join(roles, '|')], data))
  {
    TwoRolesEval(roles, data);
    hide IsEarliest, HoldsOneOf, Eval, CoreQuery, Join;
    forall s | s in data
      ensures s.role in roles ==> HoldsOneOf(s, roles, data)
      ensures s.role !in roles ==> !IsEarliest(s, roles, data)
    {
      OwnRoleHeld(s, roles, data);
    }
    var q, chosen := Eval(CoreQuery(roles), data), set s | s in data && Chosen(s, roles, data);
    if q == chosen {
      forall s | s in data && s.role !in roles
        ensures HoldsOneOf(s, roles, data) <==> HoldsOneOf(s, [Join(roles, '|')], data)
      {
        assert s in q <==> s in chosen;
      }
    }
  }

  lemma OwnRoleHeld(s: Sample, roles: seq<string>, data: set<Sample>)
    requires s in data
    ensures s.role in roles ==> HoldsOneOf(s, roles, data)
    ensures s.role !in roles ==> !IsEarliest(s, roles, data)
  {
  }

  /** For roles without bars the condition is that no node mixes configured and unconfigured roles. */
  lemma TwoRolesChooseUnmixed(roles: seq<string>, data: set<Sample>)
    requires NoBar(roles) && |roles| == 2 && forall s :: s in data ==> '|' !in s.role
    ensures Eval(CoreQuery(roles), data) == (set s | s in data && Chosen(s, roles, data))
            <==> !exists s, t :: s in data && t in data && s.node == t.node && s.role in roles && t.role !in roles
  {
    TwoRolesChoose(roles, data);
    var joined := Join(roles, '|');
    assert joined == roles[0] + (['|'] + Join(roles[1..], '|'));
    assert joined[|roles[0]|] == '|';
    forall s ensures !HoldsOneOf(s, [joined], data) {
    }
  }

  /** A node with one configured and one unconfigured role gets both. */
  lemma TwoRolesExample()
    ensures var data := {Sample("n", "a"), Sample("n", "c")};
            Eval(CoreQuery(["a", "b"]), data) != set s | s in data && Chosen(s, ["a", "b"], data)
  {
    var roles, data := ["a", "b"], {Sample("n", "a"), Sample("n", "c")};
    assert Sample("n", "a") in data && Sample("n", "c") in data && "a" in roles && "c" !in roles;
    TwoRolesChooseUnmixed(roles, data);
  }

  // ---------- one role per node ----------

  /** At most one role outside the configured ones occurs. */
  predicate OneUnconfigured(roles: seq<string>, data: set<Sample>) {
    forall s, t :: s in data && t in data && s.role !in roles && t.role !in roles ==> s.role == t.role
  }

  /** Every node with a role gets exactly one. */
  lemma OneRolePerNode(roles: seq<string>, data: set<Sample>, node: string)
    requires OneUnconfigured(roles, data) && exists s :: s in data && s.node == node
    ensures exists s :: s in data && s.node == node && Chosen(s, roles, data)
    ensures forall s, t :: s in data && t in data && s.node == node && t.node == node ==>
              Chosen(s, roles, data) && Chosen(t, roles, data) ==> s == t
  {
    var s :| s in data && s.node == node;
    if HoldsOneOf(s, roles, data) {
      var t := EarliestExists(s, roles, |roles|, data);
    }
    forall s, t | s in data && t in data && s.node == t.node == node && Chosen(s, roles, data) && Chosen(t, roles, data)
      ensures s == t
    {
      ChosenUnique(s, t, roles, data);
    }
  }

  lemma {:induction false} EarliestExists(s: Sample, roles: seq<string>, n: nat, data: set<Sample>) returns (t: Sample)
    requires n <= |roles| && HoldsOneOf(s, roles[..n], data)
    ensures t in data && t.node == s.node && IsEarliest(t, roles, data)
    decreases n
  {
    if HoldsOneOf(s, roles[..n - 1], data) {
      t := EarliestExists(s, roles, n - 1, data);
    } else {
      t :| t in data && t.node == s.node && t.role in roles[..n];
      assert t.role == roles[n - 1];
    }
  }

  lemma ChosenUnique(s: Sample, t: Sample, roles: seq<string>, data: set<Sample>)
    requires s in data && t in data && s.node == t.node && OneUnconfigured(roles, data)
    requires Chosen(s, roles, data) && Chosen(t, roles, data)
    ensures s == t
  {
    if HoldsOneOf(s, roles, data) {
      var i :| 0 <= i < |roles| && s.role == roles[i] && !HoldsOneOf(s, roles[..i], data);
      var j :| 0 <= j < |roles| && t.role == roles[j] && !HoldsOneOf(t, roles[..j], data);
      EarlierHolds(s, t, roles, i, j, data);
      EarlierHolds(t, s, roles, j, i, data);
    }
  }

  lemma EarlierHolds(s: Sample, t: Sample, roles: seq<string>, i: nat, j: nat, data: set<Sample>)
    requires s in data && s.node == t.node && i < |roles| && j < |roles| && s.role == roles[i]
    ensures i < j ==> HoldsOneOf(t, roles[..j], data)
  {
    if i < j {
      assert roles[..j][i] == s.role;
    }
  }

  // ---------- the check before the query is used ----------

  class RoleEngine {
    const configuredRoles: seq<string>
    const coreQuery: string
    var queryForRole: bool
    var featureClusters: set<string>

    /** `ensureRoleEngine`. */
    constructor (roleList: string)
      ensures configuredRoles == Split(roleList, ',') && coreQuery == Print(CoreQuery(configuredRoles))
      ensures !queryForRole && featureClusters == {}
    {
      configuredRoles := Split(roleList, ',');
      var query := BuildCoreQuery(Split(roleList, ','));
      coreQuery := query;
      queryForRole, featureClusters := false, {};
    }

    /** `detectRoles` on the roles that occur in a cluster, one row a role; rows may lack the label. A
        cluster is accepted if it has rows, and no two of them with a role that is not configured. */
    method DetectRoles(cluster: string, result: seq<Option<string>>)
      modifies this
      ensures var accepted := result != []
                && !exists i, j :: 0 <= i < j < |result| && result[i].Some? && result[i].value !in configuredRoles
                                   && result[j].Some? && result[j].value !in configuredRoles;
              && queryForRole == (old(queryForRole) || accepted)
              && featureClusters == old(featureClusters) + (if accepted then {cluster} else {})
    {
      if |result| > 0 {
        var missingRoles: seq<string> := [];
        ghost var at: seq<nat> := [];
        for i := 0 to |result|
          invariant |missingRoles| == |at| && CountsUnconfigured(at, configuredRoles, result, i)
        {
          match result[i]
          case None =>
          case Some(role) =>
            if role !in configuredRoles {
              missingRoles, at := missingRoles + [role], at + [i];
            }
        }
        OneIsAtMostOne(at, configuredRoles, result);
        AtMostOneMeans(configuredRoles, result);
        if |missingRoles| <= 1 {
          featureClusters := featureClusters + {cluster};
          queryForRole := true;
        }
      }
    }
  }

  /** The row carries a role that is not configured. */
  predicate Unconfigured(configured: seq<string>, row: Option<string>) {
    row.Some? && row.value !in configured
  }

  predicate AtMostOneUnconfigured(configured: seq<string>, result: seq<Option<string>>) {
    !exists i, j :: 0 <= i < j < |result| && Unconfigured(configured, result[i]) && Unconfigured(configured, result[j])
  }

  lemma AtMostOneMeans(configured: seq<string>, result: seq<Option<string>>)
    ensures AtMostOneUnconfigured(configured, result)
            <==> !exists i, j :: 0 <= i < j < |result| && result[i].Some? && result[i].value !in configured
                                 && result[j].Some? && result[j].value !in configured
  {
    if i, j :| 0 <= i < j < |result| && result[i].Some? && result[i].value !in configured
               && result[j].Some? && result[j].value !in configured {
      assert Unconfigured(configured, result[i]) && Unconfigured(configured, result[j]);
    }
  }

  /** The increasing positions of such rows among the first `n`. */
  ghost predicate CountsUnconfigured(at: seq<nat>, configured: seq<string>, result: seq<Option<string>>, n: nat)
    requires n <= |result|
  {
    && (forall i :: 0 <= i < n && Unconfigured(configured, result[i]) ==> i in at)
    && (forall k :: 0 <= k < |at| ==> at[k] < n && Unconfigured(configured, result[at[k]]))
    && (forall j, k :: 0 <= j < k < |at| ==> at[j] < at[k])
  }

  lemma OneIsAtMostOne(at: seq<nat>, configured: seq<string>, result: seq<Option<string>>)
    requires CountsUnconfigured(at, configured, result, |result|)
    ensures |at| <= 1 <==> AtMostOneUnconfigured(configured, result)
  {
    if |at| > 1 {
      assert at[0] < at[1] && Unconfigured(configured, result[at[0]]) && Unconfigured(configured, result[at[1]]);
    }
  }

  /** When the check accepts a cluster whose roles are all among the rows, the query gives every node
      of the cluster exactly one role. */
  lemma AcceptedMeansOneRole(roles: seq<string>, result: seq<Option<string>>, data: set<Sample>, node: string)
    requires NoBar(roles) && (|roles| == 1 || |roles| >= 3)
    requires !exists i, j :: 0 <= i < j < |result| && result[i].Some? && result[i].value !in roles
                             && result[j].Some? && result[j].value !in roles
    requires forall s :: s in data ==> Some(s.role) in result
    requires exists s :: s in data && s.node == node
    ensures exists s :: s in Eval(CoreQuery(roles), data) && s.node == node
    ensures var answer := Eval(CoreQuery(roles), data);
            forall s, t :: s in answer && t in answer && s.node == node && t.node == node ==> s == t
  {
    AtMostOneMeans(roles, result);
    forall s, t | s in data && t in data && s.role !in roles && t.role !in roles ensures s.role == t.role {
      SameUnconfigured(roles, result, s.role, t.role);
    }
    CoreQueryChooses(roles, data);
    OneRolePerNode(roles, data, node);
  }

  lemma SameUnconfigured(configured: seq<string>, result: seq<Option<string>>, role: string, other: string)
    requires AtMostOneUnconfigured(configured, result)
    requires Some(role) in result && Some(other) in result && role !in configured && other !in configured
    ensures role == other
  {
    var i :| 0 <= i < |result| && result[i] == Some(role);
    var j :| 0 <= j < |result| && result[j] == Some(other);
    assert Unconfigured(configured, result[i]) && Unconfigured(configured, result[j]);
  }
}
