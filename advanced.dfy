/** The filter-tree compiler behind `POST /api/advanced/search`
    (src/routes/advanced.js). A tree of rules and nested groups becomes a SQL
    boolean expression over the `patents` table plus a map of named
    parameters; a shared counter names the parameters `p1, p2, ...`.
    Malformed input degrades to `1=1` and never fails. */
module AdvancedSearch {
  import opened Js
  import opened Text
  import Paging

  // ---------------------------------------------------------------------------
  // Input

  /** One element of a `rules` array. An element whose `rules` member is
      truthy is a group (`Subtree`); every other element, including `null`
      and non-objects, is read as a rule through `rule || {}` (so a missing
      field is `Undefined`). */
  datatype Node =
    | Rule(field: Value, op: Value, value: Value)
    | Subtree(logic: Value, rules: Rules)

  /** The `rules` member of a group: an array, or a truthy non-array. */
  datatype Rules = NotArray | Items(children: seq<Node>)

  // ---------------------------------------------------------------------------
  // Output: the compiled condition, its rendering and the parameter names

  datatype Logic = And | Or

  datatype Cmp = Ge | Le | Eq

  /** What one rule compiles to; each placeholder carries its counter value. */
  datatype Clause =
    | MatchAll
    | Keyword(key: nat)
    | YearCmp(cmp: Cmp, key: nat)
    | IpcPrefix(key: nat)
    | PatentType(key: nat)
    | Applicant(key: nat)

  /** What a group compiles to: `1=1`, or its parts joined by one connective. */
  datatype Where = AllRows | Joined(logic: Logic, parts: seq<Part>)

  /** A rule's clause, or a nested group rendered in parentheses. */
  datatype Part = Atom(clause: Clause) | Paren(inner: Where)

  /** The parameter name `p${idx}`. */
  function ParamKey(idx: nat): string {
    "p" + NatToString(idx)
  }

  /** The parameter name `p${idx}_like`. */
  function LikeKey(idx: nat): string {
    ParamKey(idx) + "_like"
  }

  /** A `p` name is `p`, then decimal digits ending in a digit; a `_like`
      name extends it and ends in `e`. */
  lemma KeyShape(i: nat)
    ensures |ParamKey(i)| >= 2 && ParamKey(i)[0] == 'p' && IsDigit(ParamKey(i)[1])
    ensures IsDigit(ParamKey(i)[|ParamKey(i)| - 1])
    ensures LikeKey(i)[..|ParamKey(i)|] == ParamKey(i) && LikeKey(i)[0] == 'p' && IsDigit(LikeKey(i)[1])
    ensures LikeKey(i)[|LikeKey(i)| - 1] == 'e'
  {
    var d := NatToString(i);
    assert ParamKey(i)[1] == d[0];
    assert ParamKey(i)[|ParamKey(i)| - 1] == d[|d| - 1];
  }

  /** Two counter values never share a `p` name, a `_like` name, or a name of
      the other kind. */
  lemma KeysInjective(i: nat, j: nat)
    ensures ParamKey(i) == ParamKey(j) ==> i == j
    ensures LikeKey(i) == LikeKey(j) ==> i == j
    ensures LikeKey(i) != ParamKey(j)
  {
    var a, b := NatToString(i), NatToString(j);
    if ParamKey(i) == ParamKey(j) {
      assert ParamKey(i)[1..] == a && ParamKey(j)[1..] == b;
      NatToStringInjective(i, j);
    }
    if LikeKey(i) == LikeKey(j) {
      assert LikeKey(i)[..|ParamKey(i)|] == ParamKey(i);
      assert |ParamKey(i)| == |ParamKey(j)|;
      assert LikeKey(j)[..|ParamKey(j)|] == ParamKey(j);
      assert ParamKey(i)[1..] == a && ParamKey(j)[1..] == b;
      NatToStringInjective(i, j);
    }
    KeyShape(i);
    KeyShape(j);
  }

  /** Names that some counter value in `[lo, hi)` produces. */
  ghost predicate KeysWithin(m: map<string, SqlParam>, lo: nat, hi: nat) {
    forall k :: k in m ==> exists i :: lo <= i < hi && (k == ParamKey(i) || k == LikeKey(i))
  }

  /** The SQL text of one clause: `1=1` for no condition, otherwise a
      condition naming the clause's placeholder (and, for a keyword, the
      `_like` one). */
  function ClauseSql(c: Clause): (s: string)
    ensures s == "1=1" <==> c == MatchAll
    ensures !c.MatchAll? ==> Occurs(s, ":" + ParamKey(c.key))
    ensures c.Keyword? ==> Occurs(s, ":" + LikeKey(c.key))
  {
    match c
    case MatchAll => "1=1"
    case Keyword(i) =>
      var tail := Placed(" IN NATURAL LANGUAGE MODE) OR title LIKE CONCAT(\"%\", ", ":" + LikeKey(i),
                         ", \"%\") OR abstract LIKE CONCAT(\"%\", :" + LikeKey(i) + ", \"%\"))");
      var pre := "(MATCH(title, abstract) AGAINST(" + (":" + ParamKey(i));
      OccursWithin(pre, tail, "", ":" + LikeKey(i));
      assert pre + tail + "" == pre + tail;
      Placed("(MATCH(title, abstract) AGAINST(", ":" + ParamKey(i), tail)
    case YearCmp(Ge, i) => Placed("apply_year >= ", ":" + ParamKey(i), "")
    case YearCmp(Le, i) => Placed("apply_year <= ", ":" + ParamKey(i), "")
    case YearCmp(Eq, i) => Placed("apply_year = ", ":" + ParamKey(i), "")
    case IpcPrefix(i) => Placed("ipc_main_prefix LIKE CONCAT(", ":" + ParamKey(i), ", \"%\")")
    case PatentType(i) => Placed("patent_type = ", ":" + ParamKey(i), "")
    case Applicant(i) => Placed("applicants_current LIKE CONCAT(\"%\", ", ":" + ParamKey(i), ", \"%\")")
  }

  /** A placeholder between two fixed texts. */
  function Placed(pre: string, name: string, post: string): (s: string)
    ensures Occurs(s, name) && |s| == |pre| + |name| + |post|
    ensures s == pre + name + post
  {
    OccursBetween(pre, name, post);
    pre + name + post
  }

  function Connective(l: Logic): string {
    match l
    case And => " AND "
    case Or => " OR "
  }

  /** The SQL text of a compiled group: `1=1` for no group, otherwise the
      parts' texts joined by the connective, each of them showing in it,
      every two neighbours with ` OR ` between them for an OR group and
      ` AND ` otherwise, and a single part standing alone. */
  function WhereSql(w: Where): (s: string)
    ensures w == AllRows ==> s == "1=1"
    ensures w.Joined? ==> forall i :: 0 <= i < |w.parts| ==> Occurs(s, PartSql(w.parts[i]))
    ensures w.Joined? ==> forall i :: 0 <= i < |w.parts| - 1 ==>
              Occurs(s, PartSql(w.parts[i]) + (if w.logic == Or then " OR " else " AND ") + PartSql(w.parts[i + 1]))
    ensures w.Joined? && |w.parts| == 1 ==> s == PartSql(w.parts[0])
  {
    match w
    case AllRows => "1=1"
    case Joined(l, ps) =>
      var texts := PartSqls(ps);
      var sep := Connective(l);
      forall i | 0 <= i < |ps| ensures Occurs(Join(texts, sep), PartSql(ps[i])) {
        JoinHasPart(texts, sep, i);
      }
      forall i | 0 <= i < |ps| - 1
        ensures Occurs(Join(texts, sep), PartSql(ps[i]) + (if l == Or then " OR " else " AND ") + PartSql(ps[i + 1]))
      {
        JoinHasSeam(texts, sep, i);
      }
      Join(texts, sep)
  }

  function PartSql(p: Part): string {
    match p
    case Atom(c) => ClauseSql(c)
    case Paren(w) => "(" + WhereSql(w) + ")"
  }

  function PartSqls(ps: seq<Part>): (r: seq<string>)
    ensures |r| == |ps|
    ensures forall i :: 0 <= i < |ps| ==> r[i] == PartSql(ps[i])
  {
    if ps == [] then [] else PartSqls(ps[..|ps| - 1]) + [PartSql(ps[|ps| - 1])]
  }

  lemma PartSqlsSnoc(ps: seq<Part>, p: Part)
    ensures PartSqls(ps + [p]) == PartSqls(ps) + [PartSql(p)]
  {
    assert (ps + [p])[..|ps|] == ps;
  }

  lemma EmptyUnion(m: map<string, SqlParam>)
    ensures map[] + m == m
  {
  }

  lemma UnionAssoc(a: map<string, SqlParam>, b: map<string, SqlParam>, c: map<string, SqlParam>)
    ensures a + b + c == a + (b + c)
  {
  }

  /** The parameter names a clause's text mentions. */
  function ClauseRefs(c: Clause): set<string> {
    match c
    case MatchAll => {}
    case Keyword(i) => {ParamKey(i), LikeKey(i)}
    case YearCmp(_, i) => {ParamKey(i)}
    case IpcPrefix(i) => {ParamKey(i)}
    case PatentType(i) => {ParamKey(i)}
    case Applicant(i) => {ParamKey(i)}
  }

  function WhereRefs(w: Where): set<string> {
    match w
    case AllRows => {}
    case Joined(_, ps) => PartsRefs(ps)
  }

  function PartRefs(p: Part): set<string> {
    match p
    case Atom(c) => ClauseRefs(c)
    case Paren(w) => WhereRefs(w)
  }

  function PartsRefs(ps: seq<Part>): set<string> {
    if ps == [] then {} else PartsRefs(ps[..|ps| - 1]) + PartRefs(ps[|ps| - 1])
  }

  // ---------------------------------------------------------------------------
  // What compiling means

  /** `String(logic || 'AND').toUpperCase() === 'OR' ? 'OR' : 'AND'`: only
      the four spellings of "or" select OR; every other value, a missing one
      included, selects AND. */
  function LogicOf(v: Value): (l: Logic)
    ensures l == Or <==> v in {Str("or"), Str("oR"), Str("Or"), Str("OR")}
  {
    UpperIsOr(v);
    if Upper(ToStr(OrElse(v, Str("AND")))) == "OR" then Or else And
  }

  lemma UpperIsOr(v: Value)
    ensures Upper(ToStr(OrElse(v, Str("AND")))) == "OR" <==> v in {Str("or"), Str("oR"), Str("Or"), Str("OR")}
  {
    var s := ToStr(OrElse(v, Str("AND")));
    if Upper(s) == "OR" {
      assert |s| == 2;
      assert UpperChar(s[0]) == 'O' && UpperChar(s[1]) == 'R';
      assert s[0] == 'o' || s[0] == 'O';
      assert s[1] == 'r' || s[1] == 'R';
      match v {
        case Str(t) =>
          assert t == [t[0], t[1]];
        case Num(n) =>
        case Undefined =>
        case Null =>
        case Bool(b) =>
      }
    } else {
      assert Upper("or") == "OR" && Upper("oR") == "OR" && Upper("Or") == "OR" && Upper("OR") == "OR";
    }
  }

  datatype RuleOut = RuleOut(clause: Clause, bound: map<string, SqlParam>)

  /** `apply_year` with a finite number but an operator other than `>=`, `<=`
      and `=`: the number is bound although the clause is `1=1`. */
  predicate YearQuirk(field: Value, op: Value, value: Value) {
    field == Str("apply_year") && ToNumber(value).Some?
    && op !in {Str(">="), Str("<="), Str("=")}
  }

  /** The `sql` and the `params` entries of `buildClauseFromRule` for the
      counter value `idx`. */
  function CompileRule(field: Value, op: Value, value: Value, idx: nat): (r: RuleOut)
    ensures r.bound.Keys <= {ParamKey(idx), LikeKey(idx)}
    ensures ClauseRefs(r.clause) <= r.bound.Keys
    ensures YearQuirk(field, op, value) ==> r.clause == MatchAll && r.bound.Keys == {ParamKey(idx)}
    ensures !YearQuirk(field, op, value) ==> ClauseRefs(r.clause) == r.bound.Keys
    ensures r.clause == MatchAll && !YearQuirk(field, op, value) ==> r.bound == map[]
    ensures r.clause != MatchAll <==>
              (field in {Str("kw"), Str("ipc_prefix"), Str("patent_type"), Str("applicant")} && Truthy(value))
              || (field == Str("apply_year") && ToNumber(value).Some? && op in {Str(">="), Str("<="), Str("=")})
    ensures r.clause.Keyword? ==> r.bound == map[ParamKey(idx) := PStr(ToStr(value)), LikeKey(idx) := PStr(ToStr(value))]
    ensures r.clause.YearCmp? ==> ToNumber(value).Some? && r.bound == map[ParamKey(idx) := PNum(ToNumber(value).value)]
    ensures field == Str("kw") && Truthy(value) ==> r.clause == Keyword(idx)
    ensures field == Str("apply_year") && ToNumber(value).Some? ==>
              r.clause == if op == Str(">=") then YearCmp(Ge, idx)
                          else if op == Str("<=") then YearCmp(Le, idx)
                          else if op == Str("=") then YearCmp(Eq, idx)
                          else MatchAll
    ensures field == Str("ipc_prefix") && Truthy(value) ==>
              r == RuleOut(IpcPrefix(idx), map[ParamKey(idx) := PStr(ToStr(value))])
    ensures field == Str("patent_type") && Truthy(value) ==>
              r == RuleOut(PatentType(idx), map[ParamKey(idx) := PStr(ToStr(value))])
    ensures field == Str("applicant") && Truthy(value) ==>
              r == RuleOut(Applicant(idx), map[ParamKey(idx) := PStr(ToStr(value))])
  {
    KeysInjective(idx, idx);
    var k := ParamKey(idx);
    if field == Str("kw") then
      if !Truthy(value) then RuleOut(MatchAll, map[])
      else RuleOut(Keyword(idx), map[k := PStr(ToStr(value)), LikeKey(idx) := PStr(ToStr(value))])
    else if field == Str("apply_year") then
      match ToNumber(value)
      case None => RuleOut(MatchAll, map[])
      case Some(n) =>
        var b := map[k := PNum(n)];
        if op == Str(">=") then RuleOut(YearCmp(Ge, idx), b)
        else if op == Str("<=") then RuleOut(YearCmp(Le, idx), b)
        else if op == Str("=") then RuleOut(YearCmp(Eq, idx), b)
        else RuleOut(MatchAll, b)
    else if field == Str("ipc_prefix") then
      if !Truthy(value) then RuleOut(MatchAll, map[]) else RuleOut(IpcPrefix(idx), map[k := PStr(ToStr(value))])
    else if field == Str("patent_type") then
      if !Truthy(value) then RuleOut(MatchAll, map[]) else RuleOut(PatentType(idx), map[k := PStr(ToStr(value))])
    else if field == Str("applicant") then
      if !Truthy(value) then RuleOut(MatchAll, map[]) else RuleOut(Applicant(idx), map[k := PStr(ToStr(value))])
    else RuleOut(MatchAll, map[])
  }

  /** The number of rules `buildWhereFromTree` meets when it walks a group:
      every rule element of every `rules` array on the way, whatever it
      compiles to. */
  function RuleCount(n: Node): nat {
    match n
    case Rule(_, _, _) => 0
    case Subtree(_, NotArray) => 0
    case Subtree(_, Items(cs)) => ChildRuleCount(cs)
  }

  function ChildRuleCount(cs: seq<Node>): nat {
    if cs == [] then 0
    else
      var c := cs[|cs| - 1];
      ChildRuleCount(cs[..|cs| - 1]) + if c.Subtree? then RuleCount(c) else 1
  }

  datatype Compiled = Compiled(where: Where, bound: map<string, SqlParam>, next: nat)

  datatype PartsOut = PartsOut(parts: seq<Part>, bound: map<string, SqlParam>, next: nat)

  /** A group compiled with the counter at `start`: the condition, the
      parameters it binds and the counter afterwards. */
  function CompileTree(n: Node, start: nat): (r: Compiled)
    decreases n, 1
    ensures r.where == AllRows <==>
              n.Rule? || n.rules == NotArray || n.rules == Items([])
    ensures r.where.Joined? ==> r.where.logic == LogicOf(n.logic)
                                && |r.where.parts| == |n.rules.children|
  {
    match n
    case Rule(_, _, _) => Compiled(AllRows, map[], start)
    case Subtree(_, NotArray) => Compiled(AllRows, map[], start)
    case Subtree(logic, Items(cs)) =>
      if cs == [] then Compiled(AllRows, map[], start)
      else
        var po := CompileParts(cs, start);
        Compiled(Joined(LogicOf(logic), po.parts), po.bound, po.next)
  }

  /** The elements of one `rules` array compiled in order: a group becomes a
      parenthesised part, anything else one rule's clause. */
  function CompileParts(cs: seq<Node>, start: nat): (r: PartsOut)
    decreases cs, 0
    ensures |r.parts| == |cs|
    ensures forall i :: 0 <= i < |cs| ==> (r.parts[i].Paren? <==> cs[i].Subtree?)
  {
    if cs == [] then PartsOut([], map[], start)
    else
      var pre := CompileParts(cs[..|cs| - 1], start);
      var e := CompileElement(cs[|cs| - 1], pre.next);
      PartsOut(pre.parts + [e.part], pre.bound + e.bound, e.next)
  }

  datatype ElementOut = ElementOut(part: Part, bound: map<string, SqlParam>, next: nat)

  /** One element of a `rules` array compiled with the counter at `idx`: a
      group is compiled on its own and parenthesised, anything else is a rule
      and takes the counter value `idx`. */
  function CompileElement(c: Node, idx: nat): (e: ElementOut)
    ensures e.part.Paren? <==> c.Subtree?
    ensures c.Rule? ==> e.next == idx + 1
    decreases c, 2
  {
    match c
    case Subtree(_, _) =>
      var t := CompileTree(c, idx);
      ElementOut(Paren(t.where), t.bound, t.next)
    case Rule(f, o, v) =>
      var ro := CompileRule(f, o, v, idx);
      ElementOut(Atom(ro.clause), ro.bound, idx + 1)
  }

  // ---------------------------------------------------------------------------
  // Properties of the compilation

  /** Every rule consumes exactly one counter value, so the counter ends at
      `start` plus the number of rules; every bound name comes from a counter
      value consumed here; every name the text mentions is bound. */
  lemma {:induction false} CompileTreeSound(n: Node, start: nat)
    ensures CompileTree(n, start).next == start + RuleCount(n)
    ensures KeysWithin(CompileTree(n, start).bound, start, CompileTree(n, start).next)
    ensures WhereRefs(CompileTree(n, start).where) <= CompileTree(n, start).bound.Keys
    decreases n, 1
  {
    match n
    case Rule(_, _, _) =>
    case Subtree(_, NotArray) =>
    case Subtree(_, Items(cs)) =>
      CompilePartsSound(cs, start);
  }

  lemma {:induction false} CompilePartsSound(cs: seq<Node>, start: nat)
    ensures CompileParts(cs, start).next == start + ChildRuleCount(cs)
    ensures KeysWithin(CompileParts(cs, start).bound, start, CompileParts(cs, start).next)
    ensures PartsRefs(CompileParts(cs, start).parts) <= CompileParts(cs, start).bound.Keys
    decreases cs, 0
  {
    if cs != [] {
      var init := cs[..|cs| - 1];
      var pre := CompileParts(init, start);
      var r := CompileParts(cs, start);
      CompilePartsSound(init, start);
      CompileElementSound(cs[|cs| - 1], pre.next);
      var e := CompileElement(cs[|cs| - 1], pre.next);
      KeysWithinUnion(pre.bound, start, pre.next, e.bound, e.next);
      assert r.parts[..|r.parts| - 1] == pre.parts;
    }
  }

  lemma {:induction false} CompileElementSound(c: Node, idx: nat)
    ensures CompileElement(c, idx).next == idx + if c.Subtree? then RuleCount(c) else 1
    ensures KeysWithin(CompileElement(c, idx).bound, idx, CompileElement(c, idx).next)
    ensures PartRefs(CompileElement(c, idx).part) <= CompileElement(c, idx).bound.Keys
    decreases c, 2
  {
    match c
    case Subtree(_, _) =>
      CompileTreeSound(c, idx);
    case Rule(f, o, v) =>
      var ro := CompileRule(f, o, v, idx);
      forall k | k in ro.bound
        ensures exists i :: idx <= i < idx + 1 && (k == ParamKey(i) || k == LikeKey(i))
      {
        assert k == ParamKey(idx) || k == LikeKey(idx);
      }
  }

  /** Bindings for two adjacent counter ranges together lie in the joined range. */
  lemma KeysWithinUnion(m1: map<string, SqlParam>, lo: nat, mid: nat, m2: map<string, SqlParam>, hi: nat)
    requires KeysWithin(m1, lo, mid) && KeysWithin(m2, mid, hi) && lo <= mid <= hi
    ensures KeysWithin(m1 + m2, lo, hi)
  {
    forall k | k in m1 + m2
      ensures exists i :: lo <= i < hi && (k == ParamKey(i) || k == LikeKey(i))
    {
      if k in m2 {
        var i :| mid <= i < hi && (k == ParamKey(i) || k == LikeKey(i));
      } else {
        var i :| lo <= i < mid && (k == ParamKey(i) || k == LikeKey(i));
      }
    }
  }

  /** Names bound for different counter ranges never coincide. */
  lemma DisjointRanges(m1: map<string, SqlParam>, lo1: nat, hi1: nat,
                       m2: map<string, SqlParam>, lo2: nat, hi2: nat)
    requires KeysWithin(m1, lo1, hi1) && KeysWithin(m2, lo2, hi2) && hi1 <= lo2
    ensures m1.Keys !! m2.Keys
  {
    forall k | k in m1 && k in m2
      ensures false
    {
      var i :| lo1 <= i < hi1 && (k == ParamKey(i) || k == LikeKey(i));
      var j :| lo2 <= j < hi2 && (k == ParamKey(j) || k == LikeKey(j));
      KeysInjective(i, j);
      KeysInjective(j, i);
    }
  }

  /** The names an element binds are new: none was bound by the elements
      before it, so no `params[key] = ...` overwrites an earlier binding and
      every rule's binding reaches the final map unchanged. */
  lemma NoRebinding(cs: seq<Node>, start: nat)
    requires cs != []
    ensures var pre := CompileParts(cs[..|cs| - 1], start);
            var e := CompileElement(cs[|cs| - 1], pre.next);
            pre.bound.Keys !! e.bound.Keys
            && CompileParts(cs, start).bound == pre.bound + e.bound
            && (forall k :: k in e.bound ==> CompileParts(cs, start).bound[k] == e.bound[k])
            && (forall k :: k in pre.bound ==> CompileParts(cs, start).bound[k] == pre.bound[k])
  {
    var pre := CompileParts(cs[..|cs| - 1], start);
    var e := CompileElement(cs[|cs| - 1], pre.next);
    CompilePartsSound(cs[..|cs| - 1], start);
    CompileElementSound(cs[|cs| - 1], pre.next);
    DisjointRanges(pre.bound, start, pre.next, e.bound, pre.next, e.next);
  }

  // ---------------------------------------------------------------------------
  // The compiler state: `idxSeed` and `params`

  class Compilation {
    /** `idxSeed.count`: the next counter value. */
    var count: nat
    /** `params`: the named parameters bound so far. */
    var params: map<string, SqlParam>

    /** `const params = {}; const idxSeed = { count: 1 };` */
    constructor ()
      ensures count == 1 && params == map[]
    {
      count := 1;
      params := map[];
    }

    /** `buildClauseFromRule`: take the next counter value, bind the rule's
        parameters and return its SQL text. */
    method BuildClauseFromRule(field: Value, op: Value, value: Value) returns (sql: string)
      modifies this
      ensures var ro := CompileRule(field, op, value, old(count));
              sql == ClauseSql(ro.clause) && params == old(params) + ro.bound
      ensures count == old(count) + 1
    {
      var ro := CompileRule(field, op, value, count);
      count := count + 1;
      params := params + ro.bound;
      sql := ClauseSql(ro.clause);
    }

    /** `buildWhereFromTree`: compile a group element by element, recursing
        into nested groups with the same counter and parameter map. */
    method BuildWhereFromTree(tree: Node) returns (sql: string)
      modifies this
      decreases tree, 0
      ensures var c := CompileTree(tree, old(count));
              sql == WhereSql(c.where) && count == c.next && params == old(params) + c.bound
    {
      if !tree.Subtree? || !tree.rules.Items? || tree.rules.children == [] {
        return "1=1";
      }
      var logic := LogicOf(tree.logic);
      var parts := BuildParts(tree.rules.children);
      sql := Join(parts, Connective(logic));
    }

    /** The `for (const r of tree.rules)` loop of `buildWhereFromTree`: the
        SQL text of each element, in order. */
    method BuildParts(cs: seq<Node>) returns (parts: seq<string>)
      modifies this
      decreases cs, 2
      ensures var po := CompileParts(cs, old(count));
              parts == PartSqls(po.parts) && count == po.next && params == old(params) + po.bound
    {
      ghost var start := count;
      ghost var params0 := params;
      parts := [];
      for i := 0 to |cs|
        invariant var po := CompileParts(cs[..i], start);
                  parts == PartSqls(po.parts) && count == po.next && params == params0 + po.bound
      {
        var r := cs[i];
        ghost var pre := CompileParts(cs[..i], start);
        ghost var e := CompileElement(r, pre.next);
        assert cs[..i + 1][..i] == cs[..i];
        var s := BuildPart(r);
        UnionAssoc(params0, pre.bound, e.bound);
        PartSqlsSnoc(pre.parts, e.part);
        parts := parts + [s];
      }
      assert cs[..|cs|] == cs;
    }

    /** The body of the loop in `buildWhereFromTree`: a truthy `rules` member
        makes the element a parenthesised group, anything else a rule. */
    method BuildPart(r: Node) returns (s: string)
      modifies this
      decreases r, 1
      ensures var e := CompileElement(r, old(count));
              s == PartSql(e.part) && count == e.next && params == old(params) + e.bound
    {
      if r.Subtree? {
        s := BuildWhereFromTree(r);
        s := "(" + s + ")";
      } else {
        s := BuildClauseFromRule(r.field, r.op, r.value);
      }
    }
  }

  // ---------------------------------------------------------------------------
  // The request handler

  /** `orderBy`: two whitelisted values, everything else newest first. */
  function OrderSql(orderBy: Value): (r: string)
    ensures r == "ORDER BY apply_year DESC" <==> orderBy == Str("year_desc")
    ensures r == "ORDER BY apply_year ASC" <==> orderBy == Str("year_asc")
    ensures r == "ORDER BY pub_date DESC" <==> orderBy !in {Str("year_desc"), Str("year_asc")}
  {
    if orderBy == Str("year_desc") then "ORDER BY apply_year DESC"
    else if orderBy == Str("year_asc") then "ORDER BY apply_year ASC"
    else "ORDER BY pub_date DESC"
  }

  /** The two statements the handler sends: the `WHERE` text shared by the
      count and the list query, the ordering, the page window, the count
      query's parameters and the list query's parameters. */
  datatype Query = Query(countSql: string, where: string, order: string, window: Paging.Window,
                         params: map<string, SqlParam>, listParams: map<string, SqlParam>)

  /** The body of `POST /advanced/search` up to the database calls. */
  method AdvancedSearchQuery(tree: Node, page: Value, pageSize: Value, orderBy: Value) returns (q: Query)
    ensures q.window == Paging.Paginate(page, pageSize)
    ensures var c := CompileTree(tree, 1);
            q.where == WhereSql(c.where) && q.params == c.bound
    ensures q.countSql == "SELECT COUNT(1) AS total FROM patents WHERE " + q.where
    ensures q.order == OrderSql(orderBy)
    ensures q.listParams == q.params[
              "offset" := PNum(q.window.offset)][
              "ps" := PNum(q.window.size)]
  {
    var w := Paging.Paginate(page, pageSize);
    var comp := new Compilation();
    var where := comp.BuildWhereFromTree(tree);
    var order := OrderSql(orderBy);
    var params := comp.params;
    EmptyUnion(CompileTree(tree, 1).bound);
    q := Query("SELECT COUNT(1) AS total FROM patents WHERE " + where, where, order, w,
               params, params["offset" := PNum(w.offset)]["ps" := PNum(w.size)]);
  }

  /** Adding `offset` and `ps` for the list query never overwrites a compiled
      parameter: the compiled names all start with `p` and a digit. */
  lemma PagingNamesFree(tree: Node)
    ensures "offset" !in CompileTree(tree, 1).bound
    ensures "ps" !in CompileTree(tree, 1).bound
  {
    var c := CompileTree(tree, 1);
    CompileTreeSound(tree, 1);
    forall i: nat
      ensures "ps" != ParamKey(i) && "ps" != LikeKey(i)
      ensures "offset" != ParamKey(i) && "offset" != LikeKey(i)
    {
      KeyShape(i);
    }
  }
}
