/** dialect/placeholders.go and the clause builders of orm/orm.go: from `?` to $1, $2, ... */
module Binding {
  import opened Text
  import opened SqlText
  import opened Wrappers

  /** Argument values; the model only moves them around. */
  type Arg(==) = int

  /** The number of generic placeholders in a text. */
  function Marks(q: string): nat {
    if q == "" then 0 else (if q[0] == '?' then 1 else 0) + Marks(q[1..])
  }

  /** q with its first mark replaced by $start, the next by $(start + 1), and so on. */
  function Bind(q: string, start: nat): string {
    if q == "" then ""
    else if q[0] == '?' then Placeholder(start) + Bind(q[1..], start + 1)
    else [q[0]] + Bind(q[1..], start)
  }

  lemma {:induction false} BindSplit(a: string, b: string, start: nat, mid: nat)
    requires mid == start + Marks(a)
    ensures Marks(a + b) == Marks(a) + Marks(b) && Bind(a + b, start) == Bind(a, start) + Bind(b, mid)
  {
    if a == "" {
      assert a + b == b;
    } else {
      assert (a + b)[1..] == a[1..] + b;
      var next := if a[0] == '?' then start + 1 else start;
      BindSplit(a[1..], b, next, mid);
      Regrouped(if a[0] == '?' then Placeholder(start) else [a[0]], Bind(a[1..], next), Bind(b, mid));
    }
  }

  lemma BindAppend(a: string, b: string, start: nat)
    ensures Marks(a + b) == Marks(a) + Marks(b)
    ensures Bind(a + b, start) == Bind(a, start) + Bind(b, start + Marks(a))
  {
    BindSplit(a, b, start, start + Marks(a));
  }

  lemma {:induction false} BindNothing(q: string, start: nat)
    requires Marks(q) == 0
    ensures Bind(q, start) == q
  {
    if q != "" {
      BindNothing(q[1..], start);
    }
  }

  /** The piece one character becomes, and the number of the next placeholder. */
  lemma RewriteStep(query: string, i: nat, next: nat, next': nat, out: string)
    requires i < |query| && next' == if query[i] == '?' then next + 1 else next
    ensures out + Bind(query[i..], next)
            == (out + if query[i] == '?' then Placeholder(next) else [query[i]]) + Bind(query[i + 1..], next')
  {
    assert query[i..][0] == query[i] && query[i..][1..] == query[i + 1..];
    Regrouped(out, if query[i] == '?' then Placeholder(next) else [query[i]], Bind(query[i + 1..], next'));
  }

  /** The loop both binders run. */
  method Rewrite(query: string, start: nat) returns (out: string)
    ensures out == Bind(query, start)
  {
    out := "";
    var next := start;
    assert query[0..] == query;
    for i := 0 to |query|
      invariant out + Bind(query[i..], next) == Bind(query, start)
    {
      RewriteStep(query, i, next, if query[i] == '?' then next + 1 else next, out);
      if query[i] == '?' {
        out := out + Placeholder(next);
        next := next + 1;
      } else {
        out := out + [query[i]];
      }
    }
    assert query[|query|..] == "";
  }

  /** BindPlaceholders: the whole statement at once. */
  method BindPlaceholders(query: string) returns (out: string)
    ensures out == Bind(query, 1)
  {
    if query == "" { return query; }
    out := Rewrite(query, 1);
  }

  // -------------------------------------------------------------------- one clause

  datatype Predicate = Predicate(expr: string, args: seq<Arg>)

  /** A clause with as many marks as arguments. */
  predicate Matched(p: Predicate) {
    Marks(p.expr) == |p.args|
  }

  /** What bindClause makes of a clause: an empty expression drops its arguments, no arguments leave marks alone. */
  function BoundText(p: Predicate, start: nat): string {
    if p.args == [] then p.expr else Bind(p.expr, start)
  }

  function UsedArgs(p: Predicate): seq<Arg> {
    if p.expr == "" then [] else p.args
  }

  method BindClause(expr: string, args: seq<Arg>, start: nat) returns (clause: string, clauseArgs: seq<Arg>)
    ensures clause == BoundText(Predicate(expr, args), start) && clauseArgs == UsedArgs(Predicate(expr, args))
  {
    if expr == "" { return "", []; }
    if |args| == 0 { return expr, []; }
    clause := Rewrite(expr, start);
    clauseArgs := args;
  }

  lemma MatchedBound(p: Predicate, start: nat)
    requires Matched(p)
    ensures BoundText(p, start) == Bind(p.expr, start) && UsedArgs(p) == p.args
  {
    if p.args == [] { BindNothing(p.expr, start); }
  }

  // --------------------------------------------------------------- lists of clauses

  /** Clauses bound one after the other, each numbered from behind the arguments before it. */
  function BoundTexts(ps: seq<Predicate>, start: nat): (r: seq<string>)
    ensures |r| == |ps|
  {
    if ps == [] then [] else [BoundText(ps[0], start)] + BoundTexts(ps[1..], start + |UsedArgs(ps[0])|)
  }

  function Args(ps: seq<Predicate>): seq<Arg> {
    if ps == [] then [] else UsedArgs(ps[0]) + Args(ps[1..])
  }

  function Exprs(ps: seq<Predicate>): (r: seq<string>)
    ensures |r| == |ps|
  {
    if ps == [] then [] else [ps[0].expr] + Exprs(ps[1..])
  }

  predicate AllMatched(ps: seq<Predicate>) {
    ps == [] || (Matched(ps[0]) && AllMatched(ps[1..]))
  }

  lemma {:induction false} ArgsAppend(p: seq<Predicate>, q: seq<Predicate>)
    ensures Args(p + q) == Args(p) + Args(q)
  {
    if p == [] {
      assert p + q == q;
    } else {
      assert (p + q)[1..] == p[1..] + q;
      ArgsAppend(p[1..], q);
    }
  }

  lemma {:induction false} MatchedAppend(p: seq<Predicate>, q: seq<Predicate>)
    requires AllMatched(p) && AllMatched(q)
    ensures AllMatched(p + q)
  {
    if p == [] {
      assert p + q == q;
    } else {
      assert (p + q)[1..] == p[1..] + q;
      MatchedAppend(p[1..], q);
    }
  }

  lemma {:induction false} TextsAppend(p: seq<Predicate>, q: seq<Predicate>, start: nat, mid: nat)
    requires mid == start + |Args(p)|
    ensures BoundTexts(p + q, start) == BoundTexts(p, start) + BoundTexts(q, mid)
  {
    if p == [] {
      assert p + q == q;
    } else {
      assert (p + q)[1..] == p[1..] + q;
      TextsAppend(p[1..], q, start + |UsedArgs(p[0])|, mid);
    }
  }

  lemma BoundTextsAppend(p: seq<Predicate>, q: seq<Predicate>, start: nat, mid: nat)
    requires mid == start + |Args(p)|
    ensures Args(p + q) == Args(p) + Args(q)
    ensures BoundTexts(p + q, start) == BoundTexts(p, start) + BoundTexts(q, mid)
    ensures AllMatched(p) && AllMatched(q) ==> AllMatched(p + q)
  {
    ArgsAppend(p, q);
    TextsAppend(p, q, start, mid);
    if AllMatched(p) && AllMatched(q) { MatchedAppend(p, q); }
  }

  /** The text of a nonempty list, separator by separator. */
  lemma JoinBoundStep(head: string, rest: string, sep: string, start: nat)
    requires Marks(sep) == 0
    ensures Bind(head + sep + rest, start) == Bind(head, start) + sep + Bind(rest, start + Marks(head))
    ensures Marks(head + sep + rest) == Marks(head) + Marks(rest)
  {
    BindAppend(head, sep, start);
    BindAppend(head + sep, rest, start);
    BindNothing(sep, start + Marks(head));
  }

  /** Joining clauses bound one by one is binding the joined clauses. */
  lemma {:induction false} JoinBound(ps: seq<Predicate>, start: nat, sep: string)
    requires AllMatched(ps) && Marks(sep) == 0
    ensures Join(BoundTexts(ps, start), sep) == Bind(Join(Exprs(ps), sep), start)
    ensures |Args(ps)| == Marks(Join(Exprs(ps), sep))
  {
    if ps != [] {
      MatchedBound(ps[0], start);
      JoinBound(ps[1..], start + |UsedArgs(ps[0])|, sep);
      if |ps| > 1 {
        JoinBoundStep(ps[0].expr, Join(Exprs(ps[1..]), sep), sep, start);
        assert BoundTexts(ps, start)[1..] == BoundTexts(ps[1..], start + |UsedArgs(ps[0])|);
        assert Exprs(ps)[1..] == Exprs(ps[1..]);
      } else {
        assert ps[1..] == [];
      }
    }
  }

  lemma PieceBound(prefix: string, ps: seq<Predicate>, start: nat, sep: string)
    requires AllMatched(ps) && Marks(sep) == 0 && Marks(prefix) == 0
    ensures ListPiece(prefix, BoundTexts(ps, start), sep) == Bind(ListPiece(prefix, Exprs(ps), sep), start)
    ensures |Args(ps)| == Marks(ListPiece(prefix, Exprs(ps), sep))
  {
    JoinBound(ps, start, sep);
    BindNothing(prefix, start);
    BindAppend(prefix, Join(Exprs(ps), sep), start);
  }

  lemma FirstClause(p: Predicate, rest: seq<Predicate>, start: nat, next: nat)
    requires next == start + |UsedArgs(p)|
    ensures BoundTexts([p] + rest, start) == [BoundText(p, start)] + BoundTexts(rest, next)
    ensures Args([p] + rest) == UsedArgs(p) + Args(rest)
  {
    assert ([p] + rest)[1..] == rest;
  }

  /** The first of the remaining clauses. */
  lemma NextClause(ps: seq<Predicate>, i: nat, start: nat, next: nat)
    requires i < |ps| && next == start + |UsedArgs(ps[i])|
    ensures BoundTexts(ps[i..], start) == [BoundText(ps[i], start)] + BoundTexts(ps[i + 1..], next)
    ensures Args(ps[i..]) == UsedArgs(ps[i]) + Args(ps[i + 1..])
  {
    FirstClause(ps[i], ps[i + 1..], start, next);
    assert ps[i..] == [ps[i]] + ps[i + 1..];
  }

  /** Collecting one more clause does not change what the whole will be. */
  lemma CollectStep(ps: seq<Predicate>, i: nat, start: nat, clauses: seq<string>, args: seq<Arg>)
    requires i < |ps|
    ensures clauses + BoundTexts(ps[i..], start + |args|)
            == (clauses + [BoundText(ps[i], start + |args|)]) +
                BoundTexts(ps[i + 1..], start + |args + UsedArgs(ps[i])|)
    ensures args + Args(ps[i..]) == (args + UsedArgs(ps[i])) + Args(ps[i + 1..])
  {
    var next := start + |args + UsedArgs(ps[i])|;
    NextClause(ps, i, start + |args|, next);
    Regrouped(clauses, [BoundText(ps[i], start + |args|)], BoundTexts(ps[i + 1..], next));
    Regrouped(args, UsedArgs(ps[i]), Args(ps[i + 1..]));
  }

  lemma CollectEnd(ps: seq<Predicate>, start: nat, clauses: seq<string>, args: seq<Arg>)
    ensures clauses + BoundTexts(ps[|ps|..], start) == clauses && args + Args(ps[|ps|..]) == args
  {
    assert ps[|ps|..] == [];
  }

  /** One round of the loops below. */
  method CollectClause(ps: seq<Predicate>, i: nat, start: nat, clauses: seq<string>, args: seq<Arg>)
    returns (clauses': seq<string>, args': seq<Arg>)
    requires i < |ps|
    ensures clauses' + BoundTexts(ps[i + 1..], start + |args'|) == clauses + BoundTexts(ps[i..], start + |args|)
    ensures args' + Args(ps[i + 1..]) == args + Args(ps[i..])
  {
    CollectStep(ps, i, start, clauses, args);
    var clause, clauseArgs := BindClause(ps[i].expr, ps[i].args, start + |args|);
    clauses', args' := clauses + [clause], args + clauseArgs;
  }

  /** The loops over where and having, and over the extra predicates of buildWhereClauses. */
  method BindAll(ps: seq<Predicate>, start: nat) returns (clauses: seq<string>, args: seq<Arg>)
    ensures clauses == BoundTexts(ps, start) && args == Args(ps)
  {
    clauses, args := [], [];
    assert ps[0..] == ps;
    for i := 0 to |ps|
      invariant clauses + BoundTexts(ps[i..], start + |args|) == BoundTexts(ps, start)
      invariant args + Args(ps[i..]) == Args(ps)
    {
      clauses, args := CollectClause(ps, i, start, clauses, args);
    }
    CollectEnd(ps, start + |args|, clauses, args);
  }

  // -------------------------------------------------------------------------- SELECT

  datatype JoinClause = JoinClause(kind: string, table: string, on: string, args: seq<Arg>)

  /** The whole join as one clause; the condition of a cross join is ignored. */
  function JoinText(j: JoinClause): Predicate {
    if j.on != "" && j.kind != "CROSS JOIN" then Predicate(j.kind + " " + j.table + " ON " + j.on, j.args)
    else Predicate(j.kind + " " + j.table, [])
  }

  function JoinTexts(joins: seq<JoinClause>): seq<Predicate> {
    if joins == [] then [] else [JoinText(joins[0])] + JoinTexts(joins[1..])
  }

  /** What the query options collected; texts are already trimmed, as the options do. */
  datatype Query = Query(
    table: string, columns: seq<string>, distinct: bool, joins: seq<JoinClause>, where_: seq<Predicate>,
    groupBy: seq<string>, having: seq<Predicate>, orderBy: seq<string>, limit: Option<nat>, offset: Option<nat>)

  /** The statement as the caller wrote it, with `?` everywhere. */
  function UnboundSelect(q: Query): Result<string, RenderError> {
    RenderSelect(q.table, q.columns, q.distinct, Exprs(JoinTexts(q.joins)), Exprs(q.where_), q.groupBy, Exprs(q.having),
                 q.orderBy, q.limit, q.offset)
  }

  function SelectArgs(q: Query): seq<Arg> {
    JoinArgs(q.joins) + Args(q.where_) + Args(q.having)
  }

  /** The first placeholder of the WHERE and of the HAVING list. */
  function WhereStart(q: Query): nat {
    1 + |JoinArgs(q.joins)|
  }

  function HavingStart(q: Query): nat {
    1 + |JoinArgs(q.joins)| + |Args(q.where_)|
  }

  /** The statement with every clause bound by itself, in the order joins, where, having. */
  function ClausewiseSelect(q: Query): Result<string, RenderError> {
    RenderSelect(q.table, q.columns, q.distinct, BoundJoins(q.joins, 1), BoundTexts(q.where_, WhereStart(q)), q.groupBy,
                 BoundTexts(q.having, HavingStart(q)), q.orderBy, q.limit, q.offset)
  }

  predicate UnmarkedJoins(joins: seq<JoinClause>) {
    forall i :: 0 <= i < |joins| ==> '?' !in joins[i].kind && '?' !in joins[i].table
  }

  lemma {:induction false} NoMarks(s: string)
    requires '?' !in s
    ensures Marks(s) == 0
  {
    if s != "" { NoMarks(s[1..]); }
  }

  /** Binding a join's condition behind its unmarked head is binding the join as one clause. */
  lemma JoinHeadUnmarked(j: JoinClause, start: nat)
    requires '?' !in j.kind && '?' !in j.table && j.on != "" && j.kind != "CROSS JOIN"
    ensures BoundText(JoinText(j), start) == j.kind + " " + j.table + " ON " + BoundText(Predicate(j.on, j.args), start)
    ensures UsedArgs(JoinText(j)) == j.args == UsedArgs(Predicate(j.on, j.args))
  {
    var head := j.kind + " " + j.table + " ON ";
    NoMarks(head);
    BindNothing(head, start);
    BindSplit(head, j.on, start, start);
    assert JoinText(j) == Predicate(head + j.on, j.args);
  }

  /** One join as rendered: only its condition is bound. */
  function BoundJoin(j: JoinClause, start: nat): string {
    if j.on != "" && j.kind != "CROSS JOIN" then j.kind + " " + j.table + " ON " +
        BoundText(Predicate(j.on, j.args), start)
    else j.kind + " " + j.table
  }

  function UsedJoinArgs(j: JoinClause): seq<Arg> {
    if j.on != "" && j.kind != "CROSS JOIN" then j.args else []
  }

  function BoundJoins(joins: seq<JoinClause>, start: nat): (r: seq<string>)
    ensures |r| == |joins|
  {
    if joins == [] then [] else [BoundJoin(joins[0], start)] + BoundJoins(joins[1..], start + |UsedJoinArgs(joins[0])|)
  }

  function JoinArgs(joins: seq<JoinClause>): seq<Arg> {
    if joins == [] then [] else UsedJoinArgs(joins[0]) + JoinArgs(joins[1..])
  }

  /** Joins with unmarked heads are bound as clauses are. */
  lemma {:induction false} JoinsAsClauses(joins: seq<JoinClause>, start: nat)
    requires UnmarkedJoins(joins)
    ensures BoundJoins(joins, start) == BoundTexts(JoinTexts(joins), start) && JoinArgs(joins) == Args(JoinTexts(joins))
  {
    if joins != [] {
      var j := joins[0];
      assert JoinTexts(joins)[1..] == JoinTexts(joins[1..]);
      assert forall i :: 0 <= i < |joins[1..]| ==> joins[1..][i] == joins[i + 1];
      if j.on != "" && j.kind != "CROSS JOIN" { JoinHeadUnmarked(j, start); }
      JoinsAsClauses(joins[1..], start + |UsedJoinArgs(j)|);
    }
  }

  lemma NextJoin(clauses: seq<JoinClause>, i: nat, start: nat, next: nat)
    requires i < |clauses| && next == start + |UsedJoinArgs(clauses[i])|
    ensures BoundJoins(clauses[i..], start) == [BoundJoin(clauses[i], start)] + BoundJoins(clauses[i + 1..], next)
    ensures JoinArgs(clauses[i..]) == UsedJoinArgs(clauses[i]) + JoinArgs(clauses[i + 1..])
  {
    FirstJoin(clauses[i], clauses[i + 1..], start, next);
    assert clauses[i..] == [clauses[i]] + clauses[i + 1..];
  }

  lemma FirstJoin(j: JoinClause, rest: seq<JoinClause>, start: nat, next: nat)
    requires next == start + |UsedJoinArgs(j)|
    ensures BoundJoins([j] + rest, start) == [BoundJoin(j, start)] + BoundJoins(rest, next)
    ensures JoinArgs([j] + rest) == UsedJoinArgs(j) + JoinArgs(rest)
  {
    assert ([j] + rest)[1..] == rest;
  }

  lemma JoinStep(clauses: seq<JoinClause>, i: nat, joins: seq<string>, args: seq<Arg>)
    requires i < |clauses|
    ensures joins + BoundJoins(clauses[i..], 1 + |args|)
            == (joins + [BoundJoin(clauses[i], 1 + |args|)]) +
                BoundJoins(clauses[i + 1..], 1 + |args + UsedJoinArgs(clauses[i])|)
    ensures args + JoinArgs(clauses[i..]) == (args + UsedJoinArgs(clauses[i])) + JoinArgs(clauses[i + 1..])
  {
    var next := 1 + |args + UsedJoinArgs(clauses[i])|;
    NextJoin(clauses, i, 1 + |args|, next);
    Regrouped(joins, [BoundJoin(clauses[i], 1 + |args|)], BoundJoins(clauses[i + 1..], next));
    Regrouped(args, UsedJoinArgs(clauses[i]), JoinArgs(clauses[i + 1..]));
  }

  /** One join, as the loop renders it. */
  method BindJoin(j: JoinClause, start: nat) returns (joinSQL: string, onArgs: seq<Arg>)
    ensures joinSQL == BoundJoin(j, start) && onArgs == UsedJoinArgs(j)
  {
    joinSQL, onArgs := j.kind + " " + j.table, [];
    if j.on != "" && j.kind != "CROSS JOIN" {
      var onClause;
      onClause, onArgs := BindClause(j.on, j.args, start);
      joinSQL := joinSQL + " ON " + onClause;
    }
  }

  /** One round of the loop over the joins. */
  method CollectJoin(clauses: seq<JoinClause>, i: nat, joins: seq<string>, args: seq<Arg>)
    returns (joins': seq<string>, args': seq<Arg>)
    requires i < |clauses|
    ensures joins' + BoundJoins(clauses[i + 1..], 1 + |args'|) == joins + BoundJoins(clauses[i..], 1 + |args|)
    ensures args' + JoinArgs(clauses[i + 1..]) == args + JoinArgs(clauses[i..])
  {
    JoinStep(clauses, i, joins, args);
    var joinSQL, onArgs := BindJoin(clauses[i], 1 + |args|);
    joins', args' := joins + [joinSQL], args + onArgs;
  }

  /** The loop over the joins. */
  method BindJoins(clauses: seq<JoinClause>) returns (joins: seq<string>, args: seq<Arg>)
    ensures joins == BoundJoins(clauses, 1) && args == JoinArgs(clauses)
  {
    joins, args := [], [];
    assert clauses[0..] == clauses;
    for i := 0 to |clauses|
      invariant joins + BoundJoins(clauses[i..], 1 + |args|) == BoundJoins(clauses, 1)
      invariant args + JoinArgs(clauses[i..]) == JoinArgs(clauses)
    {
      joins, args := CollectJoin(clauses, i, joins, args);
    }
    assert clauses[|clauses|..] == [];
  }

  method BuildSelectSQL(q: Query) returns (r: Result<string, RenderError>, args: seq<Arg>)
    ensures r == ClausewiseSelect(q)
    ensures args == SelectArgs(q)
  {
    var joins;
    joins, args := BindJoins(q.joins);
    var clauses, whereArgs := BindAll(q.where_, |args| + 1);
    args := args + whereArgs;
    var having, havingArgs := BindAll(q.having, |args| + 1);
    args := args + havingArgs;
    r := RenderSelect(q.table, q.columns, q.distinct, joins, clauses, q.groupBy, having, q.orderBy, q.limit, q.offset);
  }

  /** Nothing but clauses carries marks, and every clause has as many as it has arguments. */
  ghost predicate WellMarked(q: Query) {
    && UnmarkedJoins(q.joins) && AllMatched(JoinTexts(q.joins)) && AllMatched(q.where_) && AllMatched(q.having)
    && Marks(SelectHead(q.table, q.columns, q.distinct)) == 0 && Marks(ListPiece(" GROUP BY ", q.groupBy, ", ")) == 0
    && Marks(ListPiece(" ORDER BY ", q.orderBy, ", ")) == 0
  }

  /** One more piece at the end of a text. */
  lemma Extend(text: string, bound: string, marks: nat, piece: string)
    requires Bind(text, 1) == bound && Marks(text) == marks
    ensures Bind(text + piece, 1) == bound + Bind(piece, 1 + marks) && Marks(text + piece) == marks + Marks(piece)
    ensures Marks(piece) == 0 ==> Bind(text + piece, 1) == bound + piece
  {
    BindAppend(text, piece, 1);
    if Marks(piece) == 0 { BindNothing(piece, 1 + marks); }
  }

  /** The text up to WHERE, with every clause's own text and with bound clauses. */
  function UnboundFront(q: Query): string {
    SelectHead(q.table, q.columns, q.distinct) + ListPiece(" ", Exprs(JoinTexts(q.joins)), " ") +
        ListPiece(" WHERE ", Exprs(q.where_), " AND ")
  }

  function BoundFront(q: Query): string {
    SelectHead(q.table, q.columns, q.distinct) + ListPiece(" ", BoundJoins(q.joins, 1), " ")
    + ListPiece(" WHERE ", BoundTexts(q.where_, WhereStart(q)), " AND ")
  }

  function UnboundText(q: Query): string {
    SelectText(UnboundFront(q), ListPiece(" GROUP BY ", q.groupBy, ", "),
        ListPiece(" HAVING ", Exprs(q.having), " AND "),
               ListPiece(" ORDER BY ", q.orderBy, ", "), NumberPiece(" LIMIT ", q.limit),
                   NumberPiece(" OFFSET ", q.offset))
  }

  function ClausewiseText(q: Query): string {
    SelectText(BoundFront(q), ListPiece(" GROUP BY ", q.groupBy, ", "),
               ListPiece(" HAVING ", BoundTexts(q.having, HavingStart(q)), " AND "),
               ListPiece(" ORDER BY ", q.orderBy, ", "), NumberPiece(" LIMIT ", q.limit),
                   NumberPiece(" OFFSET ", q.offset))
  }

  lemma SelectTexts(q: Query)
    requires q.table != ""
    ensures UnboundSelect(q) == Success(UnboundText(q)) && ClausewiseSelect(q) == Success(ClausewiseText(q))
  {
  }

  lemma JoinPiece(joins: seq<JoinClause>)
    requires UnmarkedJoins(joins) && AllMatched(JoinTexts(joins))
    ensures ListPiece(" ", BoundJoins(joins, 1), " ") == Bind(ListPiece(" ", Exprs(JoinTexts(joins)), " "), 1)
    ensures |JoinArgs(joins)| == Marks(ListPiece(" ", Exprs(JoinTexts(joins)), " "))
  {
    NoMarks(" ");
    JoinsAsClauses(joins, 1);
    PieceBound(" ", JoinTexts(joins), 1, " ");
  }

  lemma ConditionPiece(ps: seq<Predicate>, start: nat)
    requires AllMatched(ps)
    ensures ListPiece(" WHERE ", BoundTexts(ps, start), " AND ")
            == Bind(ListPiece(" WHERE ", Exprs(ps), " AND "), start)
    ensures |Args(ps)| == Marks(ListPiece(" WHERE ", Exprs(ps), " AND "))
  {
    NoMarks(" WHERE "); NoMarks(" AND ");
    PieceBound(" WHERE ", ps, start, " AND ");
  }

  lemma SelectFront(q: Query)
    requires WellMarked(q)
    ensures Bind(UnboundFront(q), 1) == BoundFront(q) &&
            Marks(UnboundFront(q)) == |JoinArgs(q.joins)| + |Args(q.where_)|
  {
    var head, n := SelectHead(q.table, q.columns, q.distinct), |JoinArgs(q.joins)|;
    var joins, bound := ListPiece(" ", Exprs(JoinTexts(q.joins)), " "), ListPiece(" ", BoundJoins(q.joins, 1), " ");
    BindNothing(head, 1);
    JoinPiece(q.joins);
    ConditionPiece(q.where_, WhereStart(q));
    Extend(head, head, 0, joins);
    Extend(head + joins, head + bound, n, ListPiece(" WHERE ", Exprs(q.where_), " AND "));
  }

  lemma SelectTail(front: string, bound: string, marks: nat, start: nat, group: string, having: string,
                   boundHaving: string, order: string, limit: string, offset: string)
    requires Bind(front, 1) == bound && Marks(front) == marks && start == 1 + marks &&
             Bind(having, start) == boundHaving
    requires Marks(group) == 0 && Marks(order) == 0 && Marks(limit) == 0 && Marks(offset) == 0
    ensures Bind(SelectText(front, group, having, order, limit, offset), 1)
            == SelectText(bound, group, boundHaving, order, limit, offset)
    ensures Marks(SelectText(front, group, having, order, limit, offset)) == marks + Marks(having)
  {
    var m := marks + Marks(having);
    Extend(front, bound, marks, group);
    Extend(front + group, bound + group, marks, having);
    Extend(front + group + having, bound + group + boundHaving, m, order);
    Extend(front + group + having + order, bound + group + boundHaving + order, m, limit);
    Extend(front + group + having + order + limit, bound + group + boundHaving + order + limit, m, offset);
  }

  lemma HavingPiece(q: Query, start: nat)
    requires AllMatched(q.having)
    ensures ListPiece(" HAVING ", BoundTexts(q.having, start), " AND ")
            == Bind(ListPiece(" HAVING ", Exprs(q.having), " AND "), start)
    ensures |Args(q.having)| == Marks(ListPiece(" HAVING ", Exprs(q.having), " AND "))
  {
    NoMarks(" HAVING "); NoMarks(" AND ");
    PieceBound(" HAVING ", q.having, start, " AND ");
  }

  lemma NumberUnmarked(prefix: string, n: Option<nat>)
    requires '?' !in prefix
    ensures Marks(NumberPiece(prefix, n)) == 0
  {
    NoMarks(NumberPiece(prefix, n));
  }

  lemma TextBindsOnce(q: Query)
    requires WellMarked(q)
    ensures ClausewiseText(q) == Bind(UnboundText(q), 1)
    ensures |JoinArgs(q.joins)| + |Args(q.where_)| + |Args(q.having)| == Marks(UnboundText(q))
  {
    var marks := |JoinArgs(q.joins)| + |Args(q.where_)|;
    SelectFront(q);
    HavingPiece(q, HavingStart(q));
    NumberUnmarked(" LIMIT ", q.limit);
    NumberUnmarked(" OFFSET ", q.offset);
    SelectTail(UnboundFront(q), BoundFront(q), marks, HavingStart(q), ListPiece(" GROUP BY ", q.groupBy, ", "),
        ListPiece(" HAVING ", Exprs(q.having), " AND "),
               ListPiece(" HAVING ", BoundTexts(q.having, HavingStart(q)), " AND "),
                   ListPiece(" ORDER BY ", q.orderBy, ", "),
               NumberPiece(" LIMIT ", q.limit), NumberPiece(" OFFSET ", q.offset));
  }

  /** Clause-by-clause binding of a SELECT is binding the statement once, with one argument per placeholder. */
  lemma SelectBindsOnce(q: Query)
    requires WellMarked(q) && q.table != ""
    ensures ClausewiseSelect(q).value == Bind(UnboundSelect(q).value, 1)
    ensures |SelectArgs(q)| == Marks(UnboundSelect(q).value)
  {
    SelectTexts(q);
    TextBindsOnce(q);
  }

  // -------------------------------------------------------------------------- UPDATE

  datatype Column = Column(name: string, primaryKey: bool, version: bool)

  /** The assignments an update makes, as clauses: every collected value except keys and the version column. */
  function Assignments(columns: seq<Column>, values: map<string, Arg>, pk: set<string>): seq<Predicate> {
    if columns == [] then []
    else
      var c := columns[0];
      (if c.name in pk || c.version || c.name !in values then [] else [Equals(c.name, values[c.name])])
      + Assignments(columns[1..], values, pk)
  }

  function Equals(column: string, value: Arg): Predicate {
    Predicate(QuoteIdent(column) + " = ?", [value])
  }

  /** A mark behind an unmarked text. */
  lemma MarkBehind(head: string, start: nat)
    requires Marks(head) == 0
    ensures Bind(head + "?", start) == head + Placeholder(start) && Marks(head + "?") == 1
  {
    BindNothing(head, start);
    BindSplit(head, "?", start, start);
    OneMark(start);
  }

  lemma OneMark(start: nat)
    ensures Bind("?", start) == Placeholder(start) && Marks("?") == 1
  {
    assert "?"[1..] == "" && Placeholder(start) + "" == Placeholder(start);
  }

  lemma EqualsBound(name: string, value: Arg, start: nat)
    requires '?' !in name
    ensures BoundText(Equals(name, value), start) == QuoteIdent(name) + " = " + Placeholder(start)
    ensures Matched(Equals(name, value)) && UsedArgs(Equals(name, value)) == [value]
  {
    var head := QuoteIdent(name) + " = ";
    QuotedHasNoMark(name);
    NoMarks(head);
    MarkBehind(head, start);
    assert head + "?" == QuoteIdent(name) + " = ?";
  }

  lemma {:induction false} QuotedHasNoMark(name: string)
    requires '?' !in name
    ensures '?' !in QuoteIdent(name)
  {
    if name != "" {
      QuotedHasNoMark(name[1..]);
      assert DoubleQuotes(name[1..]) == QuoteIdent(name[1..])[1..|QuoteIdent(name[1..])| - 1];
    }
  }

  predicate UnmarkedColumns(columns: seq<Column>) {
    forall i :: 0 <= i < |columns| ==> '?' !in columns[i].name
  }

  lemma {:induction false} AssignmentsMatched(columns: seq<Column>, values: map<string, Arg>, pk: set<string>)
    requires UnmarkedColumns(columns)
    ensures AllMatched(Assignments(columns, values, pk))
  {
    if columns != [] {
      AssignmentsMatched(columns[1..], values, pk);
      EqualsBound(columns[0].name, 0, 1);
      var c, rest := columns[0], Assignments(columns[1..], values, pk);
      assert [] + rest == rest;
      if !(c.name in pk || c.version || c.name !in values) {
        assert ([Equals(c.name, values[c.name])] + rest)[1..] == rest;
        EqualsBound(c.name, values[c.name], 1);
      }
    }
  }

  /** The column takes part in the SET list. */
  predicate Assigned(c: Column, values: map<string, Arg>, pk: set<string>) {
    c.name !in pk && !c.version && c.name in values
  }

  lemma NextAssignment(columns: seq<Column>, i: nat, values: map<string, Arg>, pk: set<string>, start: nat)
    requires i < |columns| && UnmarkedColumns(columns)
    ensures var (all, rest) := (Assignments(columns[i..], values, pk), Assignments(columns[i + 1..], values, pk));
            var c := columns[i];
            if Assigned(c, values, pk) then
              && BoundTexts(all, start) == [QuoteIdent(c.name) + " = " + Placeholder(start)] +
                  BoundTexts(rest, start + 1)
              && Args(all) == [values[c.name]] + Args(rest)
            else BoundTexts(all, start) == BoundTexts(rest, start) && Args(all) == Args(rest)
  {
    var c, rest := columns[i], Assignments(columns[i + 1..], values, pk);
    assert columns[i..][0] == c && columns[i..][1..] == columns[i + 1..];
    if Assigned(c, values, pk) {
      EqualsBound(c.name, values[c.name], start);
      FirstClause(Equals(c.name, values[c.name]), rest, start, start + 1);
    } else {
      assert [] + rest == rest;
    }
  }

  /** The SET list as rendered. */
  function SetTexts(columns: seq<Column>, values: map<string, Arg>, pk: set<string>, start: nat): seq<string> {
    if columns == [] then []
    else if Assigned(columns[0], values, pk) then
      [QuoteIdent(columns[0].name) + " = " + Placeholder(start)] + SetTexts(columns[1..], values, pk, start + 1)
    else SetTexts(columns[1..], values, pk, start)
  }

  function SetArgs(columns: seq<Column>, values: map<string, Arg>, pk: set<string>): seq<Arg> {
    if columns == [] then []
    else (if Assigned(columns[0], values, pk) then [values[columns[0].name]] else []) +
         SetArgs(columns[1..], values, pk)
  }

  /** For unmarked column names that is the assignments bound as clauses. */
  lemma {:induction false} SetAsClauses(columns: seq<Column>, values: map<string, Arg>, pk: set<string>, start: nat)
    requires UnmarkedColumns(columns)
    ensures SetTexts(columns, values, pk, start) == BoundTexts(Assignments(columns, values, pk), start)
    ensures SetArgs(columns, values, pk) == Args(Assignments(columns, values, pk))
  {
    if columns != [] {
      assert forall i :: 0 <= i < |columns[1..]| ==> columns[1..][i] == columns[i + 1];
      NextAssignment(columns, 0, values, pk, start);
      assert columns[0..] == columns;
      SetAsClauses(columns[1..], values, pk, if Assigned(columns[0], values, pk) then start + 1 else start);
    }
  }

  method UpdateSetClauses(columns: seq<Column>, values: map<string, Arg>, pkCols: seq<string>)
    returns (set_: seq<string>, args: seq<Arg>)
    ensures set_ == SetTexts(columns, values, set n | n in pkCols, 1)
    ensures args == SetArgs(columns, values, set n | n in pkCols)
  {
    var pk := set n | n in pkCols;
    set_, args := [], [];
    for i := 0 to |columns|
      invariant set_ + SetTexts(columns[i..], values, pk, |args| + 1) == SetTexts(columns, values, pk, 1)
      invariant args + SetArgs(columns[i..], values, pk) == SetArgs(columns, values, pk)
    {
      set_, args := UpdateSetClause(columns, i, values, pk, set_, args);
    }
  }

  /** The body of the loop over the columns; the placeholder index runs with the arguments. */
  method UpdateSetClause(columns: seq<Column>, i: nat, values: map<string, Arg>, pk: set<string>, set_: seq<string>,
                         args: seq<Arg>)
    returns (set': seq<string>, args': seq<Arg>)
    requires i < |columns|
    ensures set' + SetTexts(columns[i + 1..], values, pk, |args'| + 1)
            == set_ + SetTexts(columns[i..], values, pk, |args| + 1)
    ensures args' + SetArgs(columns[i + 1..], values, pk) == args + SetArgs(columns[i..], values, pk)
  {
    var col := columns[i];
    assert columns[i..][0] == col && columns[i..][1..] == columns[i + 1..];
    if col.name in pk { return set_, args; }
    if col.version { return set_, args; }
    if col.name !in values { return set_, args; }
    set' := set_ + [QuoteIdent(col.name) + " = " + Placeholder(|args| + 1)];
    args' := args + [values[col.name]];
    Regrouped(set_, [QuoteIdent(col.name) + " = " + Placeholder(|args| + 1)],
        SetTexts(columns[i + 1..], values, pk, |args| + 2));
  }

  function KeyPredicates(cols: seq<string>, args: seq<Arg>): seq<Predicate>
    requires |cols| == |args|
  {
    if cols == [] then [] else [Equals(cols[0], args[0])] + KeyPredicates(cols[1..], args[1..])
  }

  predicate Unmarked(names: seq<string>) {
    forall i :: 0 <= i < |names| ==> '?' !in names[i]
  }

  lemma {:induction false} KeysMatched(cols: seq<string>, args: seq<Arg>)
    requires |cols| == |args| && Unmarked(cols)
    ensures AllMatched(KeyPredicates(cols, args)) && Args(KeyPredicates(cols, args)) == args
  {
    if cols != [] {
      KeysMatched(cols[1..], args[1..]);
      EqualsBound(cols[0], args[0], 1);
      assert KeyPredicates(cols, args)[1..] == KeyPredicates(cols[1..], args[1..]);
      assert args == [args[0]] + args[1..];
    }
  }

  /** Key equalities as rendered. */
  function KeyTexts(cols: seq<string>, start: nat): seq<string> {
    if cols == [] then [] else [QuoteIdent(cols[0]) + " = " + Placeholder(start)] + KeyTexts(cols[1..], start + 1)
  }

  lemma {:induction false} KeysAsClauses(cols: seq<string>, args: seq<Arg>, start: nat)
    requires |cols| == |args| && Unmarked(cols)
    ensures KeyTexts(cols, start) == BoundTexts(KeyPredicates(cols, args), start)
  {
    if cols != [] {
      KeysAsClauses(cols[1..], args[1..], start + 1);
      EqualsBound(cols[0], args[0], start);
      assert KeyPredicates(cols, args)[1..] == KeyPredicates(cols[1..], args[1..]);
    }
  }

  /** The part of buildWhereClauses over the key columns. */
  method KeyClauses(cols: seq<string>, start: nat) returns (where_: seq<string>, argIndex: nat)
    ensures where_ == KeyTexts(cols, start) && argIndex == start + |cols|
  {
    where_, argIndex := [], start;
    for i := 0 to |cols|
      invariant argIndex == start + i && where_ + KeyTexts(cols[i..], argIndex) == KeyTexts(cols, start)
    {
      assert cols[i..][0] == cols[i] && cols[i..][1..] == cols[i + 1..];
      Regrouped(where_, [QuoteIdent(cols[i]) + " = " + Placeholder(argIndex)], KeyTexts(cols[i + 1..], argIndex + 1));
      where_ := where_ + [QuoteIdent(cols[i]) + " = " + Placeholder(argIndex)];
      argIndex := argIndex + 1;
    }
  }

  method BuildWhereClauses(cols: seq<string>, args: seq<Arg>, extra: seq<Predicate>, start: nat)
    returns (where_: seq<string>, whereArgs: seq<Arg>)
    requires |cols| == |args|
    ensures where_ == KeyTexts(cols, start) + BoundTexts(extra, start + |cols|)
    ensures whereArgs == args + Args(extra)
  {
    var argIndex;
    where_, argIndex := KeyClauses(cols, start);
    var clauses, extraArgs := BindAll(extra, argIndex);
    where_ := where_ + clauses;
    whereArgs := args + extraArgs;
  }

  /** What Session.update has decided before it renders. */
  datatype Update = Update(
    table: string, columns: seq<Column>, values: map<string, Arg>, keyCols: seq<string>, keyArgs: seq<Arg>,
    extra: seq<Predicate>, versionColumn: Option<string>, returning: seq<string>)

  function PrimaryKeys(columns: seq<Column>): seq<string> {
    if columns == [] then [] else (if columns[0].primaryKey then [columns[0].name] else []) + PrimaryKeys(columns[1..])
  }

  function PlainAssignments(u: Update): seq<Predicate> {
    Assignments(u.columns, u.values, set n | n in PrimaryKeys(u.columns))
  }

  function Increment(v: string): Predicate {
    Predicate(QuoteIdent(v) + " = " + QuoteIdent(v) + " + 1", [])
  }

  function SetPredicates(u: Update): seq<Predicate> {
    PlainAssignments(u) + match u.versionColumn case None => [] case Some(v) => [Increment(v)]
  }

  function WherePredicates(u: Update): seq<Predicate>
    requires |u.keyCols| == |u.keyArgs|
  {
    KeyPredicates(u.keyCols, u.keyArgs) + u.extra
  }

  predicate UnmarkedUpdate(u: Update) {
    && |u.keyCols| == |u.keyArgs| && UnmarkedColumns(u.columns) && Unmarked(u.keyCols)
    && (u.versionColumn.Some? ==> '?' !in u.versionColumn.value) && '?' !in u.table
    && Marks(ListPiece(" RETURNING ", QuoteAll(u.returning), ", ")) == 0
  }

  function UnboundUpdate(u: Update): Result<string, RenderError>
    requires |u.keyCols| == |u.keyArgs|
  {
    RenderUpdate(u.table, Exprs(SetPredicates(u)), Exprs(WherePredicates(u)), u.returning)
  }

  function PlainTexts(u: Update): seq<string> {
    SetTexts(u.columns, u.values, set n | n in PrimaryKeys(u.columns), 1)
  }

  function PlainArgs(u: Update): seq<Arg> {
    SetArgs(u.columns, u.values, set n | n in PrimaryKeys(u.columns))
  }

  function VersionTexts(u: Update): seq<string> {
    match u.versionColumn case None => [] case Some(v) => [Increment(v).expr]
  }

  /** The SET list with the version increment, and the WHERE list. */
  function UpdateSet(u: Update): seq<string> {
    PlainTexts(u) + VersionTexts(u)
  }

  function UpdateWhere(u: Update, start: nat): seq<string> {
    KeyTexts(u.keyCols, start) + BoundTexts(u.extra, start + |u.keyCols|)
  }

  function ClausewiseUpdate(u: Update): Result<string, RenderError>
    requires |u.keyCols| == |u.keyArgs|
  {
    RenderUpdate(u.table, UpdateSet(u), UpdateWhere(u, 1 + |PlainArgs(u)|), u.returning)
  }

  function UpdateArgs(u: Update): seq<Arg>
    requires |u.keyCols| == |u.keyArgs|
  {
    PlainArgs(u) + (u.keyArgs + Args(u.extra))
  }

  lemma IncrementBound(v: string, start: nat)
    requires '?' !in v
    ensures AllMatched([Increment(v)]) && Args([Increment(v)]) == [] &&
            BoundTexts([Increment(v)], start) == [Increment(v).expr]
  {
    QuotedHasNoMark(v);
    NoMarks(Increment(v).expr);
    assert [Increment(v)][1..] == [] && UsedArgs(Increment(v)) == [] && Matched(Increment(v));
  }

  lemma SetWithVersion(u: Update)
    requires UnmarkedUpdate(u)
    ensures AllMatched(SetPredicates(u)) && Args(SetPredicates(u)) == Args(PlainAssignments(u))
    ensures BoundTexts(SetPredicates(u), 1) ==
              BoundTexts(PlainAssignments(u), 1) + VersionTexts(u)
  {
    AssignmentsMatched(u.columns, u.values, set n | n in PrimaryKeys(u.columns));
    match u.versionColumn {
      case None => assert SetPredicates(u) == PlainAssignments(u);
      case Some(v) =>
        var mid := 1 + |Args(PlainAssignments(u))|;
        IncrementBound(v, mid);
        BoundTextsAppend(PlainAssignments(u), [Increment(v)], 1, mid);
    }
  }

  /** With unmarked identifiers the lists are those of the clauses, bound one by one. */
  lemma SetAsPredicates(u: Update)
    requires UnmarkedUpdate(u)
    ensures UpdateSet(u) == BoundTexts(SetPredicates(u), 1) && PlainArgs(u) == Args(SetPredicates(u))
  {
    SetWithVersion(u);
    SetAsClauses(u.columns, u.values, set n | n in PrimaryKeys(u.columns), 1);
  }

  lemma WhereAsPredicates(u: Update, start: nat)
    requires UnmarkedUpdate(u)
    ensures UpdateWhere(u, start) == BoundTexts(WherePredicates(u), start)
    ensures u.keyArgs + Args(u.extra) == Args(WherePredicates(u))
  {
    KeysAsClauses(u.keyCols, u.keyArgs, start);
    KeysMatched(u.keyCols, u.keyArgs);
    BoundTextsAppend(KeyPredicates(u.keyCols, u.keyArgs), u.extra, start, start + |u.keyCols|);
  }

  /** The statement part of Session.update; without an assignment it fails before the version is added. */
  method BuildUpdateSQL(u: Update) returns (r: Result<string, RenderError>, args: seq<Arg>)
    requires |u.keyCols| == |u.keyArgs|
    ensures PlainTexts(u) == [] ==> r == Failure(NoSetClauses)
    ensures PlainTexts(u) != [] ==> r == ClausewiseUpdate(u) && args == UpdateArgs(u)
  {
    var set_;
    set_, args := UpdateSetClauses(u.columns, u.values, PrimaryKeys(u.columns));
    assert set_ == PlainTexts(u) && args == PlainArgs(u);
    if |set_| == 0 { return Failure(NoSetClauses), []; }
    if u.versionColumn.Some? {
      var v := u.versionColumn.value;
      set_ := set_ + [QuoteIdent(v) + " = " + QuoteIdent(v) + " + 1"];
    }
    assert set_ == UpdateSet(u);
    var where_, whereArgs := BuildWhereClauses(u.keyCols, u.keyArgs, u.extra, |args| + 1);
    assert where_ == UpdateWhere(u, 1 + |PlainArgs(u)|);
    r := RenderUpdate(u.table, set_, where_, u.returning);
    args := args + whereArgs;
  }

  lemma SetPiece(u: Update)
    requires UnmarkedUpdate(u)
    ensures ListPiece(" SET ", BoundTexts(SetPredicates(u), 1), ", ")
            == Bind(ListPiece(" SET ", Exprs(SetPredicates(u)), ", "), 1)
    ensures |Args(SetPredicates(u))| == Marks(ListPiece(" SET ", Exprs(SetPredicates(u)), ", "))
  {
    SetWithVersion(u);
    NoMarks(", "); NoMarks(" SET ");
    PieceBound(" SET ", SetPredicates(u), 1, ", ");
  }

  lemma WherePiece(u: Update, start: nat)
    requires UnmarkedUpdate(u) && AllMatched(u.extra)
    ensures ListPiece(" WHERE ", BoundTexts(WherePredicates(u), start), " AND ")
            == Bind(ListPiece(" WHERE ", Exprs(WherePredicates(u)), " AND "), start)
    ensures |Args(WherePredicates(u))| == Marks(ListPiece(" WHERE ", Exprs(WherePredicates(u)), " AND "))
  {
    WheresMatched(u);
    ConditionPiece(WherePredicates(u), start);
  }

  lemma UpdateHead(u: Update)
    requires UnmarkedUpdate(u)
    ensures Marks("UPDATE " + QuoteIdent(u.table)) == 0
  {
    QuotedHasNoMark(u.table);
    NoMarks("UPDATE " + QuoteIdent(u.table));
  }

  /** Clause-by-clause binding of an UPDATE is binding the statement once, with one argument per placeholder. */
  lemma UpdateBindsOnce(u: Update)
    requires UnmarkedUpdate(u) && AllMatched(u.extra) && u.table != "" && SetPredicates(u) != []
    ensures ClausewiseUpdate(u) == Success(Bind(UnboundUpdate(u).value, 1))
    ensures |UpdateArgs(u)| == Marks(UnboundUpdate(u).value)
  {
    var mid := 1 + |PlainArgs(u)|;
    SetAsPredicates(u);
    WhereAsPredicates(u, mid);
    SetPiece(u);
    WherePiece(u, mid);
    UpdateHead(u);
    UpdatePieces("UPDATE " + QuoteIdent(u.table), ListPiece(" SET ", Exprs(SetPredicates(u)), ", "),
                 ListPiece(" WHERE ", Exprs(WherePredicates(u)), " AND "),
                     ListPiece(" RETURNING ", QuoteAll(u.returning), ", "), mid);
  }

  lemma WheresMatched(u: Update)
    requires UnmarkedUpdate(u) && AllMatched(u.extra)
    ensures AllMatched(WherePredicates(u))
  {
    KeysMatched(u.keyCols, u.keyArgs);
    BoundTextsAppend(KeyPredicates(u.keyCols, u.keyArgs), u.extra, 1, 1 + |u.keyCols|);
  }

  lemma UpdatePieces(head: string, a: string, b: string, tail: string, mid: nat)
    requires Marks(head) == 0 && Marks(tail) == 0 && mid == 1 + Marks(a)
    ensures Bind(UpdateText(head, a, b, tail), 1) == UpdateText(head, Bind(a, 1), Bind(b, mid), tail)
    ensures Marks(UpdateText(head, a, b, tail)) == Marks(a) + Marks(b)
  {
    BindNothing(head, 1);
    Extend(head, head, 0, a);
    Extend(head + a, head + Bind(a, 1), Marks(a), b);
    Extend(head + a + b, head + Bind(a, 1) + Bind(b, mid), Marks(a) + Marks(b), tail);
  }

  // ---------------------------------------------- which placeholders a bound text holds

  function DigitRun(t: string): (k: nat)
    ensures k <= |t| && forall i :: 0 <= i < k ==> IsDigit(t[i])
  {
    if t == "" || !IsDigit(t[0]) then 0 else 1 + DigitRun(t[1..])
  }

  /** The numbers behind the dollar signs, left to right, each as long as it can be. */
  function Placeholders(t: string): seq<nat>
    decreases |t|
  {
    if t == "" then []
    else if t[0] == '$' && DigitRun(t[1..]) > 0 then
      var k := DigitRun(t[1..]);
      [Value(t[1..][..k])] + Placeholders(t[1..][k..])
    else Placeholders(t[1..])
  }

  /** No dollar sign of its own, and no digit right behind a mark. */
  predicate Unambiguous(q: string) {
    '$' !in q && forall i :: 0 <= i < |q| - 1 && q[i] == '?' ==> !IsDigit(q[i + 1])
  }

  lemma {:induction false} DigitRunStops(digits: string, rest: string)
    requires forall i :: 0 <= i < |digits| ==> IsDigit(digits[i])
    requires rest == "" || !IsDigit(rest[0])
    ensures DigitRun(digits + rest) == |digits|
  {
    if digits == "" {
      assert digits + rest == rest;
    } else {
      assert (digits + rest)[1..] == digits[1..] + rest;
      DigitRunStops(digits[1..], rest);
    }
  }

  lemma ReadHead(t: string, rest: string, k: nat)
    requires t != "" && t[0] == '$' && t[1..] == rest && DigitRun(rest) == k > 0
    ensures Placeholders(t) == [Value(rest[..k])] + Placeholders(rest[k..])
  {
  }

  lemma ReadNumber(digits: string, tail: string)
    requires digits != "" && (forall i :: 0 <= i < |digits| ==> IsDigit(digits[i]))
    requires tail == "" || !IsDigit(tail[0])
    ensures Placeholders("$" + digits + tail) == [Value(digits)] + Placeholders(tail)
  {
    var t, rest := "$" + digits + tail, digits + tail;
    DigitRunStops(digits, tail);
    TakeDigits(digits, tail);
    assert t[0] == '$' && t[1..] == rest;
    ReadHead(t, rest, |digits|);
  }

  /** Reading one placeholder off a text. */
  lemma ReadPlaceholder(n: nat, tail: string)
    requires tail == "" || !IsDigit(tail[0])
    ensures Placeholders(Placeholder(n) + tail) == [n] + Placeholders(tail)
  {
    ValueOfItoa(n);
    ReadNumber(Itoa(n), tail);
  }

  lemma TakeDigits(digits: string, tail: string)
    ensures (digits + tail)[..|digits|] == digits && (digits + tail)[|digits|..] == tail
  {
  }

  function Counting(n: nat, from: nat): seq<nat> {
    if n == 0 then [] else [from] + Counting(n - 1, from + 1)
  }

  /** The bound statement holds exactly $1, ..., $n, in this order. */
  lemma {:induction false} PlaceholdersInOrder(q: string, start: nat)
    requires Unambiguous(q)
    ensures Placeholders(Bind(q, start)) == Counting(Marks(q), start)
    ensures q != "" && !IsDigit(q[0]) ==> Bind(q, start) != "" && !IsDigit(Bind(q, start)[0])
    decreases |q|
  {
    if q != "" {
      var rest := q[1..];
      assert Unambiguous(rest) by {
        assert forall i :: 0 <= i < |rest| ==> rest[i] == q[i + 1] && rest[i] in q;
      }
      if q[0] == '?' {
        PlaceholdersInOrder(rest, start + 1);
        assert rest != "" ==> !IsDigit(q[0 + 1]);
        ReadPlaceholder(start, Bind(rest, start + 1));
      } else {
        PlaceholdersInOrder(rest, start);
        assert q[0] in q;
        assert ([q[0]] + Bind(rest, start))[1..] == Bind(rest, start);
      }
    }
  }

  /** A rendered SELECT asks for exactly $1, ..., $n in this order, and carries n arguments. */
  lemma SelectNumbersItsArguments(q: Query)
    requires WellMarked(q) && q.table != "" && Unambiguous(UnboundSelect(q).value)
    ensures Placeholders(ClausewiseSelect(q).value) == Counting(|SelectArgs(q)|, 1)
  {
    SelectBindsOnce(q);
    PlaceholdersInOrder(UnboundSelect(q).value, 1);
  }

  /** And so does an UPDATE. */
  lemma UpdateNumbersItsArguments(u: Update, sql: string)
    requires UnmarkedUpdate(u) && AllMatched(u.extra) && u.table != "" && SetPredicates(u) != [] &&
             Unambiguous(UnboundUpdate(u).value)
    requires ClausewiseUpdate(u) == Success(sql)
    ensures Placeholders(sql) == Counting(|UpdateArgs(u)|, 1)
  {
    UpdateBindsOnce(u);
    PlaceholdersInOrder(UnboundUpdate(u).value, 1);
  }
}
