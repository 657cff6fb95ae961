/** dialect/postgres/postgres.go: what the rendered SELECT and UPDATE texts say when they are read back. */
module StatementText {
  import opened Text
  import opened SqlText
  import opened SqlReader
  import opened Binding
  import opened Wrappers
  import opened WhereText

  const SELECT_HEADS := [["SELECT"], ["FROM"], ["WHERE"], ["GROUP", "BY"], ["HAVING"], ["ORDER", "BY"], ["LIMIT"],
                         ["OFFSET"]]
  const SELECT_STOPS := {"SELECT", "FROM", "WHERE", "GROUP", "HAVING", "ORDER", "LIMIT", "OFFSET"}
  const JOIN_KINDS := {"LEFT", "RIGHT", "INNER", "CROSS"}
  const UPDATE_HEADS := [["UPDATE"], ["SET"], ["WHERE"], ["RETURNING"]]
  const UPDATE_STOPS := {"UPDATE", "SET", "WHERE", "RETURNING"}

  lemma SelectHeadsAreGood()
    ensures GoodHeads(SELECT_HEADS, SELECT_STOPS)
  {
  }

  lemma UpdateHeadsAreGood()
    ensures GoodHeads(UPDATE_HEADS, UPDATE_STOPS)
  {
  }

  // ------------------------------------------------------------------------------- the readers

  datatype SelectParts = SelectParts(
    table: string, distinct: bool, columns: seq<string>, joins: seq<string>, where_: seq<string>, groupBy: seq<string>,
    having: seq<string>, orderBy: seq<string>, limit: Option<nat>, offset: Option<nat>)

  datatype UpdateParts = UpdateParts(table: string, set_: seq<string>, where_: seq<string>, returning: seq<string>)

  function ReadNumber(ws: seq<string>): Option<nat> {
    if |ws| == 1 && forall i :: 0 <= i < |ws[0]| ==> IsDigit(ws[0][i]) then Some(Value(ws[0])) else None
  }

  /** The table a list of words starts with. */
  function ReadTable(ws: seq<string>): Option<string> {
    if ws == [] then None
    else match LexIdent(ws[0]) case None => None case Some((table, rest)) => if rest == "" then Some(table) else None
  }

  function ReadSelect(t: string): Option<SelectParts> {
    match ReadClauses(Words(t), SELECT_HEADS, SELECT_STOPS)
    case None => None
    case Some(b) =>
      var distinct := b[0] != [] && b[0][0] == "DISTINCT";
      match ReadTable(b[1])
      case None => None
      case Some(table) =>
        Some(SelectParts(table, distinct, ReadCommas(if distinct then b[0][1..] else b[0]),
                         ReadGroups(b[1][1..], JOIN_KINDS), ReadAnds(b[2]), ReadCommas(b[3]), ReadAnds(b[4]),
                         ReadCommas(b[5]), ReadNumber(b[6]), ReadNumber(b[7])))
  }

  /** A list of quoted identifiers. */
  function ReadIdents(ws: seq<string>): Option<seq<string>> {
    if ws == [] then Some([])
    else
      match LexList(Join(ws, " "))
      case None => None
      case Some((items, rest)) => if rest == "" then Some(items) else None
  }

  function ReadUpdate(t: string): Option<UpdateParts> {
    match ReadClauses(Words(t), UPDATE_HEADS, UPDATE_STOPS)
    case None => None
    case Some(b) =>
      match (ReadTable(b[0]), ReadIdents(b[3]))
      case (Some(table), Some(returning)) =>
        if |b[0]| == 1 then Some(UpdateParts(table, ReadCommas(b[1]), ReadAnds(b[2]), returning)) else None
      case _ => None
  }

  // ------------------------------------------------------------------------ quoted identifiers are single words

  const INSIDE := Mode(0, Double)

  lemma OnePiece(c: char, rest: string, sep: string, m: Mode)
    requires Separator(sep) && (m != TOP || c == '"') && Cut(rest, sep, Next(m, c)) == [rest]
    ensures Cut([c] + rest, sep, m) == [[c] + rest] && After(m, [c] + rest) == After(Next(m, c), rest)
  {
    assert ([c] + rest)[0] == c && ([c] + rest)[1..] == rest;
    CutFirst(c, rest, sep, m);
  }

  lemma {:induction false} InsideIdent(s: string, sep: string)
    requires Separator(sep)
    ensures Cut(DoubleQuotes(s) + "\"", sep, INSIDE) == [DoubleQuotes(s) + "\""]
    ensures After(INSIDE, DoubleQuotes(s) + "\"") == TOP
  {
    if s == "" {
      OnePiece('"', "", sep, INSIDE);
      assert DoubleQuotes(s) + "\"" == ['"'] + "";
    } else {
      var rest := DoubleQuotes(s[1..]) + "\"";
      InsideIdent(s[1..], sep);
      if s[0] == '"' {
        OnePiece('"', rest, sep, TOP);
        OnePiece('"', ['"'] + rest, sep, INSIDE);
        assert DoubleQuotes(s) + "\"" == ['"'] + (['"'] + rest);
      } else {
        OnePiece(s[0], rest, sep, INSIDE);
        assert DoubleQuotes(s) + "\"" == [s[0]] + rest;
      }
    }
  }

  lemma IdentIsOneWord(s: string)
    ensures Words(QuoteIdent(s)) == [QuoteIdent(s)] && Items(QuoteIdent(s)) == [QuoteIdent(s)]
    ensures Closed(QuoteIdent(s)) && QuoteIdent(s)[|QuoteIdent(s)| - 1] == '"'
  {
    var rest := DoubleQuotes(s) + "\"";
    InsideIdent(s, " ");
    InsideIdent(s, ", ");
    OnePiece('"', rest, " ", TOP);
    OnePiece('"', rest, ", ", TOP);
    assert QuoteIdent(s) == ['"'] + rest;
  }

  // ------------------------------------------------------------------------------ the words of the texts

  /** A text with a list behind it. */
  lemma AddList(front: string, head: string, headWords: seq<string>, items: seq<string>, sep: string)
    requires Closed(front) && Closed(head) && Words(head) == headWords
    requires AllClosed(items) && (sep == ", " || sep == " AND ")
    ensures var t := front + ListPiece(" " + head + " ", items, sep);
            var list := if items == [] then [] else Words(Join(items, sep));
            Closed(t) && Words(t) == Words(front) + Section(headWords, list)
  {
    if items == [] {
      assert front + "" == front;
    } else {
      var list := Join(items, sep);
      JoinClosed(items, sep);
      WordsApart(head, list);
      WordsApart(front, head + " " + list);
      assert front + ((" " + head + " ") + list) == front + " " + (head + " " + list);
    }
  }

  lemma AddNumber(front: string, head: string, n: Option<nat>)
    requires Closed(front) && PlainText(head)
    ensures var t := front + NumberPiece(" " + head + " ", n);
            Closed(t) && Words(t) == Words(front) + Section([head], match n case None => [] case Some(v) => [Itoa(v)])
  {
    match n {
      case None => assert front + "" == front;
      case Some(v) =>
        PlainIsOneWord(head);
        PlainIsOneWord(Itoa(v));
        WordsApart(head, Itoa(v));
        WordsApart(front, head + " " + Itoa(v));
        assert front + ((" " + head + " ") + Itoa(v)) == front + " " + (head + " " + Itoa(v));
    }
  }

  // ----------------------------------------------------------------------------------- SELECT

  /** Entries of a comma list that hold no top-level comma and no keyword. */
  predicate Entries(items: seq<string>, stops: set<string>) {
    AllClosed(items) && SingleItems(items) && AllFree(items, stops)
  }

  /** Conditions without a keyword and without a top-level AND; anything goes in quotes and parentheses. */
  predicate Conditions(items: seq<string>, stops: set<string>) {
    AllClosed(items) && AllFree(items, stops) && Lacks(items, "AND")
  }

  /** The fragments hold none of these words; joins start with the one word of theirs that starts a join. */
  predicate ReadablePast(p: SelectParts, stops: set<string>, kinds: set<string>) {
    && Entries(p.columns, stops + {"DISTINCT"}) && AllStart(p.joins, kinds) && AllFree(p.joins, stops)
    && Conditions(p.where_, stops) && Entries(p.groupBy, stops) && Conditions(p.having, stops)
    && Entries(p.orderBy, stops)
  }

  predicate Readable(p: SelectParts) {
    ReadablePast(p, SELECT_STOPS, JOIN_KINDS)
  }

  function RenderParts(p: SelectParts): Result<string, RenderError> {
    RenderSelect(p.table, p.columns, p.distinct, p.joins, p.where_, p.groupBy, p.having, p.orderBy, p.limit, p.offset)
  }

  function SelectList(columns: seq<string>): (r: seq<string>)
    ensures r != []
  {
    if columns == [] then ["*"] else columns
  }

  function ListBody(items: seq<string>, sep: string): seq<string>
    requires sep == " " || sep == ", " || sep == " AND "
  {
    if items == [] then [] else Words(Join(items, sep))
  }

  function NumberBody(n: Option<nat>): seq<string> {
    match n case None => [] case Some(v) => [Itoa(v)]
  }

  function ColumnBody(distinct: bool, columns: seq<string>): seq<string> {
    (if distinct then ["DISTINCT"] else []) + Words(Join(SelectList(columns), ", "))
  }

  /** The words behind each keyword of a SELECT. */
  function SelectBodies(p: SelectParts): (r: seq<seq<string>>)
    ensures |r| == |SELECT_HEADS|
  {
    [ColumnBody(p.distinct, p.columns), [QuoteIdent(p.table)] + ListBody(p.joins, " "), ListBody(p.where_, " AND "),
     ListBody(p.groupBy, ", "), ListBody(p.having, " AND "), ListBody(p.orderBy, ", "), NumberBody(p.limit),
     NumberBody(p.offset)]
  }

  lemma StarIsAnEntry(columns: seq<string>, stops: set<string>)
    requires Entries(columns, stops) && "*" !in stops
    ensures Entries(SelectList(columns), stops)
  {
    PlainIsOneWord("*");
  }

  /** A keyword in front of a text. */
  lemma KeywordFirst(prefix: string, w: string, tail: string)
    requires PlainText(w) && prefix == w + " "
    ensures Words(prefix + tail) == [w] + Words(tail) && (Closed(prefix + tail) <==> Closed(tail))
  {
    PlainIsOneWord(w);
    WordsApart(w, tail);
  }

  lemma ColumnWords(distinct: bool, columns: seq<string>)
    requires AllClosed(columns)
    ensures var list := (if distinct then "DISTINCT " else "") + Join(SelectList(columns), ", ");
            Closed(list) && Words(list) == ColumnBody(distinct, columns)
  {
    var list := Join(SelectList(columns), ", ");
    PlainIsOneWord("*");
    JoinClosed(SelectList(columns), ", ");
    if distinct {
      KeywordFirst("DISTINCT ", "DISTINCT", list);
    } else {
      assert "" + list == list && [] + Words(list) == Words(list);
    }
  }

  /** The text up to the table. */
  lemma HeadWords(table: string, distinct: bool, columns: seq<string>)
    requires AllClosed(columns)
    ensures var head := SelectHead(table, columns, distinct);
            && Closed(head)
            && Words(head) == ["SELECT"] + ColumnBody(distinct, columns) + (["FROM"] + [QuoteIdent(table)])
  {
    var list := (if distinct then "DISTINCT " else "") + Join(SelectList(columns), ", ");
    ColumnWords(distinct, columns);
    KeywordFirst("SELECT ", "SELECT", list);
    IdentIsOneWord(table);
    KeywordFirst("FROM ", "FROM", QuoteIdent(table));
    WordsApart("SELECT " + list, "FROM " + QuoteIdent(table));
    HeadParts("SELECT ", if distinct then "DISTINCT " else "", Join(SelectList(columns), ", "), QuoteIdent(table));
  }

  lemma HeadParts(a: string, b: string, c: string, d: string)
    ensures a + b + c + " FROM " + d == (a + (b + c)) + " " + ("FROM " + d)
  {
  }

  /** The text up to the joins. */
  lemma FromWords(p: SelectParts)
    requires AllClosed(p.columns) && AllClosed(p.joins)
    ensures var t := SelectHead(p.table, p.columns, p.distinct) + ListPiece(" ", p.joins, " ");
            && Closed(t)
            && Words(t) == (["SELECT"] + SelectBodies(p)[0]) + (["FROM"] + SelectBodies(p)[1])
  {
    var head := SelectHead(p.table, p.columns, p.distinct);
    var first := ["SELECT"] + ColumnBody(p.distinct, p.columns);
    HeadWords(p.table, p.distinct, p.columns);
    if p.joins == [] {
      assert head + "" == head && [QuoteIdent(p.table)] + [] == [QuoteIdent(p.table)];
    } else {
      JoinClosed(p.joins, " ");
      WordsApart(head, Join(p.joins, " "));
      assert head + (" " + Join(p.joins, " ")) == head + " " + Join(p.joins, " ");
      Regrouped(first, ["FROM"] + [QuoteIdent(p.table)], Words(Join(p.joins, " ")));
      Regrouped(["FROM"], [QuoteIdent(p.table)], Words(Join(p.joins, " ")));
    }
  }

  lemma StartsAreClosed(items: seq<string>, kinds: set<string>)
    requires AllStart(items, kinds)
    ensures AllClosed(items)
  {
    forall i | 0 <= i < |items| ensures Closed(items[i]) { assert Starts(items[i], kinds); }
  }

  lemma LayFirstTwo(heads: seq<seq<string>>, bodies: seq<seq<string>>)
    requires |heads| == |bodies| >= 2 && bodies[0] != [] && bodies[1] != []
    ensures Lay(heads[..2], bodies[..2]) == (heads[0] + bodies[0]) + (heads[1] + bodies[1])
  {
    var h, b := heads[..2], bodies[..2];
    assert h[1..] == [heads[1]] && b[1..] == [bodies[1]] && [heads[1]][1..] == [] && [bodies[1]][1..] == [];
    assert Lay([heads[1]], [bodies[1]]) == Section(heads[1], bodies[1]) + [];
    assert Lay(h, b) == Section(heads[0], bodies[0]) + Lay(h[1..], b[1..]);
  }

  /** A text and one more section, in words. */
  lemma {:induction false} LayOneMore(heads: seq<seq<string>>, bodies: seq<seq<string>>, k: nat)
    requires |heads| == |bodies| && k < |heads|
    ensures Lay(heads[..k + 1], bodies[..k + 1]) == Lay(heads[..k], bodies[..k]) + Section(heads[k], bodies[k])
    decreases k
  {
    if k == 0 {
      assert heads[..1] == [heads[0]] && bodies[..1] == [bodies[0]] && [heads[0]][1..] == [] && heads[..0] == [];
    } else {
      assert heads[..k + 1][1..] == heads[1..][..k] && bodies[..k + 1][1..] == bodies[1..][..k];
      assert heads[..k][1..] == heads[1..][..k - 1] && bodies[..k][1..] == bodies[1..][..k - 1];
      LayOneMore(heads[1..], bodies[1..], k - 1);
      Regrouped(Section(heads[0], bodies[0]), Lay(heads[..k][1..], bodies[..k][1..]), Section(heads[k], bodies[k]));
    }
  }

  /** The text says the first k sections. */
  predicate Says(t: string, heads: seq<seq<string>>, bodies: seq<seq<string>>, k: nat)
    requires k <= |heads| == |bodies|
  {
    Closed(t) && Words(t) == Lay(heads[..k], bodies[..k])
  }

  lemma SayList(t: string, prefix: string, head: string, items: seq<string>, sep: string, heads: seq<seq<string>>,
                bodies: seq<seq<string>>, k: nat)
    requires k < |heads| == |bodies| && Says(t, heads, bodies, k) && prefix == " " + head + " "
    requires Closed(head) && Words(head) == heads[k] && AllClosed(items)
    requires (sep == ", " || sep == " AND ") && bodies[k] == ListBody(items, sep)
    ensures Says(t + ListPiece(prefix, items, sep), heads, bodies, k + 1)
  {
    AddList(t, head, heads[k], items, sep);
    LayOneMore(heads, bodies, k);
  }

  lemma SayNumber(t: string, prefix: string, head: string, n: Option<nat>, heads: seq<seq<string>>,
                  bodies: seq<seq<string>>, k: nat)
    requires k < |heads| == |bodies| && Says(t, heads, bodies, k) && prefix == " " + head + " "
    requires PlainText(head) && heads[k] == [head] && bodies[k] == NumberBody(n)
    ensures Says(t + NumberPiece(prefix, n), heads, bodies, k + 1)
  {
    AddNumber(t, head, n);
    LayOneMore(heads, bodies, k);
  }

  lemma SayFrom(p: SelectParts)
    requires AllClosed(p.columns) && AllClosed(p.joins)
    ensures Says(SelectHead(p.table, p.columns, p.distinct) + ListPiece(" ", p.joins, " "), SELECT_HEADS,
                 SelectBodies(p), 2)
  {
    FromWords(p);
    LayFirstTwo(SELECT_HEADS, SelectBodies(p));
  }

  lemma TwoWords(a: string, b: string)
    requires PlainText(a) && PlainText(b)
    ensures Closed(a + " " + b) && Words(a + " " + b) == [a, b]
  {
    PlainIsOneWord(a);
    PlainIsOneWord(b);
    WordsApart(a, b);
  }

  /** A list behind one keyword, and behind two. */
  lemma SayOne(t: string, prefix: string, w: string, items: seq<string>, sep: string, heads: seq<seq<string>>,
               bodies: seq<seq<string>>, k: nat)
    requires k < |heads| == |bodies| && Says(t, heads, bodies, k) && AllClosed(items)
    requires PlainText(w) && prefix == " " + w + " " && heads[k] == [w]
    requires (sep == ", " || sep == " AND ") && bodies[k] == ListBody(items, sep)
    ensures Says(t + ListPiece(prefix, items, sep), heads, bodies, k + 1)
  {
    PlainIsOneWord(w);
    SayList(t, prefix, w, items, sep, heads, bodies, k);
  }

  lemma SayTwo(t: string, prefix: string, v: string, w: string, items: seq<string>, sep: string,
               heads: seq<seq<string>>, bodies: seq<seq<string>>, k: nat)
    requires k < |heads| == |bodies| && Says(t, heads, bodies, k) && AllClosed(items)
    requires PlainText(v) && PlainText(w) && prefix == " " + (v + " " + w) + " " && heads[k] == [v, w]
    requires (sep == ", " || sep == " AND ") && bodies[k] == ListBody(items, sep)
    ensures Says(t + ListPiece(prefix, items, sep), heads, bodies, k + 1)
  {
    TwoWords(v, w);
    SayList(t, prefix, v + " " + w, items, sep, heads, bodies, k);
  }

  lemma TwoWordPrefixes()
    ensures " GROUP BY " == " " + ("GROUP" + " " + "BY") + " "
    ensures " ORDER BY " == " " + ("ORDER" + " " + "BY") + " "
  {
  }

  /** The sections behind FROM. */
  ghost predicate SectionsBehindFrom(p: SelectParts, heads: seq<seq<string>>, bodies: seq<seq<string>>) {
    && |heads| == |bodies| == 8
    && heads[2] == ["WHERE"] && bodies[2] == ListBody(p.where_, " AND ") && AllClosed(p.where_)
    && heads[3] == ["GROUP", "BY"] && bodies[3] == ListBody(p.groupBy, ", ") && AllClosed(p.groupBy)
    && heads[4] == ["HAVING"] && bodies[4] == ListBody(p.having, " AND ") && AllClosed(p.having)
    && heads[5] == ["ORDER", "BY"] && bodies[5] == ListBody(p.orderBy, ", ") && AllClosed(p.orderBy)
    && heads[6] == ["LIMIT"] && bodies[6] == NumberBody(p.limit)
    && heads[7] == ["OFFSET"] && bodies[7] == NumberBody(p.offset)
  }

  lemma SayWhere(t: string, items: seq<string>, heads: seq<seq<string>>, bodies: seq<seq<string>>, k: nat)
    requires k < |heads| == |bodies| && Says(t, heads, bodies, k) && AllClosed(items)
    requires heads[k] == ["WHERE"] && bodies[k] == ListBody(items, " AND ")
    ensures Says(t + ListPiece(" WHERE ", items, " AND "), heads, bodies, k + 1)
  {
    SayOne(t, " WHERE ", "WHERE", items, " AND ", heads, bodies, k);
  }

  lemma SayGroupBy(t: string, items: seq<string>, heads: seq<seq<string>>, bodies: seq<seq<string>>, k: nat)
    requires k < |heads| == |bodies| && Says(t, heads, bodies, k) && AllClosed(items)
    requires heads[k] == ["GROUP", "BY"] && bodies[k] == ListBody(items, ", ")
    ensures Says(t + ListPiece(" GROUP BY ", items, ", "), heads, bodies, k + 1)
  {
    TwoWordPrefixes();
    SayTwo(t, " GROUP BY ", "GROUP", "BY", items, ", ", heads, bodies, k);
  }

  lemma SayOrderBy(t: string, items: seq<string>, heads: seq<seq<string>>, bodies: seq<seq<string>>, k: nat)
    requires k < |heads| == |bodies| && Says(t, heads, bodies, k) && AllClosed(items)
    requires heads[k] == ["ORDER", "BY"] && bodies[k] == ListBody(items, ", ")
    ensures Says(t + ListPiece(" ORDER BY ", items, ", "), heads, bodies, k + 1)
  {
    TwoWordPrefixes();
    SayTwo(t, " ORDER BY ", "ORDER", "BY", items, ", ", heads, bodies, k);
  }

  lemma SayHaving(t: string, items: seq<string>, heads: seq<seq<string>>, bodies: seq<seq<string>>, k: nat)
    requires k < |heads| == |bodies| && Says(t, heads, bodies, k) && AllClosed(items)
    requires heads[k] == ["HAVING"] && bodies[k] == ListBody(items, " AND ")
    ensures Says(t + ListPiece(" HAVING ", items, " AND "), heads, bodies, k + 1)
  {
    SayOne(t, " HAVING ", "HAVING", items, " AND ", heads, bodies, k);
  }

  lemma SayLimit(t: string, n: Option<nat>, heads: seq<seq<string>>, bodies: seq<seq<string>>, k: nat)
    requires k < |heads| == |bodies| && Says(t, heads, bodies, k)
    requires heads[k] == ["LIMIT"] && bodies[k] == NumberBody(n)
    ensures Says(t + NumberPiece(" LIMIT ", n), heads, bodies, k + 1)
  {
    SayNumber(t, " LIMIT ", "LIMIT", n, heads, bodies, k);
  }

  lemma SayOffset(t: string, n: Option<nat>, heads: seq<seq<string>>, bodies: seq<seq<string>>, k: nat)
    requires k < |heads| == |bodies| && Says(t, heads, bodies, k)
    requires heads[k] == ["OFFSET"] && bodies[k] == NumberBody(n)
    ensures Says(t + NumberPiece(" OFFSET ", n), heads, bodies, k + 1)
  {
    SayNumber(t, " OFFSET ", "OFFSET", n, heads, bodies, k);
  }

  /** From FROM on: WHERE, GROUP BY and HAVING. */
  lemma SayConditions(t: string, p: SelectParts, heads: seq<seq<string>>, bodies: seq<seq<string>>)
    requires SectionsBehindFrom(p, heads, bodies) && Says(t, heads, bodies, 2)
    ensures Says(t + ListPiece(" WHERE ", p.where_, " AND ") + ListPiece(" GROUP BY ", p.groupBy, ", ")
                 + ListPiece(" HAVING ", p.having, " AND "), heads, bodies, 5)
  {
    SayWhere(t, p.where_, heads, bodies, 2);
    var t3 := t + ListPiece(" WHERE ", p.where_, " AND ");
    SayGroupBy(t3, p.groupBy, heads, bodies, 3);
    SayHaving(t3 + ListPiece(" GROUP BY ", p.groupBy, ", "), p.having, heads, bodies, 4);
  }

  /** And ORDER BY, LIMIT and OFFSET. */
  lemma SayEnd(t: string, p: SelectParts, heads: seq<seq<string>>, bodies: seq<seq<string>>)
    requires SectionsBehindFrom(p, heads, bodies) && Says(t, heads, bodies, 5)
    ensures Says(t + ListPiece(" ORDER BY ", p.orderBy, ", ") + NumberPiece(" LIMIT ", p.limit)
                 + NumberPiece(" OFFSET ", p.offset), heads, bodies, 8)
  {
    SayOrderBy(t, p.orderBy, heads, bodies, 5);
    var t6 := t + ListPiece(" ORDER BY ", p.orderBy, ", ");
    SayLimit(t6, p.limit, heads, bodies, 6);
    SayOffset(t6 + NumberPiece(" LIMIT ", p.limit), p.offset, heads, bodies, 7);
  }

  lemma WholeLay(heads: seq<seq<string>>, bodies: seq<seq<string>>)
    requires |heads| == |bodies|
    ensures Lay(heads[..|heads|], bodies[..|heads|]) == Lay(heads, bodies)
  {
    assert heads[..|heads|] == heads && bodies[..|heads|] == bodies;
  }

  /** The words of a SELECT are its sections, one after the other. */
  lemma SelectWords(p: SelectParts)
    requires AllClosed(p.columns) && AllClosed(p.joins) && AllClosed(p.where_) && AllClosed(p.groupBy)
    requires AllClosed(p.having) && AllClosed(p.orderBy) && p.table != ""
    ensures RenderParts(p).Success? && Words(RenderParts(p).value) == Lay(SELECT_HEADS, SelectBodies(p))
  {
    var t := SelectHead(p.table, p.columns, p.distinct) + ListPiece(" ", p.joins, " ");
    SayFrom(p);
    SayConditions(t, p, SELECT_HEADS, SelectBodies(p));
    SayEnd(t + ListPiece(" WHERE ", p.where_, " AND ") + ListPiece(" GROUP BY ", p.groupBy, ", ")
           + ListPiece(" HAVING ", p.having, " AND "), p, SELECT_HEADS, SelectBodies(p));
    WholeLay(SELECT_HEADS, SelectBodies(p));
  }

  // --------------------------------------------------------------------------- section by section

  lemma EntriesReadBack(items: seq<string>, stops: set<string>)
    requires Entries(items, stops) && NoCommas(stops)
    ensures ReadCommas(ListBody(items, ", ")) == items && Free(ListBody(items, ", "), stops)
  {
    if items != [] {
      CommasReadBack(items);
      CommasFree(items, stops);
    }
  }

  lemma ConditionsReadBack(items: seq<string>, stops: set<string>)
    requires Conditions(items, stops) && "AND" !in stops
    ensures ReadAnds(ListBody(items, " AND ")) == items && Free(ListBody(items, " AND "), stops)
  {
    if items != [] {
      AndsReadBack(items);
      AndsFree(items, stops);
    }
  }

  lemma JoinsReadBack(items: seq<string>, kinds: set<string>, stops: set<string>)
    requires AllStart(items, kinds) && AllFree(items, stops)
    ensures ReadGroups(ListBody(items, " "), kinds) == items && Free(ListBody(items, " "), stops)
  {
    if items != [] {
      GroupsReadBack(items, kinds);
      StartsAreClosed(items, kinds);
      BlanksFree(items, stops);
    }
  }

  lemma NumberReadsBack(n: Option<nat>, stops: set<string>)
    requires Keywords(stops)
    ensures ReadNumber(NumberBody(n)) == n && Free(NumberBody(n), stops)
  {
    if n.Some? {
      ValueOfItoa(n.value);
    }
  }

  /** No keyword is a quoted identifier or a number. */
  predicate Keywords(stops: set<string>) {
    forall w :: w in stops ==> w != "" && w[0] != '"' && !IsDigit(w[0])
  }

  /** Stop words are no separators and nothing a list of ours may start with. */
  ghost predicate GoodStops(stops: set<string>) {
    Keywords(stops) && NoCommas(stops) && "AND" !in stops && "DISTINCT" !in stops && "*" !in stops
  }

  lemma StopsAreKeywords()
    ensures Keywords(SELECT_STOPS) && Keywords(UPDATE_STOPS)
  {
  }

  lemma StopsHaveNoCommas()
    ensures NoCommas(SELECT_STOPS) && NoCommas(UPDATE_STOPS)
  {
  }

  lemma SelectStopsAreGood()
    ensures GoodStops(SELECT_STOPS)
  {
    StopsAreKeywords();
    StopsHaveNoCommas();
  }

  lemma UpdateStopsAreGood()
    ensures GoodStops(UPDATE_STOPS)
  {
    StopsAreKeywords();
    StopsHaveNoCommas();
  }

  lemma TableReadsBack(table: string, more: seq<string>, stops: set<string>)
    requires Keywords(stops) && Free(more, stops)
    ensures ReadTable([QuoteIdent(table)] + more) == Some(table) && Free([QuoteIdent(table)] + more, stops)
    ensures ([QuoteIdent(table)] + more)[1..] == more
  {
    QuoteLexesBackIff(table, "");
    assert QuoteIdent(table) + "" == QuoteIdent(table) && QuoteIdent(table)[0] == '"';
    FreeAppend([QuoteIdent(table)], more, stops);
  }

  lemma FreeOfMore(ws: seq<string>, stops: set<string>, w: string)
    requires Free(ws, stops + {w})
    ensures Free(ws, stops) && w !in ws
  {
  }

  lemma NoCommasMore(stops: set<string>, w: string)
    requires NoCommas(stops) && w != "" && w[|w| - 1] != ','
    ensures NoCommas(stops + {w})
  {
  }

  lemma ColumnsReadBack(distinct: bool, columns: seq<string>, stops: set<string>)
    requires columns != [] && Entries(columns, stops + {"DISTINCT"}) && NoCommas(stops) && "DISTINCT" !in stops
    ensures var b := (if distinct then ["DISTINCT"] else []) + Words(Join(columns, ", "));
            && Free(b, stops) && b != [] && (b[0] == "DISTINCT" <==> distinct)
            && ReadCommas(if distinct then b[1..] else b) == columns
  {
    var list := Words(Join(columns, ", "));
    NoCommasMore(stops, "DISTINCT");
    EntriesReadBack(columns, stops + {"DISTINCT"});
    FreeOfMore(list, stops, "DISTINCT");
    FreeAppend(["DISTINCT"], list, stops);
    assert (["DISTINCT"] + list)[1..] == list && [] + list == list && list[0] in list;
  }

  ghost predicate AndsRead(b: seq<string>, items: seq<string>, stops: set<string>) {
    ReadAnds(b) == items && Free(b, stops)
  }

  ghost predicate CommasRead(b: seq<string>, items: seq<string>, stops: set<string>) {
    ReadCommas(b) == items && Free(b, stops)
  }

  ghost predicate NumberRead(b: seq<string>, n: Option<nat>, stops: set<string>) {
    ReadNumber(b) == n && Free(b, stops)
  }

  ghost predicate ColumnsRead(b: seq<string>, distinct: bool, columns: seq<string>, stops: set<string>) {
    && b != [] && (b[0] == "DISTINCT" <==> distinct) && ReadCommas(if distinct then b[1..] else b) == columns
    && Free(b, stops)
  }

  ghost predicate FromRead(b: seq<string>, table: string, joins: seq<string>, stops: set<string>) {
    b != [] && ReadTable(b) == Some(table) && ReadGroups(b[1..], JOIN_KINDS) == joins && Free(b, stops)
  }

  /** The sections say the parts. */
  ghost predicate ReadsAs(b: seq<seq<string>>, p: SelectParts, stops: set<string>) {
    && |b| == 8 && ColumnsRead(b[0], p.distinct, SelectList(p.columns), stops)
    && FromRead(b[1], p.table, p.joins, stops) && AndsRead(b[2], p.where_, stops) && CommasRead(b[3], p.groupBy, stops)
    && AndsRead(b[4], p.having, stops) && CommasRead(b[5], p.orderBy, stops) && NumberRead(b[6], p.limit, stops)
    && NumberRead(b[7], p.offset, stops)
  }

  lemma ColumnSection(p: SelectParts, b: seq<string>, stops: set<string>)
    requires Entries(p.columns, stops + {"DISTINCT"}) && GoodStops(stops) && b == ColumnBody(p.distinct, p.columns)
    ensures ColumnsRead(b, p.distinct, SelectList(p.columns), stops)
  {
    StarIsAnEntry(p.columns, stops + {"DISTINCT"});
    ColumnsReadBack(p.distinct, SelectList(p.columns), stops);
  }

  lemma FromSection(p: SelectParts, b: seq<string>, stops: set<string>)
    requires AllStart(p.joins, JOIN_KINDS) && AllFree(p.joins, stops) && GoodStops(stops)
    requires b == [QuoteIdent(p.table)] + ListBody(p.joins, " ")
    ensures FromRead(b, p.table, p.joins, stops)
  {
    JoinsReadBack(p.joins, JOIN_KINDS, stops);
    TableReadsBack(p.table, ListBody(p.joins, " "), stops);
  }

  lemma AndSection(items: seq<string>, b: seq<string>, stops: set<string>)
    requires Conditions(items, stops) && GoodStops(stops) && b == ListBody(items, " AND ")
    ensures AndsRead(b, items, stops)
  {
    ConditionsReadBack(items, stops);
  }

  lemma CommaSection(items: seq<string>, b: seq<string>, stops: set<string>)
    requires Entries(items, stops) && GoodStops(stops) && b == ListBody(items, ", ")
    ensures CommasRead(b, items, stops)
  {
    EntriesReadBack(items, stops);
  }

  lemma NumberSection(n: Option<nat>, b: seq<string>, stops: set<string>)
    requires GoodStops(stops) && b == NumberBody(n)
    ensures NumberRead(b, n, stops)
  {
    NumberReadsBack(n, stops);
  }

  ghost predicate SectionsOf(b: seq<seq<string>>, p: SelectParts) {
    && |b| == 8 && b[0] == ColumnBody(p.distinct, p.columns)
    && b[1] == [QuoteIdent(p.table)] + ListBody(p.joins, " ") && b[2] == ListBody(p.where_, " AND ")
    && b[3] == ListBody(p.groupBy, ", ") && b[4] == ListBody(p.having, " AND ") && b[5] == ListBody(p.orderBy, ", ")
    && b[6] == NumberBody(p.limit) && b[7] == NumberBody(p.offset)
  }

  lemma SelectBodiesAreSections(p: SelectParts)
    ensures SectionsOf(SelectBodies(p), p)
  {
  }

  lemma SelectSections(p: SelectParts, b: seq<seq<string>>, stops: set<string>)
    requires ReadablePast(p, stops, JOIN_KINDS) && GoodStops(stops) && SectionsOf(b, p)
    ensures ReadsAs(b, p, stops)
  {
    ColumnSection(p, b[0], stops);
    FromSection(p, b[1], stops);
    AndSection(p.where_, b[2], stops);
    CommaSection(p.groupBy, b[3], stops);
    AndSection(p.having, b[4], stops);
    CommaSection(p.orderBy, b[5], stops);
    NumberSection(p.limit, b[6], stops);
    NumberSection(p.offset, b[7], stops);
  }

  lemma SectionsFree(b: seq<seq<string>>, p: SelectParts, stops: set<string>)
    requires ReadsAs(b, p, stops)
    ensures forall i :: 0 <= i < |b| ==> Free(b[i], stops)
  {
  }

  lemma SelectFromClauses(t: string, b: seq<seq<string>>, p: SelectParts)
    requires |b| == 8 && Words(t) == Lay(SELECT_HEADS, b) && ReadsAs(b, p, SELECT_STOPS)
    ensures ReadClauses(Words(t), SELECT_HEADS, SELECT_STOPS) == Some(b)
  {
    SelectHeadsAreGood();
    SectionsFree(b, p, SELECT_STOPS);
    ClausesReadBack(SELECT_HEADS, b, SELECT_STOPS);
  }

  lemma SelectFromSections(t: string, b: seq<seq<string>>, p: SelectParts, stops: set<string>)
    requires ReadClauses(Words(t), SELECT_HEADS, SELECT_STOPS) == Some(b) && ReadsAs(b, p, stops)
    ensures ReadSelect(t) == Some(p.(columns := SelectList(p.columns)))
  {
  }

  lemma SelectBodiesReadBack(p: SelectParts, stops: set<string>)
    requires ReadablePast(p, stops, JOIN_KINDS) && GoodStops(stops)
    ensures ReadsAs(SelectBodies(p), p, stops)
  {
    SelectBodiesAreSections(p);
    SelectSections(p, SelectBodies(p), stops);
  }

  lemma ReadableIsClosed(p: SelectParts, stops: set<string>, kinds: set<string>)
    requires ReadablePast(p, stops, kinds)
    ensures AllClosed(p.columns) && AllClosed(p.joins) && AllClosed(p.where_) && AllClosed(p.groupBy)
    ensures AllClosed(p.having) && AllClosed(p.orderBy)
  {
    StartsAreClosed(p.joins, kinds);
  }

  /** Read at its keywords, a SELECT falls into its sections. */
  lemma SelectSectionsReadBack(p: SelectParts)
    requires Readable(p) && p.table != ""
    ensures RenderParts(p).Success? && ReadsAs(SelectBodies(p), p, SELECT_STOPS)
    ensures ReadClauses(Words(RenderParts(p).value), SELECT_HEADS, SELECT_STOPS) == Some(SelectBodies(p))
  {
    ReadableIsClosed(p, SELECT_STOPS, JOIN_KINDS);
    SelectWords(p);
    SelectStopsAreGood();
    SelectBodiesReadBack(p, SELECT_STOPS);
    SelectFromClauses(RenderParts(p).value, SelectBodies(p), p);
  }

  /**
   * Table, DISTINCT, column list, joins, WHERE, GROUP BY, HAVING, ORDER BY, LIMIT and OFFSET are recovered exactly from
   * every rendered SELECT whose fragments hold no keyword outside quotes and parentheses.
   */
  lemma SelectReadsBack(p: SelectParts)
    requires Readable(p) && p.table != ""
    ensures RenderParts(p).Success? && ReadSelect(RenderParts(p).value) == Some(p.(columns := SelectList(p.columns)))
  {
    SelectSectionsReadBack(p);
    SelectFromSections(RenderParts(p).value, SelectBodies(p), p, SELECT_STOPS);
  }

  // ----------------------------------------------------------------------------------- UPDATE

  predicate ReadableUpdate(p: UpdateParts, stops: set<string>) {
    Entries(p.set_, stops) && Conditions(p.where_, stops)
  }

  function UpdateBodies(p: UpdateParts): (r: seq<seq<string>>)
    ensures |r| == 4
  {
    [[QuoteIdent(p.table)], ListBody(p.set_, ", "), ListBody(p.where_, " AND "), ListBody(QuoteAll(p.returning), ", ")]
  }

  ghost predicate UpdateSectionsOf(b: seq<seq<string>>, p: UpdateParts) {
    && |b| == 4 && b[0] == [QuoteIdent(p.table)] && b[1] == ListBody(p.set_, ", ")
    && b[2] == ListBody(p.where_, " AND ") && b[3] == ListBody(QuoteAll(p.returning), ", ")
  }

  lemma UpdateBodiesAreSections(p: UpdateParts)
    ensures UpdateSectionsOf(UpdateBodies(p), p)
  {
  }

  lemma SayTable(table: string, heads: seq<seq<string>>, bodies: seq<seq<string>>)
    requires |heads| == |bodies| > 0 && heads[0] == ["UPDATE"] && bodies[0] == [QuoteIdent(table)]
    ensures Says("UPDATE " + QuoteIdent(table), heads, bodies, 1)
  {
    IdentIsOneWord(table);
    KeywordFirst("UPDATE ", "UPDATE", QuoteIdent(table));
    LayOneMore(heads, bodies, 0);
    assert Lay(heads[..0], bodies[..0]) == [];
  }

  lemma SaySet(t: string, items: seq<string>, heads: seq<seq<string>>, bodies: seq<seq<string>>, k: nat)
    requires k < |heads| == |bodies| && Says(t, heads, bodies, k) && AllClosed(items)
    requires heads[k] == ["SET"] && bodies[k] == ListBody(items, ", ")
    ensures Says(t + ListPiece(" SET ", items, ", "), heads, bodies, k + 1)
  {
    SayOne(t, " SET ", "SET", items, ", ", heads, bodies, k);
  }

  lemma SayReturning(t: string, items: seq<string>, heads: seq<seq<string>>, bodies: seq<seq<string>>, k: nat)
    requires k < |heads| == |bodies| && Says(t, heads, bodies, k) && AllClosed(items)
    requires heads[k] == ["RETURNING"] && bodies[k] == ListBody(items, ", ")
    ensures Says(t + ListPiece(" RETURNING ", items, ", "), heads, bodies, k + 1)
  {
    SayOne(t, " RETURNING ", "RETURNING", items, ", ", heads, bodies, k);
  }

  lemma IdentsAreEntries(items: seq<string>, stops: set<string>)
    requires Keywords(stops)
    ensures Entries(QuoteAll(items), stops)
  {
    forall i | 0 <= i < |items|
      ensures Closed(QuoteAll(items)[i]) && Items(QuoteAll(items)[i]) == [QuoteAll(items)[i]]
      ensures Free(Words(QuoteAll(items)[i]), stops)
    {
      IdentIsOneWord(items[i]);
      assert QuoteIdent(items[i])[0] == '"';
    }
  }

  function RenderedUpdate(p: UpdateParts): string {
    UpdateText("UPDATE " + QuoteIdent(p.table), ListPiece(" SET ", p.set_, ", "),
               ListPiece(" WHERE ", p.where_, " AND "), ListPiece(" RETURNING ", QuoteAll(p.returning), ", "))
  }

  lemma UpdateWords(p: UpdateParts, heads: seq<seq<string>>, bodies: seq<seq<string>>)
    requires AllClosed(p.set_) && AllClosed(p.where_) && AllClosed(QuoteAll(p.returning))
    requires |heads| == 4 && heads[0] == ["UPDATE"] && heads[1] == ["SET"] && heads[2] == ["WHERE"]
    requires heads[3] == ["RETURNING"] && UpdateSectionsOf(bodies, p)
    ensures Words(RenderedUpdate(p)) == Lay(heads, bodies)
  {
    var t1 := "UPDATE " + QuoteIdent(p.table);
    SayTable(p.table, heads, bodies);
    SaySet(t1, p.set_, heads, bodies, 1);
    var t2 := t1 + ListPiece(" SET ", p.set_, ", ");
    SayWhere(t2, p.where_, heads, bodies, 2);
    SayReturning(t2 + ListPiece(" WHERE ", p.where_, " AND "), QuoteAll(p.returning), heads, bodies, 3);
    WholeLay(heads, bodies);
  }

  lemma IdentsReadBack(items: seq<string>)
    ensures ReadIdents(ListBody(QuoteAll(items), ", ")) == Some(items)
  {
    if items != [] {
      var list := JoinQuoted(items);
      CutRejoins(list, " ", TOP);
      ListLexesBack(items, "");
      assert list + "" == list;
    }
  }

  ghost predicate IdentsRead(b: seq<string>, items: seq<string>, stops: set<string>) {
    ReadIdents(b) == Some(items) && Free(b, stops)
  }

  ghost predicate TableRead(b: seq<string>, table: string, stops: set<string>) {
    |b| == 1 && ReadTable(b) == Some(table) && Free(b, stops)
  }

  ghost predicate UpdateReadsAs(b: seq<seq<string>>, p: UpdateParts, stops: set<string>) {
    && |b| == 4 && TableRead(b[0], p.table, stops) && CommasRead(b[1], p.set_, stops)
    && AndsRead(b[2], p.where_, stops) && IdentsRead(b[3], p.returning, stops)
  }

  lemma ReturningSection(items: seq<string>, b: seq<string>, stops: set<string>)
    requires GoodStops(stops) && b == ListBody(QuoteAll(items), ", ")
    ensures IdentsRead(b, items, stops)
  {
    IdentsReadBack(items);
    IdentsAreEntries(items, stops);
    EntriesReadBack(QuoteAll(items), stops);
  }

  lemma TableSection(table: string, b: seq<string>, stops: set<string>)
    requires GoodStops(stops) && b == [QuoteIdent(table)]
    ensures TableRead(b, table, stops)
  {
    TableReadsBack(table, [], stops);
    assert [QuoteIdent(table)] + [] == [QuoteIdent(table)];
  }

  lemma UpdateSections(p: UpdateParts, b: seq<seq<string>>, stops: set<string>)
    requires ReadableUpdate(p, stops) && GoodStops(stops) && UpdateSectionsOf(b, p)
    ensures UpdateReadsAs(b, p, stops)
  {
    TableSection(p.table, b[0], stops);
    CommaSection(p.set_, b[1], stops);
    AndSection(p.where_, b[2], stops);
    ReturningSection(p.returning, b[3], stops);
  }

  lemma UpdateSectionsFree(b: seq<seq<string>>, p: UpdateParts, stops: set<string>)
    requires UpdateReadsAs(b, p, stops)
    ensures forall i :: 0 <= i < |b| ==> Free(b[i], stops)
  {
  }

  lemma UpdateFromClauses(t: string, b: seq<seq<string>>, p: UpdateParts)
    requires |b| == 4 && Words(t) == Lay(UPDATE_HEADS, b) && UpdateReadsAs(b, p, UPDATE_STOPS)
    ensures ReadClauses(Words(t), UPDATE_HEADS, UPDATE_STOPS) == Some(b)
  {
    UpdateHeadsAreGood();
    UpdateSectionsFree(b, p, UPDATE_STOPS);
    ClausesReadBack(UPDATE_HEADS, b, UPDATE_STOPS);
  }

  lemma UpdateFromSections(t: string, b: seq<seq<string>>, p: UpdateParts, stops: set<string>)
    requires ReadClauses(Words(t), UPDATE_HEADS, UPDATE_STOPS) == Some(b) && UpdateReadsAs(b, p, stops)
    ensures ReadUpdate(t) == Some(p)
  {
  }

  lemma UpdateIsClosed(p: UpdateParts, stops: set<string>)
    requires ReadableUpdate(p, stops) && Keywords(stops)
    ensures AllClosed(p.set_) && AllClosed(p.where_) && AllClosed(QuoteAll(p.returning))
  {
    IdentsAreEntries(p.returning, stops);
  }

  /** Read at its keywords, an UPDATE falls into its sections. */
  lemma UpdateSectionsReadBack(p: UpdateParts)
    requires ReadableUpdate(p, UPDATE_STOPS)
    ensures UpdateReadsAs(UpdateBodies(p), p, UPDATE_STOPS)
    ensures ReadClauses(Words(RenderedUpdate(p)), UPDATE_HEADS, UPDATE_STOPS) == Some(UpdateBodies(p))
  {
    UpdateStopsAreGood();
    UpdateIsClosed(p, UPDATE_STOPS);
    UpdateBodiesAreSections(p);
    UpdateWords(p, UPDATE_HEADS, UpdateBodies(p));
    UpdateSections(p, UpdateBodies(p), UPDATE_STOPS);
    UpdateFromClauses(RenderedUpdate(p), UpdateBodies(p), p);
  }

  /** Table, SET list, WHERE list and RETURNING are recovered exactly from every rendered UPDATE of such fragments. */
  lemma UpdateReadsBack(p: UpdateParts)
    requires ReadableUpdate(p, UPDATE_STOPS) && p.table != "" && p.set_ != []
    ensures var r := RenderUpdate(p.table, p.set_, p.where_, p.returning);
            r.Success? && ReadUpdate(r.value) == Some(p)
  {
    UpdateSectionsReadBack(p);
    UpdateFromSections(RenderedUpdate(p), UpdateBodies(p), p, UPDATE_STOPS);
  }
}
