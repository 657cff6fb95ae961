/** dialect/postgres/postgres.go: identifiers, placeholders and statement texts, and reading identifiers back. */
module SqlText {
  import opened Text
  import opened Wrappers

  datatype RenderError = EmptyTable | NoColumns | NoSetClauses

  /** strings.ReplaceAll(s, `"`, `""`). */
  function DoubleQuotes(s: string): string {
    if s == "" then "" else (if s[0] == '"' then "\"\"" else [s[0]]) + DoubleQuotes(s[1..])
  }

  function QuoteIdent(s: string): string {
    "\"" + DoubleQuotes(s) + "\""
  }

  function Placeholder(i: nat): string {
    "$" + Itoa(i)
  }

  function QuoteAll(items: seq<string>): (r: seq<string>)
    ensures |r| == |items|
  {
    seq(|items|, i requires 0 <= i < |items| => QuoteIdent(items[i]))
  }

  function JoinQuoted(items: seq<string>): string {
    Join(QuoteAll(items), ", ")
  }

  /** $1, $2, ..., $n. */
  function Numbered(n: nat): (r: seq<string>)
    ensures |r| == n
  {
    seq(n, i requires 0 <= i => Placeholder(i + 1))
  }

  // --------------------------------------------------------------------- rendering

  function ListPiece(prefix: string, items: seq<string>, sep: string): string {
    if items == [] then "" else prefix + Join(items, sep)
  }

  function NumberPiece(prefix: string, n: Option<nat>): string {
    match n case None => "" case Some(v) => prefix + Itoa(v)
  }

  function SelectHead(table: string, columns: seq<string>, distinct: bool): string {
    "SELECT " + (if distinct then "DISTINCT " else "") + Join(if columns == [] then ["*"] else columns, ", ") +
        " FROM " + QuoteIdent(table)
  }

  function SelectText(front: string, group: string, having: string, order: string, limit: string,
                      offset: string): string {
    front + group + having + order + limit + offset
  }

  function RenderSelect(table: string, columns: seq<string>, distinct: bool, joins: seq<string>, where_: seq<string>,
                        groupBy: seq<string>, having: seq<string>, orderBy: seq<string>, limit: Option<nat>,
                            offset: Option<nat>): Result<string, RenderError> {
    if table == "" then Failure(EmptyTable)
    else Success(SelectText(SelectHead(table, columns, distinct) + ListPiece(" ", joins, " ") +
        ListPiece(" WHERE ", where_, " AND "),
                            ListPiece(" GROUP BY ", groupBy, ", "), ListPiece(" HAVING ", having, " AND "),
                            ListPiece(" ORDER BY ", orderBy, ", "), NumberPiece(" LIMIT ", limit),
                                NumberPiece(" OFFSET ", offset)))
  }

  function UpdateText(head: string, sets: string, wheres: string, tail: string): string {
    head + sets + wheres + tail
  }

  function RenderUpdate(table: string, set_: seq<string>, where_: seq<string>,
                        returning: seq<string>): Result<string, RenderError> {
    if table == "" then Failure(EmptyTable)
    else if set_ == [] then Failure(NoSetClauses)
    else Success(UpdateText("UPDATE " + QuoteIdent(table), ListPiece(" SET ", set_, ", "),
        ListPiece(" WHERE ", where_, " AND "),
                            ListPiece(" RETURNING ", QuoteAll(returning), ", ")))
  }

  function InsertText(table: string, columns: seq<string>, returning: seq<string>): string {
    "INSERT INTO " + QuoteIdent(table) + " (" + JoinQuoted(columns) + ") VALUES (" + Join(Numbered(|columns|), ", ") +
        ")"
    + ListPiece(" RETURNING ", QuoteAll(returning), ", ")
  }

  method RenderInsert(table: string, columns: seq<string>, returning: seq<string>)
    returns (r: Result<string, RenderError>)
    ensures r == if table == "" then Failure(EmptyTable) else if columns == [] then Failure(NoColumns)
                 else Success(InsertText(table, columns, returning))
  {
    if table == "" { return Failure(EmptyTable); }
    if |columns| == 0 { return Failure(NoColumns); }
    var quoted: seq<string> := [];
    for i := 0 to |columns|
      invariant quoted == QuoteAll(columns[..i])
    {
      quoted := quoted + [QuoteIdent(columns[i])];
    }
    assert columns[..|columns|] == columns;
    var placeholders: seq<string> := [];
    for i := 0 to |columns|
      invariant placeholders == Numbered(i)
    {
      placeholders := placeholders + [Placeholder(i + 1)];
    }
    var sql := "INSERT INTO " + QuoteIdent(table) + " (" + Join(quoted, ", ") + ") VALUES (" +
        Join(placeholders, ", ") + ")";
    if |returning| > 0 {
      sql := sql + (" RETURNING " + JoinQuoted(returning));
    } else {
      assert sql + "" == sql;
    }
    r := Success(sql);
  }

  // ------------------------------------------------------- reading identifiers back

  /** The inside of a quoted identifier, up to the closing quote (PostgreSQL documentation, section 4.1.1). */
  function LexBody(t: string): Option<(string, string)> {
    if t == "" then None
    else if t[0] != '"' then
      match LexBody(t[1..]) case None => None case Some((s, rest)) => Some(([t[0]] + s, rest))
    else if |t| > 1 && t[1] == '"' then
      match LexBody(t[2..]) case None => None case Some((s, rest)) => Some(("\"" + s, rest))
    else Some(("", t[1..]))
  }

  function LexIdent(t: string): Option<(string, string)> {
    if t != "" && t[0] == '"' then LexBody(t[1..]) else None
  }

  predicate StartsWithQuote(t: string) {
    t != "" && t[0] == '"'
  }

  lemma {:induction false} LexBodyOfQuoted(s: string, rest: string)
    ensures !StartsWithQuote(rest) ==> LexBody(DoubleQuotes(s) + "\"" + rest) == Some((s, rest))
    ensures StartsWithQuote(rest) ==> LexBody(DoubleQuotes(s) + "\"" + rest) != Some((s, rest))
  {
    var t := DoubleQuotes(s) + "\"" + rest;
    if s == "" {
      assert t == "\"" + rest && t[1..] == rest;
      if StartsWithQuote(rest) {
        assert t[2..] == rest[1..];
      }
    } else {
      LexBodyOfQuoted(s[1..], rest);
      var u := DoubleQuotes(s[1..]) + "\"" + rest;
      assert s == [s[0]] + s[1..];
      if s[0] == '"' {
        assert t == "\"\"" + u && t[2..] == u;
      } else {
        assert t == [s[0]] + u && t[1..] == u;
      }
      if LexBody(u).Some? {
        assert ([s[0]] + LexBody(u).value.0)[1..] == LexBody(u).value.0;
      }
    }
  }

  /** A quoted identifier lexes back to exactly itself if and only if no further quote follows. */
  lemma QuoteLexesBackIff(s: string, rest: string)
    ensures LexIdent(QuoteIdent(s) + rest) == Some((s, rest)) <==> !StartsWithQuote(rest)
  {
    LexBodyOfQuoted(s, rest);
    assert (QuoteIdent(s) + rest)[1..] == DoubleQuotes(s) + "\"" + rest;
  }

  function StripPrefix(t: string, prefix: string): Option<string> {
    if prefix <= t then Some(t[|prefix|..]) else None
  }

  /** One or more identifiers separated by ", ". */
  function LexList(t: string): Option<(seq<string>, string)>
    decreases |t|
  {
    match LexIdent(t)
    case None => None
    case Some((s, rest)) =>
      LexShrinks(t);
      match StripPrefix(rest, ", ")
      case None => Some(([s], rest))
      case Some(more) =>
        match LexList(more)
        case None => None
        case Some((items, end)) => Some(([s] + items, end))
  }

  lemma {:induction false} LexBodyShrinks(t: string)
    ensures LexBody(t).Some? ==> |LexBody(t).value.1| < |t|
    decreases |t|
  {
    if t != "" {
      if t[0] != '"' { LexBodyShrinks(t[1..]); }
      else if |t| > 1 && t[1] == '"' { LexBodyShrinks(t[2..]); }
    }
  }

  lemma LexShrinks(t: string)
    ensures LexIdent(t).Some? ==> |LexIdent(t).value.1| < |t|
  {
    if t != "" { LexBodyShrinks(t[1..]); }
  }

  lemma {:induction false} ListLexesBack(items: seq<string>, rest: string)
    requires items != [] && !StartsWithQuote(rest) && !(", " <= rest)
    ensures LexList(JoinQuoted(items) + rest) == Some((items, rest))
  {
    var t := JoinQuoted(items) + rest;
    LexShrinks(t);
    if |items| == 1 {
      assert QuoteAll(items) == [QuoteIdent(items[0])];
      QuoteLexesBackIff(items[0], rest);
      assert items == [items[0]];
    } else {
      assert QuoteAll(items)[1..] == QuoteAll(items[1..]);
      var tail := JoinQuoted(items[1..]) + rest;
      assert t == QuoteIdent(items[0]) + (", " + tail);
      QuoteLexesBackIff(items[0], ", " + tail);
      assert (", " + tail)[|", "|..] == tail;
      ListLexesBack(items[1..], rest);
      assert items == [items[0]] + items[1..];
    }
  }

  /** What an INSERT text says: table, column list, RETURNING list. */
  function ParseInsert(t: string): Option<(string, seq<string>, seq<string>)> {
    match StripPrefix(t, "INSERT INTO ") case None => None case Some(t1) => ParseTable(t1)
  }

  function ParseTable(t: string): Option<(string, seq<string>, seq<string>)> {
    match LexIdent(t)
    case None => None
    case Some((table, t1)) => match StripPrefix(t1, " (") case None => None case Some(t2) => ParseColumns(table, t2)
  }

  function ParseColumns(table: string, t: string): Option<(string, seq<string>, seq<string>)> {
    match LexList(t)
    case None => None
    case Some((columns, t1)) =>
      match StripPrefix(t1, ") VALUES (" + Join(Numbered(|columns|), ", ") + ")")
      case None => None
      case Some(t2) => ParseReturning(table, columns, t2)
  }

  function ParseReturning(table: string, columns: seq<string>, t: string): Option<(string, seq<string>, seq<string>)> {
    if t == "" then Some((table, columns, []))
    else
      match StripPrefix(t, " RETURNING ")
      case None => None
      case Some(t1) =>
        match LexList(t1)
        case None => None
        case Some((returning, end)) => if end == "" then Some((table, columns, returning)) else None
  }

  lemma Strip(prefix: string, rest: string)
    ensures StripPrefix(prefix + rest, prefix) == Some(rest)
  {
  }

  lemma ReturningParsesBack(table: string, columns: seq<string>, returning: seq<string>)
    ensures ParseReturning(table, columns, ListPiece(" RETURNING ", QuoteAll(returning), ", "))
            == Some((table, columns, returning))
  {
    if returning != [] {
      var list := JoinQuoted(returning);
      Strip(" RETURNING ", list);
      assert list + "" == list;
      ListLexesBack(returning, "");
    }
  }

  lemma ColumnsParseBack(table: string, columns: seq<string>, returning: seq<string>)
    requires columns != []
    ensures ParseColumns(table, JoinQuoted(columns) + (") VALUES (" + Join(Numbered(|columns|), ", ") + ")" +
            ListPiece(" RETURNING ", QuoteAll(returning), ", ")))
            == Some((table, columns, returning))
  {
    var end := ListPiece(" RETURNING ", QuoteAll(returning), ", ");
    var values := ") VALUES (" + Join(Numbered(|columns|), ", ") + ")";
    assert (values + end)[0] == ')';
    ListLexesBack(columns, values + end);
    Strip(values, end);
    ReturningParsesBack(table, columns, returning);
  }

  lemma TableParsesBack(table: string, list: string)
    ensures ParseTable(QuoteIdent(table) + (" (" + list)) == ParseColumns(table, list)
  {
    QuoteLexesBackIff(table, " (" + list);
    Strip(" (", list);
  }

  lemma InsertTextParts(table: string, columns: seq<string>, returning: seq<string>, list: string)
    requires list == JoinQuoted(columns) + (") VALUES (" + Join(Numbered(|columns|), ", ") + ")" +
             ListPiece(" RETURNING ", QuoteAll(returning), ", "))
    ensures InsertText(table, columns, returning) == "INSERT INTO " + (QuoteIdent(table) + (" (" + list))
  {
  }

  /** Table, columns and RETURNING columns are recovered exactly from every rendered INSERT. */
  lemma InsertParsesBack(table: string, columns: seq<string>, returning: seq<string>)
    requires columns != []
    ensures ParseInsert(InsertText(table, columns, returning)) == Some((table, columns, returning))
  {
    var list := JoinQuoted(columns) + (") VALUES (" + Join(Numbered(|columns|), ", ") + ")" +
        ListPiece(" RETURNING ", QuoteAll(returning), ", "));
    InsertTextParts(table, columns, returning, list);
    Strip("INSERT INTO ", QuoteIdent(table) + (" (" + list));
    TableParsesBack(table, list);
    ColumnsParseBack(table, columns, returning);
  }
}
