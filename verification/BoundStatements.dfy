/** The statements orm/orm.go sends: read back clause by clause, and what their WHERE lists mean. */
module BoundStatements {
  import opened Text
  import opened SqlText
  import opened SqlReader
  import opened StatementText
  import opened Binding
  import opened Wrappers
  import W = WhereText

  // -------------------------------------------------------------- binding keeps a text readable

  /** A piece is unchanged, or has become one with a placeholder in it. */
  predicate SamePiece(bound: string, piece: string) {
    bound == piece || '$' in bound
  }

  predicate SamePieces(bound: seq<string>, pieces: seq<string>) {
    |bound| == |pieces| && forall i :: 0 <= i < |pieces| ==> SamePiece(bound[i], pieces[i])
  }

  lemma SameBehind(p: string, bound: seq<string>, pieces: seq<string>)
    requires pieces != [] && SamePieces(bound, pieces)
    ensures SamePieces(Prefixed(p, bound), Prefixed(p, pieces))
  {
    assert SamePiece(bound[0], pieces[0]);
  }

  lemma PlaceholderIsPlain(n: nat)
    ensures PlainText(Placeholder(n)) && Placeholder(n)[0] == '$'
  {
  }

  lemma MarkKeepsPieces(rest: string, bound: string, n: nat, sep: string, m: Mode)
    requires Separator(sep) && SamePieces(Cut(bound, sep, m), Cut(rest, sep, m))
    ensures SamePieces(Cut(Placeholder(n) + bound, sep, m), Cut("?" + rest, sep, m))
    ensures After(m, Placeholder(n) + bound) == After(m, bound) && After(m, "?" + rest) == After(m, rest)
  {
    PlaceholderIsPlain(n);
    PlainInFront(Placeholder(n), bound, sep, m);
    PlainInFront("?", rest, sep, m);
    assert '$' in Placeholder(n) + Cut(bound, sep, m)[0];
  }

  lemma CharKeepsPieces(c: char, rest: string, bound: string, sep: string, m: Mode)
    requires Separator(sep) && !(m == TOP && sep <= [c] + rest) && !(m == TOP && sep <= [c] + bound)
    requires SamePieces(Cut(bound, sep, Next(m, c)), Cut(rest, sep, Next(m, c)))
    ensures SamePieces(Cut([c] + bound, sep, m), Cut([c] + rest, sep, m))
  {
    CutFirst(c, bound, sep, m);
    CutFirst(c, rest, sep, m);
    SameBehind([c], Cut(bound, sep, Next(m, c)), Cut(rest, sep, Next(m, c)));
  }

  /** Binding separates nothing: no placeholder starts with a blank. */
  lemma BindStartsAlike(s: string, start: nat)
    requires s != "" && s[0] != ' '
    ensures Bind(s, start) != "" && Bind(s, start)[0] != ' '
  {
    if s[0] == '?' { PlaceholderIsPlain(start); }
  }

  /** Binding keeps quotes, parentheses and separators where they are. */
  lemma {:induction false} BindKeepsPieces(s: string, start: nat, sep: string, m: Mode)
    requires Separator(sep)
    ensures SamePieces(Cut(Bind(s, start), sep, m), Cut(s, sep, m))
    decreases |s|
  {
    if s != "" {
      var c, rest := s[0], s[1..];
      assert s == [c] + rest;
      if c == '?' {
        BindKeepsPieces(rest, start + 1, sep, m);
        MarkKeepsPieces(rest, Bind(rest, start + 1), start, sep, m);
      } else if m == TOP && sep <= s {
        var behind := s[|sep|..];
        BindKeepsPieces(behind, start, sep, m);
        assert s == sep + behind;
        SeparatorStays(sep, behind, start);
        CutSeparator(behind, sep);
        CutSeparator(Bind(behind, start), sep);
      } else {
        BindKeepsPieces(rest, start, sep, Next(m, c));
        if rest != "" && rest[0] != ' ' { BindStartsAlike(rest, start); }
        assert rest != "" && rest[0] == ' ' ==> Bind(rest, start)[0] == ' ';
        NoNewSeparator(c, rest, Bind(rest, start), sep);
        CharKeepsPieces(c, rest, Bind(rest, start), sep, m);
      }
    }
  }

  lemma SeparatorStays(sep: string, behind: string, start: nat)
    requires Separator(sep)
    ensures Bind(sep + behind, start) == sep + Bind(behind, start)
  {
    NoMarks(sep);
    BindNothing(sep, start);
    BindSplit(sep, behind, start, start);
  }

  lemma NoNewSeparator(c: char, rest: string, bound: string, sep: string)
    requires Separator(sep)
    requires bound != "" && bound[0] == ' ' ==> rest != "" && rest[0] == ' '
    ensures sep <= [c] + bound ==> sep <= [c] + rest
  {
    assert ([c] + rest)[0] == c == ([c] + bound)[0];
    assert rest != "" ==> ([c] + rest)[1] == rest[0];
    assert bound != "" ==> ([c] + bound)[1] == bound[0];
  }

  lemma {:induction false} BindKeepsMode(s: string, start: nat, m: Mode)
    ensures After(m, Bind(s, start)) == After(m, s)
    decreases |s|
  {
    if s != "" {
      assert s == [s[0]] + s[1..];
      if s[0] == '?' {
        BindKeepsMode(s[1..], start + 1, m);
        PlaceholderIsPlain(start);
        PlainInFront(Placeholder(start), Bind(s[1..], start + 1), " ", m);
      } else {
        BindKeepsMode(s[1..], start, Next(m, s[0]));
        assert Bind(s, start) == [s[0]] + Bind(s[1..], start) && Bind(s, start)[1..] == Bind(s[1..], start);
      }
    }
  }

  /** No stop word looks like a placeholder. */
  predicate NoDollar(stops: set<string>) {
    forall w :: w in stops ==> '$' !in w
  }

  lemma SameFree(bound: seq<string>, words: seq<string>, stops: set<string>)
    requires SamePieces(bound, words) && Free(words, stops) && NoDollar(stops)
    ensures Free(bound, stops)
  {
    forall w | w in bound ensures w !in stops {
      var i :| 0 <= i < |bound| && bound[i] == w;
      assert SamePiece(bound[i], words[i]) && words[i] in words;
    }
  }

  /** So a clause free of keywords is so after binding. */
  lemma BoundClauseFree(p: Predicate, start: nat, stops: set<string>)
    requires Closed(p.expr) && Free(Words(p.expr), stops) && NoDollar(stops)
    ensures Closed(BoundText(p, start)) && Free(Words(BoundText(p, start)), stops)
  {
    BindKeepsMode(p.expr, start, TOP);
    BindKeepsPieces(p.expr, start, " ", TOP);
    SameFree(Words(Bind(p.expr, start)), Words(p.expr), stops);
  }

  predicate Clauses(ps: seq<Predicate>, stops: set<string>) {
    forall i :: 0 <= i < |ps| ==> Closed(ps[i].expr) && Free(Words(ps[i].expr), stops)
  }

  lemma {:induction false} BoundClausesFree(ps: seq<Predicate>, start: nat, stops: set<string>)
    requires Clauses(ps, stops) && NoDollar(stops)
    ensures AllClosed(BoundTexts(ps, start)) && AllFree(BoundTexts(ps, start), stops)
  {
    if ps != [] {
      var next := start + |UsedArgs(ps[0])|;
      BoundClauseFree(ps[0], start, stops);
      assert forall i :: 0 <= i < |ps[1..]| ==> ps[1..][i] == ps[i + 1];
      BoundClausesFree(ps[1..], next, stops);
      assert forall i :: 0 < i < |ps| ==> BoundTexts(ps, start)[i] == BoundTexts(ps[1..], next)[i - 1];
    }
  }

  lemma FreeConditions(items: seq<string>, stops: set<string>)
    requires AllClosed(items) && AllFree(items, stops + {"AND"})
    ensures Conditions(items, stops)
  {
    forall i | 0 <= i < |items| ensures Free(Words(items[i]), stops) && "AND" !in Words(items[i]) {
      assert Free(Words(items[i]), stops + {"AND"});
    }
  }

  // ------------------------------------------------------------------------------------ SELECT

  /** The kind starts a join; table and condition hold no keyword outside quotes and parentheses. */
  predicate ReadableJoin(j: JoinClause, kinds: set<string>, stops: set<string>) {
    && Starts(j.kind, kinds) && Free(Words(j.kind), stops) && Closed(j.table) && Free(Words(j.table), stops + kinds)
    && Closed(j.on) && Free(Words(j.on), stops + kinds)
  }

  predicate ReadableJoins(joins: seq<JoinClause>, kinds: set<string>, stops: set<string>) {
    forall i :: 0 <= i < |joins| ==> ReadableJoin(joins[i], kinds, stops)
  }

  lemma FreeOfBoth(ws: seq<string>, a: set<string>, b: set<string>)
    requires Free(ws, a + b)
    ensures Free(ws, a) && Free(ws, b)
  {
    forall w | w in ws ensures w !in a && w !in b { assert w !in a + b; }
  }

  /** Kind and table. */
  lemma JoinHead(j: JoinClause, kinds: set<string>, stops: set<string>)
    requires ReadableJoin(j, kinds, stops)
    ensures Starts(j.kind + " " + j.table, kinds) && Free(Words(j.kind + " " + j.table), stops)
  {
    var kind, table := Words(j.kind), Words(j.table);
    WordsApart(j.kind, j.table);
    FreeOfBoth(table, stops, kinds);
    FreeAppend(kind, table, stops);
    FreeAppend(kind[1..], table, kinds);
    assert (kind + table)[1..] == kind[1..] + table;
  }

  /** A readable text and ON with a condition. */
  lemma JoinOn(head: string, on: string, kinds: set<string>, stops: set<string>)
    requires Starts(head, kinds) && Free(Words(head), stops) && Closed(on) && Free(Words(on), stops + kinds)
    requires "ON" !in kinds && "ON" !in stops
    ensures Starts(head + " ON " + on, kinds) && Free(Words(head + " ON " + on), stops)
  {
    var front, tail := Words(head), ["ON"] + Words(on);
    KeywordFirst("ON ", "ON", on);
    WordsApart(head, "ON " + on);
    assert head + " ON " + on == head + " " + ("ON " + on);
    FreeOfBoth(Words(on), stops, kinds);
    FreeAppend(["ON"], Words(on), stops);
    FreeAppend(["ON"], Words(on), kinds);
    FreeAppend(front, tail, stops);
    FreeAppend(front[1..], tail, kinds);
    assert (front + tail)[1..] == front[1..] + tail;
  }

  lemma BoundJoinReadable(j: JoinClause, start: nat, kinds: set<string>, stops: set<string>)
    requires ReadableJoin(j, kinds, stops) && NoDollar(stops + kinds) && "ON" !in kinds && "ON" !in stops
    ensures Starts(BoundJoin(j, start), kinds) && Free(Words(BoundJoin(j, start)), stops)
  {
    JoinHead(j, kinds, stops);
    if j.on != "" && j.kind != "CROSS JOIN" {
      BoundClauseFree(Predicate(j.on, j.args), start, stops + kinds);
      JoinOn(j.kind + " " + j.table, BoundText(Predicate(j.on, j.args), start), kinds, stops);
    }
  }

  lemma OneMoreJoin(first: string, rest: seq<string>, kinds: set<string>, stops: set<string>)
    requires Starts(first, kinds) && Free(Words(first), stops) && AllStart(rest, kinds) && AllFree(rest, stops)
    ensures AllStart([first] + rest, kinds) && AllFree([first] + rest, stops)
  {
    forall i | 0 <= i < |[first] + rest|
      ensures Starts(([first] + rest)[i], kinds) && Free(Words(([first] + rest)[i]), stops)
    {
      assert ([first] + rest)[i] == if i == 0 then first else rest[i - 1];
    }
  }

  lemma FirstJoinReadable(joins: seq<JoinClause>, kinds: set<string>, stops: set<string>)
    requires joins != [] && ReadableJoins(joins, kinds, stops)
    ensures ReadableJoin(joins[0], kinds, stops) && ReadableJoins(joins[1..], kinds, stops)
  {
    forall i | 0 <= i < |joins[1..]| ensures ReadableJoin(joins[1..][i], kinds, stops) {
      assert joins[1..][i] == joins[i + 1];
    }
  }

  lemma {:induction false} BoundJoinsReadable(joins: seq<JoinClause>, start: nat, kinds: set<string>,
                                              stops: set<string>)
    requires ReadableJoins(joins, kinds, stops) && NoDollar(stops + kinds) && "ON" !in kinds && "ON" !in stops
    ensures AllStart(BoundJoins(joins, start), kinds) && AllFree(BoundJoins(joins, start), stops)
  {
    if joins != [] {
      var j, rest := joins[0], joins[1..];
      var next := start + |UsedJoinArgs(j)|;
      assert joins == [j] + rest;
      FirstJoinReadable(joins, kinds, stops);
      BoundJoinReadable(j, start, kinds, stops);
      BoundJoinsReadable(rest, next, kinds, stops);
      OneMoreJoin(BoundJoin(j, start), BoundJoins(rest, next), kinds, stops);
      FirstJoin(j, rest, start, next);
    }
  }

  lemma KindStarts(w: string, join: string, kinds: set<string>, stops: set<string>)
    requires PlainText(w) && w in kinds && w !in stops && PlainText(join) && join !in kinds && join !in stops
    ensures Starts(w + " " + join, kinds) && Free(Words(w + " " + join), stops)
  {
    TwoWords(w, join);
    assert [w, join][1..] == [join];
  }

  lemma KindsArePlain(w: string)
    requires w in JOIN_KINDS
    ensures PlainText(w) && w !in SELECT_STOPS && PlainText("JOIN") && "JOIN" !in JOIN_KINDS && "JOIN" !in SELECT_STOPS
  {
  }

  /** LEFT JOIN, RIGHT JOIN, INNER JOIN and CROSS JOIN start joins. */
  lemma KindsStartJoins(w: string)
    requires w in JOIN_KINDS
    ensures Starts(w + " " + "JOIN", JOIN_KINDS) && Free(Words(w + " " + "JOIN"), SELECT_STOPS)
  {
    KindsArePlain(w);
    KindStarts(w, "JOIN", JOIN_KINDS, SELECT_STOPS);
  }

  /** The fragments of a query, as its caller wrote them. */
  predicate ReadableQuery(q: Query, stops: set<string>) {
    && Entries(q.columns, stops + {"DISTINCT"}) && ReadableJoins(q.joins, JOIN_KINDS, stops)
    && Clauses(q.where_, stops + {"AND"}) && Entries(q.groupBy, stops) && Clauses(q.having, stops + {"AND"})
    && Entries(q.orderBy, stops)
  }

  /** What is rendered for a query. */
  function BoundParts(q: Query): SelectParts {
    SelectParts(q.table, q.distinct, q.columns, BoundJoins(q.joins, 1), BoundTexts(q.where_, WhereStart(q)), q.groupBy,
                BoundTexts(q.having, HavingStart(q)), q.orderBy, q.limit, q.offset)
  }

  lemma BoundConditions(ps: seq<Predicate>, start: nat, stops: set<string>)
    requires Clauses(ps, stops + {"AND"}) && NoDollar(stops)
    ensures Conditions(BoundTexts(ps, start), stops)
  {
    BoundClausesFree(ps, start, stops + {"AND"});
    FreeConditions(BoundTexts(ps, start), stops);
  }

  lemma BoundPartsReadable(q: Query, stops: set<string>)
    requires ReadableQuery(q, stops) && NoDollar(stops + JOIN_KINDS) && "ON" !in JOIN_KINDS && "ON" !in stops
    ensures ReadablePast(BoundParts(q), stops, JOIN_KINDS)
  {
    BoundJoinsReadable(q.joins, 1, JOIN_KINDS, stops);
    BoundConditions(q.where_, WhereStart(q), stops);
    BoundConditions(q.having, HavingStart(q), stops);
  }

  lemma SelectWordsHaveNoDollar()
    ensures NoDollar(SELECT_STOPS + JOIN_KINDS) && "ON" !in JOIN_KINDS && "ON" !in SELECT_STOPS
  {
  }

  /**
   * Every SELECT that is sent reads back as the query it was built from, clause by clause, with the arguments'
   * placeholders in the clauses.
   */
  lemma BoundSelectReadsBack(q: Query)
    requires ReadableQuery(q, SELECT_STOPS) && q.table != ""
    ensures ClausewiseSelect(q).Success?
    ensures ReadSelect(ClausewiseSelect(q).value) == Some(BoundParts(q).(columns := SelectList(q.columns)))
  {
    SelectWordsHaveNoDollar();
    BoundPartsReadable(q, SELECT_STOPS);
    SelectReadsBack(BoundParts(q));
  }

  // ------------------------------------------------------------------------------------ UPDATE

  /** No stop word is one of those that assignments of ours hold besides names and placeholders. */
  ghost predicate SparesAssignments(stops: set<string>) {
    Keywords(stops) && NoDollar(stops) && "=" !in stops && "+" !in stops && "1" !in stops
  }

  /** A quoted name and a text without commas, quotes and parentheses behind it. */
  lemma NameBefore(a: string, tail: string, stops: set<string>)
    requires Closed(a) && Items(a) == [a] && a != "" && a[|a| - 1] != ',' && Free(Words(a), stops)
    requires Closed(tail) && Items(" " + tail) == [" " + tail] && Free(Words(tail), stops)
    ensures Closed(a + " " + tail) && Items(a + " " + tail) == [a + " " + tail] && Free(Words(a + " " + tail), stops)
  {
    WordsApart(a, tail);
    CutBehind(a, " " + tail, ", ", TOP);
    assert a + " " + tail == a + (" " + tail);
    FreeAppend(Words(a), Words(tail), stops);
  }

  /** `= $n` */
  lemma EqualsPlaceholder(n: nat, stops: set<string>)
    requires SparesAssignments(stops)
    ensures var tail := "= " + Placeholder(n);
            && Closed(tail) && Items(" " + tail) == [" " + tail] && Words(tail) == ["=", Placeholder(n)]
            && Free(Words(tail), stops)
  {
    PlaceholderIsPlain(n);
    KeywordFirst("= ", "=", Placeholder(n));
    PlainIsOneWord(Placeholder(n));
    NoCommaNoCut(" " + ("= " + Placeholder(n)), TOP);
  }

  lemma NameFree(name: string, stops: set<string>)
    requires Keywords(stops)
    ensures Closed(QuoteIdent(name)) && Items(QuoteIdent(name)) == [QuoteIdent(name)]
    ensures Free(Words(QuoteIdent(name)), stops) && QuoteIdent(name)[|QuoteIdent(name)| - 1] == '"'
  {
    IdentIsOneWord(name);
    assert QuoteIdent(name)[0] == '"';
  }

  /** `"name" = $n` */
  lemma AssignmentReadable(name: string, n: nat, stops: set<string>)
    requires SparesAssignments(stops)
    ensures var t := QuoteIdent(name) + " = " + Placeholder(n);
            Closed(t) && Items(t) == [t] && Free(Words(t), stops) && "AND" !in Words(t)
  {
    NameFree(name, stops);
    EqualsPlaceholder(n, stops);
    NameBefore(QuoteIdent(name), "= " + Placeholder(n), stops);
    IdentIsOneWord(name);
    WordsApart(QuoteIdent(name), "= " + Placeholder(n));
    assert QuoteIdent(name) + " " + ("= " + Placeholder(n)) == QuoteIdent(name) + " = " + Placeholder(n);
    PlaceholderIsPlain(n);
    assert QuoteIdent(name)[0] == '"';
  }

  lemma {:induction false} SetTextsReadable(columns: seq<Column>, values: map<string, Arg>, pk: set<string>,
                                            start: nat, stops: set<string>)
    requires SparesAssignments(stops)
    ensures Entries(SetTexts(columns, values, pk, start), stops)
  {
    if columns != [] {
      var taken := Assigned(columns[0], values, pk);
      SetTextsReadable(columns[1..], values, pk, if taken then start + 1 else start, stops);
      if taken {
        AssignmentReadable(columns[0].name, start, stops);
        OneMoreEntry(QuoteIdent(columns[0].name) + " = " + Placeholder(start),
                     SetTexts(columns[1..], values, pk, start + 1), stops);
      }
    }
  }

  lemma OneMoreEntry(first: string, rest: seq<string>, stops: set<string>)
    requires Closed(first) && Items(first) == [first] && Free(Words(first), stops) && Entries(rest, stops)
    ensures Entries([first] + rest, stops) && Entries(rest + [first], stops)
  {
    forall i | 0 <= i < |rest| + 1
      ensures var x := ([first] + rest)[i]; Closed(x) && Items(x) == [x] && Free(Words(x), stops)
      ensures var x := (rest + [first])[i]; Closed(x) && Items(x) == [x] && Free(Words(x), stops)
    {
      assert ([first] + rest)[i] == if i == 0 then first else rest[i - 1];
      assert (rest + [first])[i] == if i == |rest| then first else rest[i];
    }
  }

  lemma {:induction false} KeyTextsReadable(cols: seq<string>, start: nat, stops: set<string>)
    requires SparesAssignments(stops)
    ensures Conditions(KeyTexts(cols, start), stops)
  {
    if cols != [] {
      AssignmentReadable(cols[0], start, stops);
      KeyTextsReadable(cols[1..], start + 1, stops);
      MoreConditions([QuoteIdent(cols[0]) + " = " + Placeholder(start)], KeyTexts(cols[1..], start + 1), stops);
    }
  }

  lemma MoreConditions(a: seq<string>, b: seq<string>, stops: set<string>)
    requires Conditions(a, stops) && Conditions(b, stops)
    ensures Conditions(a + b, stops)
  {
    forall i | 0 <= i < |a + b|
      ensures Closed((a + b)[i]) && Free(Words((a + b)[i]), stops) && "AND" !in Words((a + b)[i])
    {
      assert (a + b)[i] == if i < |a| then a[i] else b[i - |a|];
    }
  }

  /** Two plain words. */
  lemma PlainPair(a: string, b: string, stops: set<string>)
    requires PlainText(a) && PlainText(b) && a !in stops && b !in stops
    ensures var tail := a + " " + b;
            Closed(tail) && Items(" " + tail) == [" " + tail] && Free(Words(tail), stops)
  {
    TwoWords(a, b);
    forall i | 0 <= i < |a| + |b| ensures i < |a| ==> a[i] != ',' {
      assert i < |a| ==> PlainChar(a[i]);
    }
    assert forall i :: 0 <= i < |b| ==> PlainChar(b[i]);
    NoCommaNoCut(" " + (a + " " + b), TOP);
  }

  lemma PaddedWord(a: string, front: string)
    requires PlainText(a) && front == " " + a + " "
    ensures Closed(front) && Items(front) == [front]
  {
    assert forall i :: 0 <= i < |a| ==> PlainChar(a[i]);
    NoCommaNoCut(front, TOP);
    PlainIsOneWord("");
    PlainIsOneWord(a);
    WordsApart("", a);
    WordsApart(" " + a, "");
    assert "" + " " + a == " " + a && (" " + a) + " " + "" == front;
  }

  lemma PaddedBefore(front: string, right: string)
    requires Closed(front) && Items(front) == [front] && front != "" && front[|front| - 1] != ','
    requires Items(right) == [right]
    ensures Items(front + right) == [front + right]
  {
    CutBehind(front, right, ", ", TOP);
  }

  /** A plain word in front of a name or what follows one. */
  lemma PlainBefore(a: string, right: string, stops: set<string>)
    requires PlainText(a) && a !in stops && Closed(right) && Items(right) == [right] && Free(Words(right), stops)
    ensures var tail := a + " " + right;
            Closed(tail) && Items(" " + tail) == [" " + tail] && Free(Words(tail), stops)
  {
    PlainIsOneWord(a);
    WordsApart(a, right);
    FreeAppend([a], Words(right), stops);
    PaddedWord(a, " " + a + " ");
    PaddedBefore(" " + a + " ", right);
    assert " " + (a + " " + right) == (" " + a + " ") + right;
  }

  /** A name, a word, the name again, and two words. */
  lemma IncrementOf(name: string, equals: string, plus: string, one: string, stops: set<string>)
    requires Keywords(stops) && PlainText(equals) && PlainText(plus) && PlainText(one)
    requires equals !in stops && plus !in stops && one !in stops
    ensures var t := QuoteIdent(name) + " " + (equals + " " + (QuoteIdent(name) + " " + (plus + " " + one)));
            Closed(t) && Items(t) == [t] && Free(Words(t), stops)
  {
    NameFree(name, stops);
    PlainPair(plus, one, stops);
    NameBefore(QuoteIdent(name), plus + " " + one, stops);
    PlainBefore(equals, QuoteIdent(name) + " " + (plus + " " + one), stops);
    NameBefore(QuoteIdent(name), equals + " " + (QuoteIdent(name) + " " + (plus + " " + one)), stops);
  }

  /** `"version" = "version" + 1` */
  lemma IncrementReadable(v: string, stops: set<string>)
    requires SparesAssignments(stops)
    ensures var t := Increment(v).expr; Closed(t) && Items(t) == [t] && Free(Words(t), stops)
  {
    IncrementOf(v, "=", "+", "1", stops);
    IncrementText(QuoteIdent(v));
  }

  lemma IncrementText(name: string)
    ensures name + " = " + name + " + 1" == name + " " + ("=" + " " + (name + " " + ("+" + " " + "1")))
  {
  }

  /** What is rendered for an update. */
  function BoundUpdateParts(u: Update): UpdateParts {
    UpdateParts(u.table, UpdateSet(u), UpdateWhere(u, 1 + |PlainArgs(u)|), u.returning)
  }

  lemma UpdateSetReadable(u: Update, stops: set<string>)
    requires SparesAssignments(stops)
    ensures Entries(UpdateSet(u), stops)
  {
    SetTextsReadable(u.columns, u.values, set n | n in PrimaryKeys(u.columns), 1, stops);
    if u.versionColumn.Some? {
      IncrementReadable(u.versionColumn.value, stops);
      OneMoreEntry(Increment(u.versionColumn.value).expr, PlainTexts(u), stops);
    } else {
      assert UpdateSet(u) == PlainTexts(u);
    }
  }

  lemma BoundUpdateReadable(u: Update, stops: set<string>)
    requires SparesAssignments(stops) && Clauses(u.extra, stops + {"AND"})
    ensures ReadableUpdate(BoundUpdateParts(u), stops)
  {
    var start := 1 + |PlainArgs(u)|;
    UpdateSetReadable(u, stops);
    KeyTextsReadable(u.keyCols, start, stops);
    BoundConditions(u.extra, start + |u.keyCols|, stops);
    MoreConditions(KeyTexts(u.keyCols, start), BoundTexts(u.extra, start + |u.keyCols|), stops);
  }

  lemma UpdateStopsSpare()
    ensures SparesAssignments(UPDATE_STOPS)
  {
    StopsAreKeywords();
  }

  /**
   * Every UPDATE that is sent reads back as its table, one numbered assignment per collected value and the version
   * increment, one numbered equality per key and the extra conditions, and its RETURNING columns: for any names.
   */
  lemma BoundUpdateReadsBack(u: Update)
    requires |u.keyCols| == |u.keyArgs| && u.table != "" && UpdateSet(u) != []
    requires Clauses(u.extra, UPDATE_STOPS + {"AND"})
    ensures ClausewiseUpdate(u).Success?
    ensures ReadUpdate(ClausewiseUpdate(u).value) == Some(BoundUpdateParts(u))
  {
    UpdateStopsSpare();
    BoundUpdateReadable(u, UPDATE_STOPS);
    UpdateReadsBack(BoundUpdateParts(u));
  }

  // ------------------------------------------------------------------ which argument a placeholder asks for

  /** The text is the clause with its marks numbered from n on, and these numbers are those of its own arguments. */
  ghost predicate ServedFrom(text: string, p: Predicate, args: seq<Arg>, n: nat) {
    && 1 <= n && n - 1 + |UsedArgs(p)| <= |args| && text == BoundText(p, n)
    && args[n - 1..n - 1 + |UsedArgs(p)|] == UsedArgs(p)
  }

  ghost predicate Served(text: string, p: Predicate, args: seq<Arg>) {
    exists n: nat :: ServedFrom(text, p, args, n)
  }

  ghost predicate AllServed(texts: seq<string>, ps: seq<Predicate>, args: seq<Arg>) {
    |texts| == |ps| && forall i :: 0 <= i < |ps| ==> Served(texts[i], ps[i], args)
  }

  lemma SliceSplit(args: seq<Arg>, at: nat, mid: nat, end: nat, x: seq<Arg>, y: seq<Arg>)
    requires end <= |args| && mid == at + |x| && end == mid + |y| && args[at..end] == x + y
    ensures args[at..mid] == x && args[mid..end] == y
  {
    assert args[at..mid] == args[at..end][..|x|] && args[mid..end] == args[at..end][|x|..];
  }

  /** Clauses bound one after the other ask for their own arguments, whatever stands around these. */
  lemma {:induction false} ClausesServed(ps: seq<Predicate>, args: seq<Arg>, at: nat, end: nat, start: nat)
    requires at <= end <= |args| && args[at..end] == Args(ps) && start == at + 1
    ensures AllServed(BoundTexts(ps, start), ps, args)
    decreases |ps|
  {
    if ps != [] {
      var p, rest := ps[0], ps[1..];
      assert ps == [p] + rest;
      var mid, next := at + |UsedArgs(p)|, start + |UsedArgs(p)|;
      FirstSlice(p, rest, args, at, mid, end);
      FirstServed(p, args, at, mid, start);
      ClausesServed(rest, args, mid, end, next);
      MoreServed(BoundText(p, start), BoundTexts(rest, next), p, rest, args);
      FirstClause(p, rest, start, next);
    }
  }

  lemma FirstSlice(p: Predicate, rest: seq<Predicate>, args: seq<Arg>, at: nat, mid: nat, end: nat)
    requires at <= end <= |args| && args[at..end] == Args([p] + rest) && mid == at + |UsedArgs(p)|
    ensures mid <= end && args[at..mid] == UsedArgs(p) && args[mid..end] == Args(rest)
  {
    FirstClause(p, rest, 1, 1 + |UsedArgs(p)|);
    SliceSplit(args, at, mid, end, UsedArgs(p), Args(rest));
  }

  lemma FirstServed(p: Predicate, args: seq<Arg>, at: nat, mid: nat, start: nat)
    requires mid == at + |UsedArgs(p)| <= |args| && args[at..mid] == UsedArgs(p) && start == at + 1
    ensures Served(BoundText(p, start), p, args)
  {
    assert ServedFrom(BoundText(p, start), p, args, start);
  }

  lemma MoreServed(text: string, texts: seq<string>, p: Predicate, ps: seq<Predicate>, args: seq<Arg>)
    requires Served(text, p, args) && AllServed(texts, ps, args)
    ensures AllServed([text] + texts, [p] + ps, args)
  {
    forall i | 0 <= i < |ps| + 1 ensures Served(([text] + texts)[i], ([p] + ps)[i], args) {
      if i > 0 { assert Served(texts[i - 1], ps[i - 1], args); }
    }
  }

  lemma ThreeSlices(args: seq<Arg>, a: seq<Arg>, b: seq<Arg>, c: seq<Arg>, i: nat, j: nat)
    requires args == a + b + c && i == |a| && j == i + |b|
    ensures j <= |args| && args[0..i] == a && args[i..j] == b && args[j..|args|] == c
  {
  }

  /** In every SELECT each placeholder asks for the argument its clause came with. */
  lemma SelectServesClauses(q: Query)
    requires UnmarkedJoins(q.joins)
    ensures AllServed(BoundJoins(q.joins, 1), JoinTexts(q.joins), SelectArgs(q))
    ensures AllServed(BoundTexts(q.where_, WhereStart(q)), q.where_, SelectArgs(q))
    ensures AllServed(BoundTexts(q.having, HavingStart(q)), q.having, SelectArgs(q))
  {
    var args, i, j := SelectArgs(q), |JoinArgs(q.joins)|, |JoinArgs(q.joins)| + |Args(q.where_)|;
    ThreeSlices(args, JoinArgs(q.joins), Args(q.where_), Args(q.having), i, j);
    JoinsAsClauses(q.joins, 1);
    ClausesServed(JoinTexts(q.joins), args, 0, i, 1);
    ClausesServed(q.where_, args, i, j, WhereStart(q));
    ClausesServed(q.having, args, j, |args|, HavingStart(q));
  }

  /** And in every UPDATE: the assignments ask for the collected values. */
  lemma UpdateServesAssignments(u: Update)
    requires UnmarkedUpdate(u)
    ensures AllServed(PlainTexts(u), PlainAssignments(u), UpdateArgs(u))
  {
    var args, i := UpdateArgs(u), |PlainArgs(u)|;
    assert args[0..i] == PlainArgs(u);
    SetAsClauses(u.columns, u.values, set n | n in PrimaryKeys(u.columns), 1);
    ClausesServed(PlainAssignments(u), args, 0, i, 1);
  }

  lemma ConditionSlices(u: Update, i: nat, j: nat)
    requires UnmarkedUpdate(u) && i == |PlainArgs(u)| && j == i + |u.keyArgs|
    ensures var args := UpdateArgs(u); j <= |args| && args[i..j] == u.keyArgs && args[j..|args|] == Args(u.extra)
  {
    Regrouped(PlainArgs(u), u.keyArgs, Args(u.extra));
    ThreeSlices(UpdateArgs(u), PlainArgs(u), u.keyArgs, Args(u.extra), i, j);
  }

  /** The key equalities ask for the keys. */
  lemma UpdateServesKeys(u: Update, start: nat)
    requires UnmarkedUpdate(u) && start == 1 + |PlainArgs(u)|
    ensures AllServed(KeyTexts(u.keyCols, start), KeyPredicates(u.keyCols, u.keyArgs), UpdateArgs(u))
  {
    var i, j := |PlainArgs(u)|, |PlainArgs(u)| + |u.keyArgs|;
    ConditionSlices(u, i, j);
    KeysAsClauses(u.keyCols, u.keyArgs, start);
    KeysMatched(u.keyCols, u.keyArgs);
    ClausesServed(KeyPredicates(u.keyCols, u.keyArgs), UpdateArgs(u), i, j, start);
  }

  /** The extra clauses ask for what they came with. */
  lemma UpdateServesExtra(u: Update, start: nat)
    requires UnmarkedUpdate(u) && start == 1 + |PlainArgs(u)| + |u.keyCols|
    ensures AllServed(BoundTexts(u.extra, start), u.extra, UpdateArgs(u))
  {
    var i, j := |PlainArgs(u)|, |PlainArgs(u)| + |u.keyArgs|;
    ConditionSlices(u, i, j);
    ClausesServed(u.extra, UpdateArgs(u), j, |UpdateArgs(u)|, start);
  }

  /** The columns of a table have different names. */
  predicate UniqueColumns(columns: seq<Column>) {
    forall i, j :: 0 <= i < j < |columns| ==> columns[i].name != columns[j].name
  }

  lemma {:induction false} KeyNamesAre(columns: seq<Column>)
    ensures forall n :: n in PrimaryKeys(columns) <==> exists i :: 0 <= i < |columns| && columns[i].primaryKey
                                                                   && columns[i].name == n
  {
    if columns != [] {
      KeyNamesAre(columns[1..]);
      assert forall i :: 0 < i < |columns| ==> columns[i] == columns[1..][i - 1];
      assert forall i :: 0 <= i < |columns[1..]| ==> columns[1..][i] == columns[i + 1];
    }
  }

  /** Where a column stands among the assignments. */
  lemma {:induction false} AssignmentAt(columns: seq<Column>, values: map<string, Arg>, pk: set<string>, k: nat)
    requires k < |columns|
    ensures columns[k].name !in pk && !columns[k].version && columns[k].name in values ==>
              Equals(columns[k].name, values[columns[k].name]) in Assignments(columns, values, pk)
    decreases k
  {
    if k > 0 { AssignmentAt(columns[1..], values, pk, k - 1); }
  }

  lemma {:induction false} AssignmentIsAColumn(columns: seq<Column>, values: map<string, Arg>, pk: set<string>,
                                               p: Predicate)
    requires p in Assignments(columns, values, pk)
    ensures exists i :: 0 <= i < |columns| && columns[i].name !in pk && !columns[i].version
                        && columns[i].name in values && p == Equals(columns[i].name, values[columns[i].name])
  {
    if p in Assignments(columns[1..], values, pk) {
      AssignmentIsAColumn(columns[1..], values, pk, p);
      var i :| 0 <= i < |columns[1..]| && columns[1..][i].name !in pk && !columns[1..][i].version
               && columns[1..][i].name in values
               && p == Equals(columns[1..][i].name, values[columns[1..][i].name]);
      assert columns[i + 1] == columns[1..][i];
    }
  }

  /** The SET list assigns exactly the collected columns that are neither keys nor versions, each its value. */
  lemma SetListIs(u: Update)
    requires UniqueColumns(u.columns)
    ensures forall p :: p in PlainAssignments(u) <==>
              exists i :: 0 <= i < |u.columns| && !u.columns[i].primaryKey && !u.columns[i].version
                          && u.columns[i].name in u.values
                          && p == Predicate(QuoteIdent(u.columns[i].name) + " = ?", [u.values[u.columns[i].name]])
  {
    var pk := set n | n in PrimaryKeys(u.columns);
    KeyNamesAre(u.columns);
    forall i | 0 <= i < |u.columns| ensures u.columns[i].name in pk <==> u.columns[i].primaryKey { }
    forall p | p in PlainAssignments(u)
      ensures exists i :: 0 <= i < |u.columns| && !u.columns[i].primaryKey && !u.columns[i].version
                          && u.columns[i].name in u.values
                          && p == Predicate(QuoteIdent(u.columns[i].name) + " = ?", [u.values[u.columns[i].name]])
    {
      AssignmentIsAColumn(u.columns, u.values, pk, p);
    }
    forall i | 0 <= i < |u.columns| && !u.columns[i].primaryKey && !u.columns[i].version
               && u.columns[i].name in u.values
      ensures Predicate(QuoteIdent(u.columns[i].name) + " = ?", [u.values[u.columns[i].name]]) in PlainAssignments(u)
    {
      AssignmentAt(u.columns, u.values, pk, i);
    }
  }

  // ---------------------------------------------------------------------- what a WHERE list means

  predicate IsOperator(w: string) {
    w == "AND" || w == "OR"
  }

  /** The condition whose words have been read. */
  function Pending(words: seq<string>, id: seq<string> -> nat): W.Clause {
    if words == [] then [] else [W.Condition(id(words))]
  }

  /** The words of a condition list as SQL reads them, behind the words of a condition that is not over yet. */
  function TokensFrom(ws: seq<string>, words: seq<string>, id: seq<string> -> nat): W.Clause
    decreases |ws|
  {
    if ws == [] then Pending(words, id)
    else if IsOperator(ws[0]) then
      Pending(words, id) + ([if ws[0] == "AND" then W.And else W.Or] + TokensFrom(ws[1..], [], id))
    else TokensFrom(ws[1..], words + [ws[0]], id)
  }

  /** The words of a condition list; `id` numbers the conditions between the operators. */
  function Tokens(ws: seq<string>, id: seq<string> -> nat): W.Clause {
    TokensFrom(ws, [], id)
  }

  lemma {:induction false} TokensApart(a: seq<string>, b: seq<string>, words: seq<string>, id: seq<string> -> nat)
    ensures TokensFrom(a + (["AND"] + b), words, id) == TokensFrom(a, words, id) + ([W.And] + Tokens(b, id))
    decreases |a|
  {
    if a == [] {
      assert a + (["AND"] + b) == ["AND"] + b && (["AND"] + b)[1..] == b;
    } else {
      var rest := a[1..] + (["AND"] + b);
      assert (a + (["AND"] + b))[1..] == rest && (a + (["AND"] + b))[0] == a[0];
      if IsOperator(a[0]) {
        var op := [if a[0] == "AND" then W.And else W.Or];
        TokensApart(a[1..], b, [], id);
        Regrouped(op, TokensFrom(a[1..], [], id), [W.And] + Tokens(b, id));
        Regrouped(Pending(words, id), op + TokensFrom(a[1..], [], id), [W.And] + Tokens(b, id));
      } else {
        TokensApart(a[1..], b, words + [a[0]], id);
      }
    }
  }

  /** Only the word OR is read as one. */
  lemma {:induction false} OrIsAWord(ws: seq<string>, words: seq<string>, id: seq<string> -> nat)
    requires "OR" !in ws
    ensures W.Or !in TokensFrom(ws, words, id)
    decreases |ws|
  {
    if ws != [] {
      assert ws[0] in ws && forall w :: w in ws[1..] ==> w in ws;
      OrIsAWord(ws[1..], if IsOperator(ws[0]) then [] else words + [ws[0]], id);
    }
  }

  /** The clauses of a list, each read by itself. */
  function ClauseTokens(items: seq<string>, id: seq<string> -> nat): (r: seq<W.Clause>)
    ensures |r| == |items|
  {
    seq(|items|, i requires 0 <= i < |items| => Tokens(Words(items[i]), id))
  }

  /** The rendered list reads as WhereText's joined clauses. */
  lemma {:induction false} ListIsJoined(items: seq<string>, id: seq<string> -> nat)
    requires AllClosed(items)
    ensures Tokens(ListBody(items, " AND "), id) == W.Joined(ClauseTokens(items, id))
  {
    if |items| > 1 {
      var rest := items[1..];
      var list := Words(Join(rest, " AND "));
      assert forall i :: 0 <= i < |rest| ==> rest[i] == items[i + 1];
      ListIsJoined(rest, id);
      AndApart(items[0], Join(rest, " AND "));
      TokensApart(Words(items[0]), list, [], id);
      Regrouped(Words(items[0]), ["AND"], list);
      assert ClauseTokens(items, id)[1..] == ClauseTokens(rest, id);
      Regrouped(Tokens(Words(items[0]), id), [W.And], Tokens(list, id));
    } else if |items| == 1 {
      assert ClauseTokens(items, id) == [Tokens(Words(items[0]), id)];
    }
  }

  /** Clauses without a top-level OR, as rendered, mean that all of them hold. */
  lemma ListMeansAll(items: seq<string>, id: seq<string> -> nat, val: W.Valuation)
    requires AllClosed(items) && Lacks(items, "OR")
    ensures W.Eval(Tokens(ListBody(items, " AND "), id), val)
       <==> forall i :: 0 <= i < |items| ==> W.Eval(Tokens(Words(items[i]), id), val)
  {
    var clauses := ClauseTokens(items, id);
    ListIsJoined(items, id);
    forall i | 0 <= i < |clauses| ensures W.Or !in clauses[i] { OrIsAWord(Words(items[i]), [], id); }
    W.JoinedMeansAll(clauses, val);
    assert forall i :: 0 <= i < |items| ==> clauses[i] == Tokens(Words(items[i]), id);
  }

  /** The words of a statement's WHERE section. */
  function WhereSection(t: string, heads: seq<seq<string>>, stops: set<string>): Option<seq<string>>
    requires |heads| > 2
  {
    match ReadClauses(Words(t), heads, stops) case None => None case Some(b) => Some(b[2])
  }

  lemma ClausesLack(ps: seq<Predicate>, start: nat, w: string)
    requires Clauses(ps, {w}) && '$' !in w
    ensures Lacks(BoundTexts(ps, start), w)
  {
    BoundClausesFree(ps, start, {w});
    forall i | 0 <= i < |ps| ensures w !in Words(BoundTexts(ps, start)[i]) {
      assert Free(Words(BoundTexts(ps, start)[i]), {w});
    }
  }

  lemma SelectWhereSection(q: Query)
    requires ReadableQuery(q, SELECT_STOPS) && q.table != ""
    ensures ClausewiseSelect(q).Success? && AllClosed(BoundTexts(q.where_, WhereStart(q)))
    ensures WhereSection(ClausewiseSelect(q).value, SELECT_HEADS, SELECT_STOPS)
            == Some(ListBody(BoundTexts(q.where_, WhereStart(q)), " AND "))
  {
    SelectWordsHaveNoDollar();
    BoundPartsReadable(q, SELECT_STOPS);
    PartsWhereSection(BoundParts(q));
  }

  lemma PartsWhereSection(p: SelectParts)
    requires Readable(p) && p.table != ""
    ensures RenderParts(p).Success? && AllClosed(p.where_)
    ensures WhereSection(RenderParts(p).value, SELECT_HEADS, SELECT_STOPS) == Some(ListBody(p.where_, " AND "))
  {
    SelectSectionsReadBack(p);
    SelectBodiesAreSections(p);
    ReadableIsClosed(p, SELECT_STOPS, JOIN_KINDS);
  }

  /**
   * Read from the text that is sent, the WHERE list of a SELECT restricts it by every single clause, if no clause has
   * an OR outside quotes and parentheses.
   */
  lemma SelectMeansAll(q: Query, id: seq<string> -> nat, val: W.Valuation)
    requires ReadableQuery(q, SELECT_STOPS) && q.table != "" && Clauses(q.where_, {"OR"})
    ensures ClausewiseSelect(q).Success?
    ensures var section := WhereSection(ClausewiseSelect(q).value, SELECT_HEADS, SELECT_STOPS);
            var clauses := BoundTexts(q.where_, WhereStart(q));
            section.Some? && (W.Eval(Tokens(section.value, id), val)
                              <==> forall i :: 0 <= i < |clauses| ==> W.Eval(Tokens(Words(clauses[i]), id), val))
  {
    SelectWhereSection(q);
    ClausesLack(q.where_, WhereStart(q), "OR");
    ListMeansAll(BoundTexts(q.where_, WhereStart(q)), id, val);
  }

  lemma {:induction false} KeysLack(cols: seq<string>, start: nat, w: string)
    requires w != "" && w[0] != '"' && w != "=" && '$' !in w
    ensures Lacks(KeyTexts(cols, start), w)
  {
    if cols != [] {
      KeysLack(cols[1..], start + 1, w);
      KeyWords(cols[0], start);
      assert forall i :: 0 < i < |KeyTexts(cols, start)| ==>
               KeyTexts(cols, start)[i] == KeyTexts(cols[1..], start + 1)[i - 1];
    }
  }

  lemma KeyWords(name: string, n: nat)
    ensures Words(QuoteIdent(name) + " = " + Placeholder(n)) == [QuoteIdent(name), "=", Placeholder(n)]
    ensures QuoteIdent(name)[0] == '"' && '$' in Placeholder(n)
  {
    PlaceholderIsPlain(n);
    IdentIsOneWord(name);
    PlainIsOneWord("=");
    PlainIsOneWord(Placeholder(n));
    WordsApart("=", Placeholder(n));
    WordsApart(QuoteIdent(name), "=" + " " + Placeholder(n));
    assert QuoteIdent(name) + " = " + Placeholder(n) == QuoteIdent(name) + " " + ("=" + " " + Placeholder(n));
  }

  lemma UpdateWhereSection(u: Update)
    requires |u.keyCols| == |u.keyArgs| && u.table != "" && UpdateSet(u) != []
    requires Clauses(u.extra, UPDATE_STOPS + {"AND"})
    ensures ClausewiseUpdate(u).Success? && AllClosed(UpdateWhere(u, 1 + |PlainArgs(u)|))
    ensures WhereSection(ClausewiseUpdate(u).value, UPDATE_HEADS, UPDATE_STOPS)
            == Some(ListBody(UpdateWhere(u, 1 + |PlainArgs(u)|), " AND "))
  {
    UpdateStopsSpare();
    BoundUpdateReadable(u, UPDATE_STOPS);
    PartsUpdateSection(BoundUpdateParts(u));
  }

  lemma PartsUpdateSection(p: UpdateParts)
    requires ReadableUpdate(p, UPDATE_STOPS)
    ensures WhereSection(RenderedUpdate(p), UPDATE_HEADS, UPDATE_STOPS) == Some(ListBody(p.where_, " AND "))
  {
    UpdateSectionsReadBack(p);
    UpdateBodiesAreSections(p);
  }

  lemma UpdateWhereLacks(u: Update, start: nat, w: string)
    requires Clauses(u.extra, {w}) && w != "" && w[0] != '"' && w != "=" && '$' !in w
    ensures Lacks(UpdateWhere(u, start), w)
  {
    KeysLack(u.keyCols, start, w);
    ClausesLack(u.extra, start + |u.keyCols|, w);
    LacksBoth(KeyTexts(u.keyCols, start), BoundTexts(u.extra, start + |u.keyCols|), w);
  }

  /** And that of an UPDATE: the keys and every extra clause, the version check and the scope conditions among them. */
  lemma UpdateMeansAll(u: Update, id: seq<string> -> nat, val: W.Valuation)
    requires |u.keyCols| == |u.keyArgs| && u.table != "" && UpdateSet(u) != []
    requires Clauses(u.extra, UPDATE_STOPS + {"AND"}) && Clauses(u.extra, {"OR"})
    ensures ClausewiseUpdate(u).Success?
    ensures var section := WhereSection(ClausewiseUpdate(u).value, UPDATE_HEADS, UPDATE_STOPS);
            var clauses := UpdateWhere(u, 1 + |PlainArgs(u)|);
            section.Some? && (W.Eval(Tokens(section.value, id), val)
                              <==> forall i :: 0 <= i < |clauses| ==> W.Eval(Tokens(Words(clauses[i]), id), val))
  {
    var start := 1 + |PlainArgs(u)|;
    UpdateWhereSection(u);
    UpdateWhereLacks(u, start, "OR");
    ListMeansAll(UpdateWhere(u, start), id, val);
  }

  lemma LacksBoth(a: seq<string>, b: seq<string>, w: string)
    requires Lacks(a, w) && Lacks(b, w)
    ensures Lacks(a + b, w)
  {
    forall i | 0 <= i < |a + b| ensures w !in Words((a + b)[i]) {
      assert (a + b)[i] == if i < |a| then a[i] else b[i - |a|];
    }
  }
}
