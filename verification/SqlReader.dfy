/** Reading statements back: texts cut at top-level blanks and commas, and lists of words cut at keywords. */
module SqlReader {
  import opened Text
  import opened Wrappers

  // ---------------------------------------------------------------- cutting a text outside quotes and parentheses

  datatype Quote = Unquoted | Single | Double

  /** How many parentheses are open, and which quote. */
  datatype Mode = Mode(depth: nat, quote: Quote)

  const TOP := Mode(0, Unquoted)

  function Next(m: Mode, c: char): Mode {
    match m.quote
    case Single => if c == '\'' then m.(quote := Unquoted) else m
    case Double => if c == '"' then m.(quote := Unquoted) else m
    case Unquoted =>
      if c == '\'' then m.(quote := Single)
      else if c == '"' then m.(quote := Double)
      else if c == '(' then m.(depth := m.depth + 1)
      else if c == ')' && m.depth > 0 then m.(depth := m.depth - 1)
      else m
  }

  function After(m: Mode, s: string): Mode
    decreases |s|
  {
    if s == "" then m else After(Next(m, s[0]), s[1..])
  }

  lemma {:induction false} AfterAppend(m: Mode, a: string, b: string)
    ensures After(m, a + b) == After(After(m, a), b)
    decreases |a|
  {
    if a == "" {
      assert a + b == b;
    } else {
      assert (a + b)[1..] == a[1..] + b;
      AfterAppend(Next(m, a[0]), a[1..], b);
    }
  }

  /** Quotes and parentheses are all closed. */
  predicate Closed(s: string) {
    After(TOP, s) == TOP
  }

  lemma ClosedAppend(a: string, b: string)
    requires Closed(a)
    ensures Closed(a + b) <==> Closed(b)
  {
    AfterAppend(TOP, a, b);
  }

  predicate Separator(sep: string) {
    sep == " " || sep == ", "
  }

  /** A text in front of the first piece. */
  function Prefixed(p: string, pieces: seq<string>): (r: seq<string>)
    requires pieces != []
    ensures |r| == |pieces|
  {
    [p + pieces[0]] + pieces[1..]
  }

  lemma PrefixedAppend(p: string, a: seq<string>, b: seq<string>)
    requires a != []
    ensures Prefixed(p, a + b) == Prefixed(p, a) + b
  {
    assert (a + b)[1..] == a[1..] + b;
  }

  lemma PrefixedTwice(p: string, q: string, a: seq<string>)
    requires a != []
    ensures Prefixed(p, Prefixed(q, a)) == Prefixed(p + q, a)
  {
    assert Prefixed(q, a)[1..] == a[1..];
    assert p + (q + a[0]) == (p + q) + a[0];
  }

  /** The pieces of a text between its top-level separators. */
  function Cut(s: string, sep: string, m: Mode): (r: seq<string>)
    requires Separator(sep)
    ensures r != []
    decreases |s|
  {
    if s == "" then [""]
    else if m == TOP && sep <= s then [""] + Cut(s[|sep|..], sep, m)
    else Prefixed([s[0]], Cut(s[1..], sep, Next(m, s[0])))
  }

  function Words(s: string): (r: seq<string>)
    ensures r != []
  {
    Cut(s, " ", TOP)
  }

  function Items(s: string): (r: seq<string>)
    ensures r != []
  {
    Cut(s, ", ", TOP)
  }

  lemma AfterSeparator(sep: string, s: string)
    requires Separator(sep) && sep <= s
    ensures After(TOP, s) == After(TOP, s[|sep|..])
  {
    assert s == sep + s[|sep|..];
    AfterAppend(TOP, sep, s[|sep|..]);
    assert sep[1..] == if |sep| == 1 then "" else " ";
    assert After(TOP, " ") == TOP by { assert " "[1..] == ""; }
  }

  /** A separator starts at the front of a closed text or not, whatever follows it. */
  lemma SeparatorInFront(a: string, sep: string, b: string)
    requires Separator(sep) && a != ""
    ensures sep <= a + sep + b <==> sep <= a
  {
    var t := a + sep + b;
    assert t[0] == a[0] && (|a| > 1 ==> t[1] == a[1]) && (|a| == 1 ==> t[1] == sep[0]);
  }

  lemma CutSeparator(s: string, sep: string)
    requires Separator(sep)
    ensures Cut(sep + s, sep, TOP) == [""] + Cut(s, sep, TOP)
  {
    assert (sep + s)[|sep|..] == s;
  }

  lemma CutFirst(c: char, s: string, sep: string, m: Mode)
    requires Separator(sep) && !(m == TOP && sep <= [c] + s)
    ensures Cut([c] + s, sep, m) == Prefixed([c], Cut(s, sep, Next(m, c)))
  {
    assert ([c] + s)[1..] == s;
  }

  /** The two ways a text behind its first piece or character goes on. */
  lemma ApartBehindSeparator(rest: string, all: string, sep: string, more: seq<string>)
    requires Separator(sep) && Cut(all, sep, TOP) == Cut(rest, sep, TOP) + more
    ensures Cut(sep + all, sep, TOP) == Cut(sep + rest, sep, TOP) + more
  {
    CutSeparator(all, sep);
    CutSeparator(rest, sep);
  }

  lemma ApartBehindChar(c: char, rest: string, all: string, sep: string, more: seq<string>, m: Mode)
    requires Separator(sep) && !(m == TOP && sep <= [c] + rest) && !(m == TOP && sep <= [c] + all)
    requires Cut(all, sep, Next(m, c)) == Cut(rest, sep, Next(m, c)) + more
    ensures Cut([c] + all, sep, m) == Cut([c] + rest, sep, m) + more
  {
    CutFirst(c, all, sep, m);
    CutFirst(c, rest, sep, m);
    PrefixedAppend([c], Cut(rest, sep, Next(m, c)), more);
  }

  lemma SplitFirst(a: string, sep: string, b: string, n: nat)
    requires n <= |a|
    ensures a + sep + b == a[..n] + (a[n..] + sep + b) && a == a[..n] + a[n..]
  {
  }

  /** A separator between a closed text and another one separates their pieces. */
  lemma {:induction false} CutApart(a: string, sep: string, b: string, m: Mode)
    requires Separator(sep) && After(m, a) == TOP
    ensures Cut(a + sep + b, sep, m) == Cut(a, sep, m) + Cut(b, sep, TOP)
    decreases |a|
  {
    if a == "" {
      assert a + sep + b == sep + b;
      CutSeparator(b, sep);
    } else if m == TOP && sep <= a {
      var rest := a[|sep|..];
      AfterSeparator(sep, a);
      SplitFirst(a, sep, b, |sep|);
      CutApart(rest, sep, b, m);
      ApartBehindSeparator(rest, rest + sep + b, sep, Cut(b, sep, TOP));
    } else {
      var rest := a[1..];
      SplitFirst(a, sep, b, 1);
      SeparatorInFront(a, sep, b);
      CutApart(rest, sep, b, Next(m, a[0]));
      ApartBehindChar(a[0], rest, rest + sep + b, sep, Cut(b, sep, TOP), m);
    }
  }

  lemma JoinPrefixed(p: string, pieces: seq<string>, sep: string)
    requires pieces != []
    ensures Join(Prefixed(p, pieces), sep) == p + Join(pieces, sep)
  {
    assert Prefixed(p, pieces)[1..] == pieces[1..];
    if |pieces| > 1 {
      assert (p + pieces[0]) + sep + Join(pieces[1..], sep) == p + (pieces[0] + sep + Join(pieces[1..], sep));
    }
  }

  /** Joining the pieces gives the text back. */
  lemma {:induction false} CutRejoins(s: string, sep: string, m: Mode)
    requires Separator(sep)
    ensures Join(Cut(s, sep, m), sep) == s
    decreases |s|
  {
    if s != "" {
      if m == TOP && sep <= s {
        var rest := Cut(s[|sep|..], sep, m);
        CutRejoins(s[|sep|..], sep, m);
        assert ([""] + rest)[1..] == rest;
        assert s == "" + sep + s[|sep|..];
      } else {
        var rest := Cut(s[1..], sep, Next(m, s[0]));
        CutRejoins(s[1..], sep, Next(m, s[0]));
        JoinPrefixed([s[0]], rest, sep);
        assert s == [s[0]] + s[1..];
      }
    }
  }

  /** A character that neither opens, closes nor separates anything. */
  predicate PlainChar(c: char) {
    c != ' ' && c != ',' && c != '(' && c != ')' && c != '"' && c != '\''
  }

  predicate PlainText(s: string) {
    forall i :: 0 <= i < |s| ==> PlainChar(s[i])
  }

  /** Plain text in front of a text becomes part of its first piece. */
  lemma {:induction false} PlainInFront(p: string, s: string, sep: string, m: Mode)
    requires Separator(sep) && PlainText(p)
    ensures After(m, p + s) == After(m, s)
    ensures Cut(p + s, sep, m) == Prefixed(p, Cut(s, sep, m))
    decreases |p|
  {
    if p == "" {
      assert p + s == s;
      var rest := Cut(s, sep, m);
      assert "" + rest[0] == rest[0] && rest == [rest[0]] + rest[1..];
    } else {
      assert PlainChar(p[0]);
      assert p + s == [p[0]] + (p[1..] + s) && (p + s)[1..] == p[1..] + s && p == [p[0]] + p[1..];
      PlainInFront(p[1..], s, sep, m);
      CutFirst(p[0], p[1..] + s, sep, m);
      PrefixedTwice([p[0]], p[1..], Cut(s, sep, m));
    }
  }

  lemma PlainIsOneWord(p: string)
    requires PlainText(p)
    ensures Words(p) == [p] && Items(p) == [p] && Closed(p)
  {
    PlainInFront(p, "", " ", TOP);
    PlainInFront(p, "", ", ", TOP);
    assert p + "" == p;
  }

  lemma WordsApart(a: string, b: string)
    requires Closed(a)
    ensures Words(a + " " + b) == Words(a) + Words(b) && (Closed(a + " " + b) <==> Closed(b))
  {
    CutApart(a, " ", b, TOP);
    PlainIsOneWord("");
    AfterSeparator(" ", " " + b);
    assert (" " + b)[1..] == b;
    ClosedAppend(a, " " + b);
    assert a + " " + b == a + (" " + b);
  }

  lemma SeparatorWithin(a: string, b: string, sep: string)
    requires Separator(sep) && a != "" && a[|a| - 1] != ','
    ensures sep <= a + b <==> sep <= a
  {
    var t := a + b;
    assert t[0] == a[0] && (|a| > 1 ==> t[1] == a[1]);
  }

  lemma SinglePiece(c: char, rest: string, sep: string, m: Mode)
    requires Separator(sep) && Cut([c] + rest, sep, m) == [[c] + rest]
    ensures !(m == TOP && sep <= [c] + rest) && Cut(rest, sep, Next(m, c)) == [rest]
  {
    var a := [c] + rest;
    assert Cut(a, sep, m)[0] == a != "";
    if m == TOP && sep <= a {
      assert false;
    }
    CutFirst(c, rest, sep, m);
    var tail := Cut(rest, sep, Next(m, c));
    assert Prefixed([c], tail)[0] == [c] + tail[0] && |tail| == 1;
    assert ([c] + tail[0])[1..] == tail[0] && a[1..] == rest;
  }

  /** A text behind a closed one that is a single piece and ends in no comma. */
  lemma {:induction false} CutBehind(a: string, b: string, sep: string, m: Mode)
    requires Separator(sep) && Cut(a, sep, m) == [a] && After(m, a) == TOP && a != "" && a[|a| - 1] != ','
    ensures Cut(a + b, sep, m) == Prefixed(a, Cut(b, sep, TOP))
    decreases |a|
  {
    var c, rest := a[0], a[1..];
    assert a == [c] + rest && a + b == [c] + (rest + b);
    SinglePiece(c, rest, sep, m);
    SeparatorWithin(a, b, sep);
    CutFirst(c, rest + b, sep, m);
    if rest == "" {
      assert rest + b == b;
    } else {
      CutBehind(rest, b, sep, Next(m, c));
      PrefixedTwice([c], rest, Cut(b, sep, TOP));
    }
  }

  lemma {:induction false} NoCommaNoCut(s: string, m: Mode)
    requires ',' !in s
    ensures Cut(s, ", ", m) == [s]
    decreases |s|
  {
    if s != "" {
      assert s[0] in s && s == [s[0]] + s[1..];
      NoCommaNoCut(s[1..], Next(m, s[0]));
    }
  }

  // ------------------------------------------------------------------------ lists of clauses in a text

  /** Two clauses around an AND. */
  lemma AndApart(a: string, b: string)
    requires Closed(a)
    ensures Words(a + " AND " + b) == Words(a) + ["AND"] + Words(b) && (Closed(a + " AND " + b) <==> Closed(b))
  {
    PlainIsOneWord("AND");
    WordsApart("AND", b);
    WordsApart(a, "AND" + " " + b);
    assert a + " AND " + b == a + " " + ("AND" + " " + b);
    Regrouped(Words(a), ["AND"], Words(b));
  }

  /** Words cut at every occurrence of one. */
  function SplitAt(ws: seq<string>, w: string): (r: seq<seq<string>>)
    ensures r != []
  {
    if ws == [] then [[]]
    else
      var rest := SplitAt(ws[1..], w);
      if ws[0] == w then [[]] + rest else [[ws[0]] + rest[0]] + rest[1..]
  }

  lemma {:induction false} SplitApart(a: seq<string>, w: string, b: seq<string>)
    requires w !in a
    ensures SplitAt(a + [w] + b, w) == [a] + SplitAt(b, w) && SplitAt(a, w) == [a]
  {
    var t := a + [w] + b;
    if a == [] {
      assert t == [w] + b && t[1..] == b;
    } else {
      assert t[1..] == a[1..] + [w] + b && a[0] in a;
      SplitApart(a[1..], w, b);
      assert ([a[1..]] + SplitAt(b, w))[1..] == SplitAt(b, w);
      assert a == [a[0]] + a[1..];
    }
  }

  function JoinEach(lists: seq<seq<string>>): (r: seq<string>)
    ensures |r| == |lists|
  {
    if lists == [] then [] else [Join(lists[0], " ")] + JoinEach(lists[1..])
  }

  /** The clauses of a list joined by AND. */
  function ReadAnds(ws: seq<string>): seq<string> {
    if ws == [] then [] else JoinEach(SplitAt(ws, "AND"))
  }

  /** The entries of a list joined by commas. */
  function ReadCommas(ws: seq<string>): seq<string> {
    if ws == [] then [] else Items(Join(ws, " "))
  }

  predicate AllClosed(items: seq<string>) {
    forall i :: 0 <= i < |items| ==> Closed(items[i])
  }

  predicate Lacks(items: seq<string>, w: string) {
    forall i :: 0 <= i < |items| ==> w !in Words(items[i])
  }

  lemma {:induction false} AndsReadBack(items: seq<string>)
    requires items != [] && AllClosed(items) && Lacks(items, "AND")
    ensures ReadAnds(Words(Join(items, " AND "))) == items
  {
    var first := Words(items[0]);
    CutRejoins(items[0], " ", TOP);
    if |items| == 1 {
      SplitApart(first, "AND", []);
      assert [first][1..] == [] && items == [items[0]];
    } else {
      var rest := items[1..];
      assert forall i :: 0 <= i < |rest| ==> rest[i] == items[i + 1];
      AndsReadBack(rest);
      AndApart(items[0], Join(rest, " AND "));
      SplitApart(first, "AND", Words(Join(rest, " AND ")));
      assert ([first] + SplitAt(Words(Join(rest, " AND ")), "AND"))[1..] == SplitAt(Words(Join(rest, " AND ")), "AND");
      assert items == [items[0]] + rest;
    }
  }

  /** Entries without a top-level comma in them. */
  predicate SingleItems(items: seq<string>) {
    forall i :: 0 <= i < |items| ==> Items(items[i]) == [items[i]]
  }

  lemma {:induction false} CommasCutApart(items: seq<string>)
    requires items != [] && AllClosed(items) && SingleItems(items)
    ensures Items(Join(items, ", ")) == items
  {
    if |items| == 1 {
      assert items == [items[0]];
    } else {
      var rest := items[1..];
      assert forall i :: 0 <= i < |rest| ==> rest[i] == items[i + 1];
      CommasCutApart(rest);
      CutApart(items[0], ", ", Join(rest, ", "), TOP);
      assert items == [items[0]] + rest;
    }
  }

  lemma CommasReadBack(items: seq<string>)
    requires items != [] && AllClosed(items) && SingleItems(items)
    ensures ReadCommas(Words(Join(items, ", "))) == items
  {
    CommasCutApart(items);
    CutRejoins(Join(items, ", "), " ", TOP);
  }

  lemma {:induction false} JoinClosed(items: seq<string>, sep: string)
    requires AllClosed(items) && (sep == ", " || sep == " AND " || sep == " ")
    ensures Closed(Join(items, sep))
  {
    if |items| > 1 {
      var rest := items[1..];
      assert forall i :: 0 <= i < |rest| ==> rest[i] == items[i + 1];
      JoinClosed(rest, sep);
      if sep == " AND " {
        AndApart(items[0], Join(rest, sep));
      } else {
        AfterSeparator(sep, sep + Join(rest, sep));
        assert (sep + Join(rest, sep))[|sep|..] == Join(rest, sep);
        ClosedAppend(items[0], sep + Join(rest, sep));
        assert items[0] + sep + Join(rest, sep) == items[0] + (sep + Join(rest, sep));
      }
    } else if items != [] {
      assert Closed(items[0]);
    }
  }

  // ------------------------------------------------------------------------- keywords between lists

  /** None of these words is a stop word. */
  predicate Free(ws: seq<string>, stops: set<string>) {
    forall w :: w in ws ==> w !in stops
  }

  predicate AllFree(items: seq<string>, stops: set<string>) {
    forall i :: 0 <= i < |items| ==> Free(Words(items[i]), stops)
  }

  lemma FreeAppend(a: seq<string>, b: seq<string>, stops: set<string>)
    ensures Free(a + b, stops) <==> Free(a, stops) && Free(b, stops)
  {
    assert forall w :: w in a + b <==> w in a || w in b;
  }

  lemma {:induction false} AndsFree(items: seq<string>, stops: set<string>)
    requires items != [] && AllClosed(items) && AllFree(items, stops) && "AND" !in stops
    ensures Free(Words(Join(items, " AND ")), stops)
  {
    if |items| > 1 {
      var rest := items[1..];
      assert forall i :: 0 <= i < |rest| ==> rest[i] == items[i + 1];
      AndsFree(rest, stops);
      AndApart(items[0], Join(rest, " AND "));
      FreeAppend(Words(items[0]), ["AND"], stops);
      FreeAppend(Words(items[0]) + ["AND"], Words(Join(rest, " AND ")), stops);
    }
  }

  /** A text behind the last piece. */
  function Suffixed(pieces: seq<string>, p: string): (r: seq<string>)
    requires pieces != []
    ensures |r| == |pieces|
  {
    pieces[..|pieces| - 1] + [pieces[|pieces| - 1] + p]
  }

  lemma SuffixedPrefixed(p: string, pieces: seq<string>, q: string)
    requires pieces != []
    ensures Suffixed(Prefixed(p, pieces), q) == Prefixed(p, Suffixed(pieces, q))
  {
    var n := |pieces| - 1;
    if n == 0 {
      assert pieces[..0] == [] && Prefixed(p, pieces)[..0] == [];
      assert (p + pieces[0]) + q == p + (pieces[0] + q);
    } else {
      assert Prefixed(p, pieces)[..n] == [p + pieces[0]] + pieces[1..n];
      assert Suffixed(pieces, q)[1..] == pieces[1..n] + [pieces[n] + q];
    }
  }

  lemma CommaBehindBlank(rest: string)
    requires Cut(rest + ",", " ", TOP) == Suffixed(Cut(rest, " ", TOP), ",")
    ensures Cut(" " + rest + ",", " ", TOP) == Suffixed(Cut(" " + rest, " ", TOP), ",")
  {
    assert " " + rest + "," == " " + (rest + ",");
    CutSeparator(rest, " ");
    CutSeparator(rest + ",", " ");
    var ws := Cut(rest, " ", TOP);
    assert ([""] + ws)[..|ws|] == [""] + ws[..|ws| - 1];
  }

  lemma CommaBehindChar(c: char, rest: string, m: Mode)
    requires !(m == TOP && c == ' ') && Cut(rest + ",", " ", Next(m, c)) == Suffixed(Cut(rest, " ", Next(m, c)), ",")
    ensures Cut([c] + rest + ",", " ", m) == Suffixed(Cut([c] + rest, " ", m), ",")
  {
    assert [c] + rest + "," == [c] + (rest + ",");
    assert ([c] + (rest + ","))[0] == c && ([c] + rest)[0] == c;
    CutFirst(c, rest + ",", " ", m);
    CutFirst(c, rest, " ", m);
    SuffixedPrefixed([c], Cut(rest, " ", Next(m, c)), ",");
  }

  /** A comma behind a text sticks to its last word. */
  lemma {:induction false} CommaSticks(s: string, m: Mode)
    ensures Cut(s + ",", " ", m) == Suffixed(Cut(s, " ", m), ",")
    decreases |s|
  {
    if s == "" {
      assert s + "," == [','] + "" && ([','] + "")[0] == ',';
      CutFirst(',', "", " ", m);
    } else {
      assert s == [s[0]] + s[1..];
      CommaSticks(s[1..], Next(m, s[0]));
      if m == TOP && s[0] == ' ' { CommaBehindBlank(s[1..]); } else { CommaBehindChar(s[0], s[1..], m); }
    }
  }

  lemma CommaKeepsMode(s: string)
    ensures After(TOP, s + ",") == After(TOP, s)
  {
    AfterAppend(TOP, s, ",");
    assert ","[1..] == "";
  }

  /** No keyword ends in a comma. */
  predicate NoCommas(stops: set<string>) {
    forall w :: w in stops ==> w != "" && w[|w| - 1] != ','
  }

  lemma CommaApart(first: string, tail: string)
    requires Closed(first)
    ensures Words(first + ", " + tail) == Suffixed(Words(first), ",") + Words(tail)
  {
    CommaSticks(first, TOP);
    CommaKeepsMode(first);
    WordsApart(first + ",", tail);
    assert first + ", " + tail == (first + ",") + " " + tail;
  }

  lemma SuffixedFree(ws: seq<string>, stops: set<string>)
    requires ws != [] && Free(ws, stops) && NoCommas(stops)
    ensures Free(Suffixed(ws, ","), stops)
  {
    forall w | w in Suffixed(ws, ",") ensures w !in stops {
      if w == ws[|ws| - 1] + "," { assert w[|w| - 1] == ','; }
    }
  }

  lemma {:induction false} CommasFree(items: seq<string>, stops: set<string>)
    requires items != [] && AllClosed(items) && AllFree(items, stops) && NoCommas(stops)
    ensures Free(Words(Join(items, ", ")), stops)
  {
    if |items| > 1 {
      var first, rest := items[0], items[1..];
      var tail := Join(rest, ", ");
      assert forall i :: 0 <= i < |rest| ==> rest[i] == items[i + 1];
      CommasFree(rest, stops);
      CommaApart(first, tail);
      SuffixedFree(Words(first), stops);
      FreeAppend(Suffixed(Words(first), ","), Words(tail), stops);
    }
  }

  // ------------------------------------------------------------------------- lists without a separator word

  /** Words grouped so that every group but the first starts with one of these. */
  function Groups(ws: seq<string>, kinds: set<string>): (r: seq<seq<string>>)
    ensures ws != [] ==> r != []
  {
    if ws == [] then []
    else
      var rest := Groups(ws[1..], kinds);
      if |ws| > 1 && ws[1] !in kinds then [[ws[0]] + rest[0]] + rest[1..] else [[ws[0]]] + rest
  }

  lemma {:induction false} GroupsApart(a: seq<string>, b: seq<string>, kinds: set<string>)
    requires a != [] && Free(a[1..], kinds) && (b == [] || b[0] in kinds)
    ensures Groups(a + b, kinds) == [a] + Groups(b, kinds)
    decreases |a|
  {
    assert (a + b)[1..] == a[1..] + b;
    if |a| == 1 {
      assert a[1..] + b == b && a == [a[0]];
    } else {
      assert a[1] == a[1..][0] && a[1..][1..] == a[2..];
      assert forall w :: w in a[2..] ==> w in a[1..];
      GroupsApart(a[1..], b, kinds);
      assert a == [a[0]] + a[1..];
      assert ([a[1..]] + Groups(b, kinds))[1..] == Groups(b, kinds);
    }
  }

  function ReadGroups(ws: seq<string>, kinds: set<string>): seq<string> {
    JoinEach(Groups(ws, kinds))
  }

  /** The text starts with one of these words and holds no other. */
  predicate Starts(s: string, kinds: set<string>) {
    Closed(s) && Words(s)[0] in kinds && Free(Words(s)[1..], kinds)
  }

  predicate AllStart(items: seq<string>, kinds: set<string>) {
    forall i :: 0 <= i < |items| ==> Starts(items[i], kinds)
  }

  lemma {:induction false} GroupsReadBack(items: seq<string>, kinds: set<string>)
    requires items != [] && AllStart(items, kinds)
    ensures ReadGroups(Words(Join(items, " ")), kinds) == items && Words(Join(items, " "))[0] in kinds
  {
    var first := Words(items[0]);
    CutRejoins(items[0], " ", TOP);
    if |items| == 1 {
      GroupsApart(first, [], kinds);
      assert first + [] == first && items == [items[0]] && [first][1..] == [];
    } else {
      var rest := items[1..];
      assert forall i :: 0 <= i < |rest| ==> rest[i] == items[i + 1];
      GroupsReadBack(rest, kinds);
      WordsApart(items[0], Join(rest, " "));
      GroupsApart(first, Words(Join(rest, " ")), kinds);
      assert ([first] + Groups(Words(Join(rest, " ")), kinds))[1..] == Groups(Words(Join(rest, " ")), kinds);
      assert items == [items[0]] + rest;
    }
  }

  lemma {:induction false} BlanksFree(items: seq<string>, stops: set<string>)
    requires items != [] && AllClosed(items) && AllFree(items, stops)
    ensures Free(Words(Join(items, " ")), stops)
  {
    if |items| > 1 {
      var rest := items[1..];
      assert forall i :: 0 <= i < |rest| ==> rest[i] == items[i + 1];
      BlanksFree(rest, stops);
      WordsApart(items[0], Join(rest, " "));
      FreeAppend(Words(items[0]), Words(Join(rest, " ")), stops);
    }
  }

  // ------------------------------------------------------------------------- statements as keyword and list in turn

  /** How many words come before the first stop word. */
  function Run(ws: seq<string>, stops: set<string>): (n: nat)
    ensures n <= |ws|
  {
    if ws == [] || ws[0] in stops then 0 else 1 + Run(ws[1..], stops)
  }

  lemma {:induction false} RunStops(a: seq<string>, b: seq<string>, stops: set<string>)
    requires Free(a, stops) && (b == [] || b[0] in stops)
    ensures Run(a + b, stops) == |a|
  {
    if a == [] {
      assert a + b == b;
    } else {
      assert (a + b)[1..] == a[1..] + b && a[0] in a;
      assert forall w :: w in a[1..] ==> w in a;
      RunStops(a[1..], b, stops);
    }
  }

  /** One clause of a statement: its keywords and the words behind them; without words it is left out. */
  function Section(head: seq<string>, body: seq<string>): seq<string> {
    if body == [] then [] else head + body
  }

  function Lay(heads: seq<seq<string>>, bodies: seq<seq<string>>): seq<string>
    requires |heads| == |bodies|
  {
    if heads == [] then [] else Section(heads[0], bodies[0]) + Lay(heads[1..], bodies[1..])
  }

  /** The lists behind the keywords, each up to the next stop word; None if something else is found. */
  function ReadClauses(ws: seq<string>, heads: seq<seq<string>>, stops: set<string>): (r: Option<seq<seq<string>>>)
    ensures r.Some? ==> |r.value| == |heads|
    decreases |heads|
  {
    if heads == [] then (if ws == [] then Some([]) else None)
    else if heads[0] <= ws then
      var rest := ws[|heads[0]|..];
      var n := Run(rest, stops);
      match ReadClauses(rest[n..], heads[1..], stops)
      case None => None
      case Some(bodies) => Some([rest[..n]] + bodies)
    else
      match ReadClauses(ws, heads[1..], stops) case None => None case Some(bodies) => Some([[]] + bodies)
  }

  /** Every clause starts with a stop word of its own. */
  predicate GoodHeads(heads: seq<seq<string>>, stops: set<string>) {
    && (forall i :: 0 <= i < |heads| ==> heads[i] != [] && heads[i][0] in stops)
    && (forall i, j :: 0 <= i < j < |heads| ==> heads[i][0] != heads[j][0])
  }

  lemma {:induction false} LayStarts(heads: seq<seq<string>>, bodies: seq<seq<string>>, stops: set<string>)
    requires |heads| == |bodies| && GoodHeads(heads, stops)
    ensures var ws := Lay(heads, bodies);
            ws == [] || (ws[0] in stops && exists i :: 0 <= i < |heads| && ws[0] == heads[i][0])
  {
    if heads != [] && bodies[0] == [] {
      assert forall i :: 0 <= i < |heads[1..]| ==> heads[1..][i] == heads[i + 1];
      LayStarts(heads[1..], bodies[1..], stops);
      assert Lay(heads, bodies) == Lay(heads[1..], bodies[1..]);
    }
  }

  /** Reading one clause that is there, and one that is not. */
  lemma ReadOneClause(head: seq<string>, body: seq<string>, later: seq<string>, heads: seq<seq<string>>,
                      stops: set<string>)
    requires heads != [] && heads[0] == head && head != [] && Free(body, stops) && (later == [] || later[0] in stops)
    ensures ReadClauses(head + (body + later), heads, stops)
            == match ReadClauses(later, heads[1..], stops) case None => None case Some(bodies) => Some([body] + bodies)
  {
    var rest := body + later;
    assert (head + rest)[|head|..] == rest && head <= head + rest;
    RunStops(body, later, stops);
    assert rest[..|body|] == body && rest[|body|..] == later;
  }

  lemma SkipOneClause(later: seq<string>, heads: seq<seq<string>>, stops: set<string>)
    requires heads != [] && heads[0] != [] && (later == [] || later[0] != heads[0][0])
    ensures ReadClauses(later, heads, stops)
            == match ReadClauses(later, heads[1..], stops) case None => None case Some(bodies) => Some([[]] + bodies)
  {
  }

  /** What was laid out is read back, list by list. */
  lemma {:induction false} ClausesReadBack(heads: seq<seq<string>>, bodies: seq<seq<string>>, stops: set<string>)
    requires |heads| == |bodies| && GoodHeads(heads, stops)
    requires forall i :: 0 <= i < |bodies| ==> Free(bodies[i], stops)
    ensures ReadClauses(Lay(heads, bodies), heads, stops) == Some(bodies)
    decreases |heads|
  {
    if heads != [] {
      var later := Lay(heads[1..], bodies[1..]);
      assert forall i :: 0 <= i < |heads[1..]| ==> heads[1..][i] == heads[i + 1];
      assert forall i :: 0 <= i < |bodies[1..]| ==> bodies[1..][i] == bodies[i + 1];
      ClausesReadBack(heads[1..], bodies[1..], stops);
      LayStarts(heads[1..], bodies[1..], stops);
      assert bodies == [bodies[0]] + bodies[1..];
      if bodies[0] == [] {
        assert Lay(heads, bodies) == later;
        SkipOneClause(later, heads, stops);
      } else {
        ReadOneClause(heads[0], bodies[0], later, heads, stops);
        Regrouped(heads[0], bodies[0], later);
      }
    }
  }
}
