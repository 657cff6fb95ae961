/** schema/traits.go and schema/util.go: the columns of a Go type with embedded structs, and finding them again. */
module TypeWalk {
  import opened Wrappers

  // ------------------------------------------------------------------------ util.go

  /** Unicode's view of a character: upper case, its lower case, and whether it is a lower-case letter or a digit. */
  datatype Cases = Cases(upper: char -> bool, low: char -> char, wordy: char -> bool)

  /** What one character contributes. */
  function SnakeChar(u: Cases, r: char, first: bool, prevLower: bool): string {
    if u.upper(r) then (if !first && prevLower then "_" else "") + [u.low(r)]
    else if r == '-' || r == ' ' then "_"
    else [r]
  }

  predicate EndsLower(u: Cases, r: char) {
    !u.upper(r) && r != '-' && r != ' ' && u.wordy(r)
  }

  /** ToSnakeCase from some position on; `first` tells whether that is the start of the string. */
  function SnakeFrom(u: Cases, s: string, first: bool, prevLower: bool): string {
    if s == "" then "" else SnakeChar(u, s[0], first, prevLower) + SnakeFrom(u, s[1..], false, EndsLower(u, s[0]))
  }

  function Snake(u: Cases, s: string): string {
    SnakeFrom(u, s, true, false)
  }

  lemma SnakeNext(u: Cases, s: string, i: nat, prevLower: bool, out: string)
    requires i < |s|
    ensures out + SnakeFrom(u, s[i..], i == 0, prevLower)
            == (out + SnakeChar(u, s[i], i == 0, prevLower)) + SnakeFrom(u, s[i + 1..], false, EndsLower(u, s[i]))
  {
    assert s[i..][0] == s[i] && s[i..][1..] == s[i + 1..];
  }

  /** The loop's body. */
  method SnakeRound(u: Cases, r: char, i: nat, prevLower: bool) returns (piece: string, nowLower: bool)
    ensures piece == SnakeChar(u, r, i == 0, prevLower) && nowLower == EndsLower(u, r)
  {
    piece := "";
    if u.upper(r) {
      if i > 0 && prevLower { piece := "_"; }
      return piece + [u.low(r)], false;
    }
    if r == '-' || r == ' ' { return "_", false; }
    return [r], u.wordy(r);
  }

  method ToSnakeCase(u: Cases, in_: string) returns (out: string)
    ensures out == Snake(u, in_)
  {
    if in_ == "" { return ""; }
    out := "";
    var prevLower := false;
    for i := 0 to |in_|
      invariant out + SnakeFrom(u, in_[i..], i == 0, prevLower) == Snake(u, in_)
    {
      SnakeNext(u, in_, i, prevLower, out);
      var piece, nowLower := SnakeRound(u, in_[i], i, prevLower);
      out, prevLower := out + piece, nowLower;
    }
    assert in_[|in_|..] == "";
  }

  /** A text without its underscores. */
  function Squeezed(s: string): string {
    if s == "" then "" else (if s[0] == '_' then "" else [s[0]]) + Squeezed(s[1..])
  }

  lemma {:induction false} SqueezedAppend(a: string, b: string)
    ensures Squeezed(a + b) == Squeezed(a) + Squeezed(b)
  {
    if a == "" {
      assert a + b == b;
    } else {
      assert (a + b)[1..] == a[1..] + b;
      SqueezedAppend(a[1..], b);
    }
  }

  /** Letters that are neither separators nor become underscores. */
  predicate Lettered(u: Cases, s: string) {
    forall c :: c in s ==> c != '_' && c != '-' && c != ' ' && (u.upper(c) ==> u.low(c) != '_')
  }

  /** On such names nothing is lost: underscores are inserted, capitals become small, and that is all. */
  lemma {:induction false} SnakeKeepsLetters(u: Cases, s: string, first: bool, prevLower: bool)
    requires Lettered(u, s)
    ensures var r := Squeezed(SnakeFrom(u, s, first, prevLower));
            |r| == |s| && forall i :: 0 <= i < |s| ==> r[i] == if u.upper(s[i]) then u.low(s[i]) else s[i]
    decreases |s|
  {
    if s != "" {
      var piece, rest := SnakeChar(u, s[0], first, prevLower), s[1..];
      assert s[0] in s && forall c :: c in rest ==> c in s;
      SnakeKeepsLetters(u, rest, false, EndsLower(u, s[0]));
      SqueezedAppend(piece, SnakeFrom(u, rest, false, EndsLower(u, s[0])));
      SqueezedPiece(u, s[0], first, prevLower);
    }
  }

  lemma SqueezedPiece(u: Cases, c: char, first: bool, prevLower: bool)
    requires c != '_' && c != '-' && c != ' ' && (u.upper(c) ==> u.low(c) != '_')
    ensures Squeezed(SnakeChar(u, c, first, prevLower)) == [if u.upper(c) then u.low(c) else c]
  {
    var x := [if u.upper(c) then u.low(c) else c];
    assert Squeezed(x) == x by { assert x[1..] == ""; }
    assert ("_" + x)[1..] == x;
  }

  /** What the Unicode tables say about the character the loop inserts. */
  predicate Tables(u: Cases) {
    !u.upper('_') && !u.wordy('_')
  }

  /** A capital letter whose lower case counts as a lower-case letter or a digit. */
  predicate LowersToWord(u: Cases, r: char) {
    u.upper(r) && EndsLower(u, u.low(r))
  }

  /**
   * What a second pass may find at position i: a lower case that the loop leaves alone or, for a capital without one,
   * itself, unless it stands right behind a capital that has turned into a lower-case letter.
   */
  predicate SettledAt(u: Cases, s: string, i: nat)
    requires i < |s|
  {
    var l := u.low(s[i]);
    u.upper(s[i]) ==> if u.upper(l) then u.low(l) == l && !(i > 0 && LowersToWord(u, s[i - 1]))
        else l != '-' && l != ' '
  }

  predicate Settled(u: Cases, s: string) {
    forall i :: 0 <= i < |s| ==> SettledAt(u, s, i)
  }

  /**
   * Settled, from some position on; `behind` tells whether a capital that lowers to a word character is right before
   * it.
   */
  predicate SettledFrom(u: Cases, s: string, behind: bool) {
    s == "" ||
    var l := u.low(s[0]);
    && (u.upper(s[0]) ==> if u.upper(l) then u.low(l) == l && !behind else l != '-' && l != ' ')
    && SettledFrom(u, s[1..], LowersToWord(u, s[0]))
  }

  lemma {:induction false} SettledFromIff(u: Cases, s: string, k: nat)
    requires k <= |s|
    ensures SettledFrom(u, s[k..], k > 0 && LowersToWord(u, s[k - 1]))
            <==> forall i :: k <= i < |s| ==> SettledAt(u, s, i)
    decreases |s| - k
  {
    if k < |s| {
      assert s[k..][0] == s[k] && s[k..][1..] == s[k + 1..];
      SettledFromIff(u, s, k + 1);
      assert SettledFrom(u, s[k..], k > 0 && LowersToWord(u, s[k - 1]))
          <==> SettledAt(u, s, k) && SettledFrom(u, s[k + 1..], LowersToWord(u, s[k]));
    }
  }

  lemma {:induction false} SnakeGrows(u: Cases, t: string, first: bool, prevLower: bool)
    ensures |SnakeFrom(u, t, first, prevLower)| >= |t|
  {
    if t != "" { SnakeGrows(u, t[1..], false, EndsLower(u, t[0])); }
  }

  /** A text is left alone exactly if each of its characters is. */
  lemma LeftAlone(u: Cases, t: string, first: bool, prevLower: bool)
    requires t != ""
    ensures SnakeFrom(u, t, first, prevLower) == t
       <==> SnakeChar(u, t[0], first, prevLower) == [t[0]] && SnakeFrom(u, t[1..], false, EndsLower(u, t[0])) == t[1..]
  {
    var rest := SnakeFrom(u, t[1..], false, EndsLower(u, t[0]));
    SnakeGrows(u, t[1..], false, EndsLower(u, t[0]));
    assert t == [t[0]] + t[1..];
    if SnakeFrom(u, t, first, prevLower) == t {
      var piece := SnakeChar(u, t[0], first, prevLower);
      assert |piece| == 1 && (piece + rest)[0] == piece[0] && (piece + rest)[1..] == rest;
    }
  }

  /**
   * The second pass over what the first makes of s, seen from a position behind a capital, a lower-case letter or
   * neither.
   */
  lemma {:induction false} SecondPassIff(u: Cases, s: string, first: bool, prevLower: bool, behind: bool)
    requires Tables(u) && !(prevLower && behind) && (first ==> !prevLower && !behind)
    ensures var t := SnakeFrom(u, s, first, prevLower);
            SnakeFrom(u, t, first, prevLower || behind) == t <==> SettledFrom(u, s, behind)
  {
    if s != "" {
      var piece := SnakeChar(u, s[0], first, prevLower);
      var rest := SnakeFrom(u, s[1..], false, EndsLower(u, s[0]));
      SecondPassIff(u, s[1..], false, EndsLower(u, s[0]), LowersToWord(u, s[0]));
      var t := piece + rest;
      LeftAlone(u, t, first, prevLower || behind);
      if |piece| == 2 {
        assert t[1..] == [u.low(s[0])] + rest && t[1..][1..] == rest;
        LeftAlone(u, t[1..], false, false);
      } else {
        assert t[1..] == rest;
      }
    }
  }

  /** ToSnakeCase is idempotent on a name exactly if every position of it is settled. */
  lemma SnakeIdempotentIff(u: Cases, s: string)
    requires Tables(u)
    ensures Snake(u, Snake(u, s)) == Snake(u, s) <==> Settled(u, s)
  {
    SecondPassIff(u, s, true, false, false);
    SettledFromIff(u, s, 0);
    assert s[0..] == s;
  }

  /** The ASCII part of Go's unicode tables. */
  function Ascii(): Cases {
    Cases(c => 'A' <= c <= 'Z', c => if 'A' <= c <= 'Z' then (c as int + 32) as char else c,
        c => 'a' <= c <= 'z' || '0' <= c <= '9')
  }

  /** On ASCII names ToSnakeCase is idempotent. */
  lemma AsciiSnakeIdempotent(s: string)
    ensures Snake(Ascii(), Snake(Ascii(), s)) == Snake(Ascii(), s)
  {
    SnakeIdempotentIff(Ascii(), s);
  }

  /**
   * A name not settled: a capital that is its own lower case, like the mathematical capitals, behind an ordinary one.
   */
  lemma UnpairedCapitalNotIdempotent(u: Cases, a: char, m: char)
    requires LowersToWord(u, a) && u.upper(m) && u.low(m) == m
    ensures Snake(u, [a, m]) == [u.low(a), m] && Snake(u, [u.low(a), m]) == [u.low(a), '_', m]
  {
    assert [a, m][1..] == [m] && [u.low(a), m][1..] == [m] && [m][1..] == "";
    assert SnakeFrom(u, [m], false, false) == [m] + "" && SnakeFrom(u, [m], false, true) == ['_', m] + "";
  }

  // ---------------------------------------------------------------------- traits.go

  /** A struct field; its type is named without pointers. */
  datatype Field = Field(name: string, exported: bool, anonymous: bool, typ: string)
  datatype Shape = Struct(fields: seq<Field>, primitive: bool) | Other
  type Types = map<string, Shape>

  /** A discovered field: its Go name and its index path. */
  datatype Leaf = Leaf(name: string, path: seq<nat>)

  predicate IsStruct(types: Types, t: string) {
    t in types && types[t].Struct?
  }

  predicate Embeds(types: Types, f: Field) {
    f.anonymous && IsStruct(types, f.typ) && !types[f.typ].primitive
  }

  /** The fields collectTypeMetadata records below t, in order; `seen` holds the types above it. */
  function Walk(types: Types, t: string, prefix: seq<nat>, seen: set<string>): seq<Leaf>
    decreases types.Keys - seen, 0, 0
  {
    if !IsStruct(types, t) || t in seen then [] else WalkFields(types, t, 0, prefix, seen + {t})
  }

  function WalkFields(types: Types, t: string, i: nat, prefix: seq<nat>, seen: set<string>): seq<Leaf>
    requires IsStruct(types, t) && i <= |types[t].fields|
    decreases types.Keys - seen, 1, |types[t].fields| - i
  {
    if i == |types[t].fields| then []
    else FieldLeaves(types, types[t].fields[i], prefix + [i], seen) + WalkFields(types, t, i + 1, prefix, seen)
  }

  function FieldLeaves(types: Types, f: Field, path: seq<nat>, seen: set<string>): seq<Leaf>
    decreases types.Keys - seen, 0, 1
  {
    if !f.exported then []
    else if Embeds(types, f) then Walk(types, f.typ, path, seen)
    else if f.name == "" then []
    else [Leaf(f.name, path)]
  }

  /** strings.ToLower(ToSnakeCase(name)). */
  function Key(u: Cases, name: string): string {
    Lower(u, Snake(u, name))
  }

  function Lower(u: Cases, s: string): string {
    seq(|s|, i requires 0 <= i < |s| => u.low(s[i]))
  }

  /** Paths recorded one after the other, later ones replacing earlier ones of the same key. */
  function Record(u: Cases, paths: map<string, seq<nat>>, leaves: seq<Leaf>): map<string, seq<nat>>
    decreases |leaves|
  {
    if leaves == [] then paths else Record(u, paths[Key(u, leaves[0].name) := leaves[0].path], leaves[1..])
  }

  lemma {:induction false} RecordAppend(u: Cases, paths: map<string, seq<nat>>, a: seq<Leaf>, b: seq<Leaf>)
    ensures Record(u, paths, a + b) == Record(u, Record(u, paths, a), b)
    decreases |a|
  {
    if a == [] {
      assert a + b == b;
    } else {
      assert (a + b)[1..] == a[1..] + b;
      RecordAppend(u, paths[Key(u, a[0].name) := a[0].path], a[1..], b);
    }
  }

  /** Column names of the leaves. */
  function Names(u: Cases, leaves: seq<Leaf>): (names: seq<string>)
    ensures |names| == |leaves|
  {
    seq(|leaves|, i requires 0 <= i < |leaves| => Snake(u, leaves[i].name))
  }

  lemma NamesAppend(u: Cases, columns: seq<string>, a: seq<Leaf>, b: seq<Leaf>)
    ensures columns + Names(u, a + b) == (columns + Names(u, a)) + Names(u, b)
  {
  }

  class Walker {
    const types: Types
    const u: Cases
    var seen: set<string>
    var columns: seq<string>
    var fieldPaths: map<string, seq<nat>>

    constructor (types: Types, u: Cases)
      ensures this.types == types && this.u == u && seen == {} && columns == [] && fieldPaths == map[]
    {
      this.types, this.u, seen, columns, fieldPaths := types, u, {}, [], map[];
    }

    /** collectTypeMetadata: `seen` is what it was when the call returns. */
    method Collect(t: string, indexPath: seq<nat>)
      modifies this
      ensures seen == old(seen)
      ensures columns == old(columns) + Names(u, Walk(types, t, indexPath, old(seen)))
      ensures fieldPaths == Record(u, old(fieldPaths), Walk(types, t, indexPath, old(seen)))
      decreases types.Keys - seen, 0
    {
      if !IsStruct(types, t) { return; }
      if t in seen { return; }
      seen := seen + {t};
      CollectFields(t, indexPath);
      seen := seen - {t};
    }

    method CollectFields(t: string, indexPath: seq<nat>)
      requires IsStruct(types, t)
      modifies this
      ensures seen == old(seen)
      ensures columns == old(columns) + Names(u, WalkFields(types, t, 0, indexPath, old(seen)))
      ensures fieldPaths == Record(u, old(fieldPaths), WalkFields(types, t, 0, indexPath, old(seen)))
      decreases types.Keys - seen, 2
    {
      var fields := types[t].fields;
      for i := 0 to |fields|
        invariant seen == old(seen)
        invariant columns + Names(u, WalkFields(types, t, i, indexPath, seen))
          == old(columns) + Names(u, WalkFields(types, t, 0, indexPath, seen))
        invariant Record(u, fieldPaths, WalkFields(types, t, i, indexPath, seen))
          == Record(u, old(fieldPaths), WalkFields(types, t, 0, indexPath, seen))
      {
        ghost var here, rest := FieldLeaves(types, fields[i], indexPath + [i], seen),
            WalkFields(types, t, i + 1, indexPath, seen);
        assert WalkFields(types, t, i, indexPath, seen) == here + rest;
        RecordAppend(u, fieldPaths, here, rest);
        NamesAppend(u, columns, here, rest);
        CollectField(fields[i], indexPath + [i]);
      }
    }

    /** The body of the loop over the fields. */
    method CollectField(field: Field, nextPath: seq<nat>)
      modifies this
      ensures seen == old(seen)
      ensures columns == old(columns) + Names(u, FieldLeaves(types, field, nextPath, old(seen)))
      ensures fieldPaths == Record(u, old(fieldPaths), FieldLeaves(types, field, nextPath, old(seen)))
      decreases types.Keys - seen, 1
    {
      if !field.exported { return; }
      if Embeds(types, field) {
        Collect(field.typ, nextPath);
        return;
      }
      if field.name == "" { return; }
      columns := columns + [Snake(u, field.name)];
      fieldPaths := fieldPaths[Key(u, field.name) := nextPath];
    }
  }

  // ------------------------------------------------------------ what the walk finds


  /** reflect's FieldByIndex on types. */
  function FieldAt(types: Types, t: string, q: seq<nat>): Option<Field>
    decreases |q|
  {
    if q == [] || !IsStruct(types, t) || q[0] >= |types[t].fields| then None
    else if |q| == 1 then Some(types[t].fields[q[0]])
    else FieldAt(types, types[t].fields[q[0]].typ, q[1..])
  }

  /**
   * q runs through exported anonymous fields of struct types that are not primitive, none of them twice or in `seen`,
   * and ends at an exported named field that is not one.
   */
  predicate SimplePath(types: Types, t: string, q: seq<nat>, seen: set<string>)
    decreases |q|
  {
    && t in types && types[t].Struct? && t !in seen && q != [] && q[0] < |types[t].fields|
    && var f := types[t].fields[q[0]];
       var embedded := f.anonymous && f.typ in types && types[f.typ].Struct? && !types[f.typ].primitive;
       f.exported && if |q| == 1 then !embedded && f.name != ""
           else embedded && SimplePath(types, f.typ, q[1..], seen + {t})
  }

  lemma {:induction false} WalkExtends(types: Types, t: string, prefix: seq<nat>, seen: set<string>)
    ensures forall l :: l in Walk(types, t, prefix, seen) ==> prefix < l.path
    decreases types.Keys - seen, 0, 0
  {
    if IsStruct(types, t) && t !in seen { FieldsExtend(types, t, 0, prefix, seen + {t}); }
  }

  lemma {:induction false} FieldsExtend(types: Types, t: string, i: nat, prefix: seq<nat>, seen: set<string>)
    requires IsStruct(types, t) && i <= |types[t].fields|
    ensures forall l :: l in WalkFields(types, t, i, prefix, seen) ==> prefix < l.path && l.path[|prefix|] >= i
    decreases types.Keys - seen, 1, |types[t].fields| - i
  {
    if i < |types[t].fields| {
      LeavesExtend(types, types[t].fields[i], prefix + [i], seen);
      FieldsExtend(types, t, i + 1, prefix, seen);
      forall l | l in FieldLeaves(types, types[t].fields[i], prefix + [i], seen)
        ensures prefix < l.path && l.path[|prefix|] == i
      {
        assert l.path[..|prefix| + 1] == prefix + [i];
        assert l.path[|prefix|] == l.path[..|prefix| + 1][|prefix|];
        assert l.path[..|prefix|] == l.path[..|prefix| + 1][..|prefix|];
      }
    }
  }

  lemma {:induction false} LeavesExtend(types: Types, f: Field, path: seq<nat>, seen: set<string>)
    ensures forall l :: l in FieldLeaves(types, f, path, seen) ==> path <= l.path
    decreases types.Keys - seen, 0, 1
  {
    if f.exported && Embeds(types, f) { WalkExtends(types, f.typ, path, seen); }
  }

  /** Only field q[0] can contribute the path prefix + q. */
  lemma {:induction false} LeafOfField(types: Types, t: string, i: nat, prefix: seq<nat>, seen: set<string>, l: Leaf,
                                       j: nat)
    requires IsStruct(types, t) && i <= j < |types[t].fields| && prefix < l.path && l.path[|prefix|] == j
    ensures l in WalkFields(types, t, i, prefix, seen)
            <==> l in FieldLeaves(types, types[t].fields[j], prefix + [j], seen)
    decreases |types[t].fields| - i
  {
    if i < j {
      FieldLeafStarts(types, types[t].fields[i], prefix, i, seen, l);
      LeafOfField(types, t, i + 1, prefix, seen, l, j);
    } else {
      FieldsExtend(types, t, i + 1, prefix, seen);
    }
  }

  lemma FieldLeafStarts(types: Types, f: Field, prefix: seq<nat>, i: nat, seen: set<string>, l: Leaf)
    ensures l in FieldLeaves(types, f, prefix + [i], seen) ==> prefix < l.path && l.path[|prefix|] == i
  {
    LeavesExtend(types, f, prefix + [i], seen);
    if l in FieldLeaves(types, f, prefix + [i], seen) {
      assert l.path[..|prefix| + 1] == prefix + [i];
      assert l.path[|prefix|] == l.path[..|prefix| + 1][|prefix|];
      assert l.path[..|prefix|] == l.path[..|prefix| + 1][..|prefix|];
    }
  }

  /** The walk records exactly the fields at simple paths. */
  lemma {:induction false} WalkIffSimple(types: Types, t: string, prefix: seq<nat>, seen: set<string>, q: seq<nat>,
                                         name: string)
    ensures Leaf(name, prefix + q) in Walk(types, t, prefix, seen)
            <==> SimplePath(types, t, q, seen) && FieldAt(types, t, q).Some? && FieldAt(types, t, q).value.name == name
    decreases types.Keys - seen
  {
    var l := Leaf(name, prefix + q);
    if IsStruct(types, t) && t !in seen {
      FieldsExtend(types, t, 0, prefix, seen + {t});
      if q == [] || q[0] >= |types[t].fields| {
        BeyondFields(types, t, 0, prefix, seen + {t}, l);
      } else {
        LeafOfField(types, t, 0, prefix, seen + {t}, l, q[0]);
        FieldIffSimple(types, t, prefix, seen, q, name);
      }
    }
  }

  lemma {:induction false} BeyondFields(types: Types, t: string, i: nat, prefix: seq<nat>, seen: set<string>, l: Leaf)
    requires IsStruct(types, t) && i <= |types[t].fields| &&
             (l.path == prefix || (prefix < l.path && l.path[|prefix|] >= |types[t].fields|))
    ensures l !in WalkFields(types, t, i, prefix, seen)
    decreases |types[t].fields| - i
  {
    if i < |types[t].fields| {
      FieldLeafStarts(types, types[t].fields[i], prefix, i, seen, l);
      BeyondFields(types, t, i + 1, prefix, seen, l);
    }
  }

  lemma {:induction false} FieldIffSimple(types: Types, t: string, prefix: seq<nat>, seen: set<string>, q: seq<nat>,
                                          name: string)
    requires IsStruct(types, t) && t !in seen && q != [] && q[0] < |types[t].fields|
    ensures Leaf(name, prefix + q) in FieldLeaves(types, types[t].fields[q[0]], prefix + [q[0]], seen + {t})
            <==> SimplePath(types, t, q, seen) && FieldAt(types, t, q).Some? && FieldAt(types, t, q).value.name == name
    decreases types.Keys - seen, 0
  {
    var f := types[t].fields[q[0]];
    assert prefix + q == (prefix + [q[0]]) + q[1..];
    if f.exported && Embeds(types, f) {
      WalkIffSimple(types, f.typ, prefix + [q[0]], seen + {t}, q[1..], name);
    } else if f.exported && |q| > 1 {
      assert |prefix + q| != |prefix + [q[0]]|;
    } else if |q| == 1 {
      assert q == [q[0]];
    }
  }

  predicate DistinctPaths(leaves: seq<Leaf>) {
    forall a, b :: 0 <= a < b < |leaves| ==> leaves[a].path != leaves[b].path
  }

  /** No field is recorded twice. */
  lemma {:induction false} WalkDistinct(types: Types, t: string, prefix: seq<nat>, seen: set<string>)
    ensures DistinctPaths(Walk(types, t, prefix, seen))
    decreases types.Keys - seen, 0
  {
    if IsStruct(types, t) && t !in seen { FieldsDistinct(types, t, 0, prefix, seen + {t}); }
  }

  lemma {:induction false} FieldsDistinct(types: Types, t: string, i: nat, prefix: seq<nat>, seen: set<string>)
    requires IsStruct(types, t) && i <= |types[t].fields|
    ensures DistinctPaths(WalkFields(types, t, i, prefix, seen))
    decreases types.Keys - seen, 1, |types[t].fields| - i
  {
    if i < |types[t].fields| {
      var f := types[t].fields[i];
      var here, rest := FieldLeaves(types, f, prefix + [i], seen), WalkFields(types, t, i + 1, prefix, seen);
      if f.exported && Embeds(types, f) { WalkDistinct(types, f.typ, prefix + [i], seen); }
      FieldsDistinct(types, t, i + 1, prefix, seen);
      FieldsExtend(types, t, i + 1, prefix, seen);
      forall a, b | 0 <= a < |here| && 0 <= b < |rest| ensures here[a].path != rest[b].path {
        FieldLeafStarts(types, f, prefix, i, seen, here[a]);
      }
      assert forall k :: 0 <= k < |here + rest| ==> (here + rest)[k] == if k < |here| then here[k]
          else rest[k - |here|];
    }
  }

  // --------------------------------------------------------------- what the map holds

  /** The last leaf with the key decides. */
  function LastWith(u: Cases, leaves: seq<Leaf>, k: string): Option<Leaf> {
    if leaves == [] then None
    else
      match LastWith(u, leaves[1..], k)
      case Some(l) => Some(l)
      case None => if Key(u, leaves[0].name) == k then Some(leaves[0]) else None
  }

  lemma {:induction false} RecordedIsLast(u: Cases, paths: map<string, seq<nat>>, leaves: seq<Leaf>, k: string)
    ensures match LastWith(u, leaves, k)
            case Some(l) => k in Record(u, paths, leaves) && Record(u, paths, leaves)[k] == l.path
            case None => (k in Record(u, paths, leaves) <==> k in paths) &&
                         (k in paths ==> Record(u, paths, leaves)[k] == paths[k])
    decreases |leaves|
  {
    if leaves != [] { RecordedIsLast(u, paths[Key(u, leaves[0].name) := leaves[0].path], leaves[1..], k); }
  }

  lemma {:induction false} LastWithIsLeaf(u: Cases, leaves: seq<Leaf>, k: string)
    ensures LastWith(u, leaves, k).Some? ==>
            LastWith(u, leaves, k).value in leaves && Key(u, LastWith(u, leaves, k).value.name) == k
    ensures LastWith(u, leaves, k).None? ==> forall l :: l in leaves ==> Key(u, l.name) != k
  {
    if leaves != [] { LastWithIsLeaf(u, leaves[1..], k); }
  }

  /** discoverTypeMetadata from scratch. */
  function PathsOf(types: Types, u: Cases, t: string): map<string, seq<nat>> {
    Record(u, map[], Walk(types, t, [], {}))
  }

  function ColumnsOf(types: Types, u: Cases, t: string): seq<string> {
    Names(u, Walk(types, t, [], {}))
  }

  /** Every path in the map leads along a simple path to a field with that key. */
  lemma PathsLeadToTheirKey(types: Types, u: Cases, t: string, k: string)
    requires k in PathsOf(types, u, t)
    ensures var q := PathsOf(types, u, t)[k];
            SimplePath(types, t, q, {}) && FieldAt(types, t, q).Some? && Key(u, FieldAt(types, t, q).value.name) == k
  {
    var leaves := Walk(types, t, [], {});
    RecordedIsLast(u, map[], leaves, k);
    LastWithIsLeaf(u, leaves, k);
    var l := LastWith(u, leaves, k).value;
    WalkIffSimple(types, t, [], {}, l.path, l.name);
    assert [] + l.path == l.path && l == Leaf(l.name, l.path);
  }

  /** fieldByColumn: the key is computed from the column name, not from the field name. */
  function FieldByColumn(types: Types, u: Cases, t: string, column: string): Option<seq<nat>> {
    var paths := PathsOf(types, u, t);
    if Key(u, column) in paths then Some(paths[Key(u, column)]) else None
  }

  /**
   * Every discovered column is found again, at a field with the same key, and at its own field if no other shares the
   * key.
   */
  lemma EveryColumnIsFound(types: Types, u: Cases, t: string, i: nat)
    requires i < |Walk(types, t, [], {})| && Tables(u) && Settled(u, Walk(types, t, [], {})[i].name)
    ensures var leaf := Walk(types, t, [], {})[i];
            var found := FieldByColumn(types, u, t, ColumnsOf(types, u, t)[i]);
            && found.Some? && FieldAt(types, t, found.value).Some?
            && Key(u, FieldAt(types, t, found.value).value.name) == Key(u, leaf.name)
            && ((forall l :: l in Walk(types, t, [], {}) && Key(u, l.name) == Key(u, leaf.name) ==> l == leaf) ==>
                found == Some(leaf.path))
  {
    var leaves := Walk(types, t, [], {});
    var leaf := leaves[i];
    var k := Key(u, leaf.name);
    SnakeIdempotentIff(u, leaf.name);
    assert Key(u, ColumnsOf(types, u, t)[i]) == k;
    RecordedIsLast(u, map[], leaves, k);
    LastWithIsLeaf(u, leaves, k);
    assert leaf in leaves;
    PathsLeadToTheirKey(types, u, t, k);
  }

  /** discoverTypeMetadata with its cache. */
  class Discovery {
    const types: Types
    const u: Cases
    var cache: map<string, (seq<string>, map<string, seq<nat>>)>

    ghost predicate Valid() reads this {
      forall t :: t in cache ==> cache[t] == (ColumnsOf(types, u, t), PathsOf(types, u, t))
    }

    constructor (types: Types, u: Cases)
      ensures Valid() && this.types == types && this.u == u
    {
      this.types, this.u, cache := types, u, map[];
    }

    /** None for anything but a struct; otherwise as if there were no cache. */
    method Discover(t: string) returns (meta: Option<(seq<string>, map<string, seq<nat>>)>)
      requires Valid()
      modifies this`cache
      ensures Valid() && meta == if IsStruct(types, t) then Some((ColumnsOf(types, u, t), PathsOf(types, u, t)))
        else None
    {
      if !IsStruct(types, t) { return None; }
      if t in cache { return Some(cache[t]); }
      var walker := new Walker(types, u);
      walker.Collect(t, []);
      assert walker.columns == ColumnsOf(types, u, t);
      cache := cache[t := (walker.columns, walker.fieldPaths)];
      return Some((walker.columns, walker.fieldPaths));
    }
  }
}
