/** The library's stable sort, as insertion from the left, and when its result is independent of the input order. */
module Sorting {
  import opened Text

  ghost predicate TotalPreorder<T(!new)>(le: (T, T) -> bool) {
    && (forall x, y :: le(x, y) || le(y, x))
    && (forall x, y, z :: le(x, y) && le(y, z) ==> le(x, z))
  }

  ghost predicate SortedBy<T>(s: seq<T>, le: (T, T) -> bool) {
    forall i, j :: 0 <= i < j < |s| ==> le(s[i], s[j])
  }

  /** Puts x behind every element it does not strictly precede. */
  function InsertBy<T>(s: seq<T>, x: T, le: (T, T) -> bool): seq<T> {
    if s == [] then [x]
    else if le(s[|s| - 1], x) then s + [x]
    else InsertBy(s[..|s| - 1], x, le) + [s[|s| - 1]]
  }

  /** sort.SliceStable. */
  function StableSort<T>(s: seq<T>, le: (T, T) -> bool): seq<T> {
    if s == [] then [] else InsertBy(StableSort(s[..|s| - 1], le), s[|s| - 1], le)
  }

  lemma WholeAndNothing<T>(s: seq<T>, x: T)
    ensures s[..|s|] + [x] + s[|s|..] == s + [x]
  {
  }

  lemma SplitBeforeLast<T>(s: seq<T>, x: T, k: nat)
    requires k < |s|
    ensures var n := |s| - 1; (s[..n][..k] + [x] + s[..n][k..]) + [s[n]] == s[..k] + [x] + s[k..]
  {
  }

  /** Where InsertBy puts x. */
  lemma {:induction false} InsertPosition<T(!new)>(s: seq<T>, x: T, le: (T, T) -> bool) returns (k: nat)
    ensures k <= |s| && InsertBy(s, x, le) == s[..k] + [x] + s[k..]
    ensures k > 0 ==> le(s[k - 1], x)
    ensures forall i :: k <= i < |s| ==> !le(s[i], x)
  {
    if s == [] || le(s[|s| - 1], x) {
      k := |s|;
      WholeAndNothing(s, x);
    } else {
      var n := |s| - 1;
      k := InsertPosition(s[..n], x, le);
      SplitBeforeLast(s, x, k);
      forall i | k <= i < |s| ensures !le(s[i], x) {
        assert i < n ==> s[..n][i] == s[i];
      }
    }
  }

  lemma InsertSorted<T(!new)>(s: seq<T>, x: T, le: (T, T) -> bool)
    requires TotalPreorder(le) && SortedBy(s, le)
    ensures SortedBy(InsertBy(s, x, le), le)
    ensures multiset(InsertBy(s, x, le)) == multiset(s) + multiset{x}
  {
    var k := InsertPosition(s, x, le);
    var r := s[..k] + [x] + s[k..];
    InsertedMultiset(s, x, k);
    forall i, j | 0 <= i < j < |r| ensures le(r[i], r[j]) {
      InsertedPair(s, x, le, k, i, j);
    }
    assert SortedBy(r, le);
  }

  lemma InsertedMultiset<T>(s: seq<T>, x: T, k: nat)
    requires k <= |s|
    ensures multiset(s[..k] + [x] + s[k..]) == multiset(s) + multiset{x}
  {
    assert s == s[..k] + s[k..];
  }

  lemma InsertedPair<T(!new)>(s: seq<T>, x: T, le: (T, T) -> bool, k: nat, i: nat, j: nat)
    requires TotalPreorder(le) && SortedBy(s, le)
    requires k <= |s| && i < j <= |s|
    requires k > 0 ==> le(s[k - 1], x)
    requires forall m :: k <= m < |s| ==> !le(s[m], x)
    ensures le((s[..k] + [x] + s[k..])[i], (s[..k] + [x] + s[k..])[j])
  {
    if j < k {
    } else if j == k {
      assert i == k - 1 || le(s[i], s[k - 1]);
    } else if i < k {
      assert le(s[i], s[j - 1]);
    } else if i == k {
      assert !le(s[j - 1], x);
    } else {
      assert le(s[i - 1], s[j - 1]);
    }
  }

  lemma WithoutLast<T>(s: seq<T>)
    requires s != []
    ensures multiset(s) == multiset(s[..|s| - 1]) + multiset{s[|s| - 1]}
  {
    assert s == s[..|s| - 1] + [s[|s| - 1]];
  }

  lemma {:induction false} StableSortSorts<T(!new)>(s: seq<T>, le: (T, T) -> bool)
    requires TotalPreorder(le)
    ensures SortedBy(StableSort(s, le), le)
    ensures multiset(StableSort(s, le)) == multiset(s)
  {
    if s != [] {
      var n := |s| - 1;
      StableSortSorts(s[..n], le);
      InsertSorted(StableSort(s[..n], le), s[n], le);
      WithoutLast(s);
    }
  }

  /** Sorting, whatever the order is, keeps the members. */
  lemma {:induction false} SortMembers<T(!new)>(s: seq<T>, le: (T, T) -> bool)
    ensures forall x :: x in StableSort(s, le) <==> x in s
  {
    if s != [] {
      var n := |s| - 1;
      SortMembers(s[..n], le);
      var k := InsertPosition(StableSort(s[..n], le), s[n], le);
      MembersAround(StableSort(s[..n], le), s[n], k);
      assert s == s[..n] + [s[n]];
    }
  }

  lemma MembersAround<T>(s: seq<T>, x: T, k: nat)
    requires k <= |s|
    ensures forall y :: y in s[..k] + [x] + s[k..] <==> y in s || y == x
  {
    assert s == s[..k] + s[k..];
  }

  /** Sorting leaves a sorted list alone. */
  lemma {:induction false} StableSortFixpoint<T(!new)>(s: seq<T>, le: (T, T) -> bool)
    requires SortedBy(s, le)
    ensures StableSort(s, le) == s
  {
    if s != [] {
      var n := |s| - 1;
      StableSortFixpoint(s[..n], le);
      assert s == s[..n] + [s[n]];
      if n > 0 { assert le(s[..n][n - 1], s[n]); }
    }
  }

  lemma WithoutFirst<T>(a: seq<T>)
    requires a != []
    ensures a == [a[0]] + a[1..] && multiset(a[1..]) == multiset(a) - multiset{a[0]}
  {
    assert a == [a[0]] + a[1..];
  }

  /** Two sorted arrangements of the same elements agree when ties are impossible. */
  lemma {:induction false} SortedUnique<T(!new)>(a: seq<T>, b: seq<T>, le: (T, T) -> bool)
    requires SortedBy(a, le) && SortedBy(b, le) && multiset(a) == multiset(b)
    requires forall x, y :: x in a && y in a && le(x, y) && le(y, x) ==> x == y
    ensures a == b
  {
    SameSize(a, b);
    if a != [] {
      SameFirst(a, b, le);
      WithoutFirst(a);
      WithoutFirst(b);
      SortedUnique(a[1..], b[1..], le);
    }
  }

  lemma SameSize<T>(a: seq<T>, b: seq<T>)
    requires multiset(a) == multiset(b)
    ensures |a| == |b|
  {
    assert |a| == |multiset(a)|;
    assert |b| == |multiset(b)|;
  }

  lemma SameFirst<T(!new)>(a: seq<T>, b: seq<T>, le: (T, T) -> bool)
    requires SortedBy(a, le) && SortedBy(b, le) && multiset(a) == multiset(b)
    requires forall x, y :: x in a && y in a && le(x, y) && le(y, x) ==> x == y
    requires a != [] && b != []
    ensures a[0] == b[0]
  {
    assert a[0] in multiset(b) && b[0] in multiset(a);
    var i :| 0 <= i < |b| && b[i] == a[0];
    var j :| 0 <= j < |a| && a[j] == b[0];
    if i > 0 && j > 0 { assert le(b[0], b[i]) && le(a[0], a[j]); }
  }

  /** Strictly ascending lists with the same members are equal. */
  lemma {:induction false} AscendingUnique<T(!new)>(a: seq<T>, b: seq<T>, lt: (T, T) -> bool)
    requires forall i, j :: 0 <= i < j < |a| ==> lt(a[i], a[j])
    requires forall i, j :: 0 <= i < j < |b| ==> lt(b[i], b[j])
    requires forall x, y :: lt(x, y) ==> !lt(y, x)
    requires forall x :: x in a <==> x in b
    ensures a == b
  {
    assert |b| > 0 ==> b[0] in b;
    if a != [] {
      assert a[0] in a;
      AscendingTail(a, b, lt);
      AscendingUnique(a[1..], b[1..], lt);
      assert a == [a[0]] + a[1..] && b == [b[0]] + b[1..];
    }
  }

  lemma HeadBelow<T(!new)>(a: seq<T>, x: T, lt: (T, T) -> bool)
    requires forall i, j :: 0 <= i < j < |a| ==> lt(a[i], a[j])
    requires x in a
    ensures x == a[0] || lt(a[0], x)
  {
    var i :| 0 <= i < |a| && a[i] == x;
  }

  lemma AscendingTail<T(!new)>(a: seq<T>, b: seq<T>, lt: (T, T) -> bool)
    requires a != [] && b != []
    requires forall i, j :: 0 <= i < j < |a| ==> lt(a[i], a[j])
    requires forall i, j :: 0 <= i < j < |b| ==> lt(b[i], b[j])
    requires forall x, y :: lt(x, y) ==> !lt(y, x)
    requires forall x :: x in a <==> x in b
    ensures a[0] == b[0]
    ensures forall x :: x in a[1..] <==> x in b[1..]
  {
    assert a[0] in a && b[0] in b;
    HeadBelow(a, b[0], lt);
    HeadBelow(b, a[0], lt);
    forall x ensures x in a[1..] <==> x in a && x != a[0]
             ensures x in b[1..] <==> x in b && x != b[0] {
      if x in a[1..] {
        var m :| 0 <= m < |a[1..]| && a[1..][m] == x;
        assert lt(a[0], a[m + 1]);
      }
      if x in b[1..] {
        var m :| 0 <= m < |b[1..]| && b[1..][m] == x;
        assert lt(b[0], b[m + 1]);
      }
    }
  }

  /** The order sort.Strings uses. */
  function StringOrder(): (string, string) -> bool {
    (a: string, b: string) => LessEq(a, b)
  }

  lemma StringOrderTotal()
    ensures TotalPreorder(StringOrder())
  {
    var le := StringOrder();
    forall x: string, y: string ensures le(x, y) || le(y, x) {
      if Less(y, x) { LessAsymmetric(y, x); }
    }
    forall x: string, y: string, z: string | le(x, y) && le(y, z) ensures le(x, z) {
      LessEqTransitive(x, y, z);
    }
  }

  lemma LessEqTransitive(x: string, y: string, z: string)
    requires LessEq(x, y) && LessEq(y, z)
    ensures LessEq(x, z)
  {
    if Less(z, x) {
      LessTotal(x, y);
      if x != y {
        LessTransitive(z, x, y);
      }
    }
  }

  /** sortedKeys: the members of a set, ascending. */
  ghost predicate AscendingStrings(s: seq<string>) {
    forall i, j :: 0 <= i < j < |s| ==> Less(s[i], s[j])
  }

  function SortStrings(s: seq<string>): seq<string> {
    StableSort(s, StringOrder())
  }

  lemma SortStringsSorts(s: seq<string>)
    ensures SortedBy(SortStrings(s), StringOrder())
    ensures multiset(SortStrings(s)) == multiset(s) && |SortStrings(s)| == |s|
    ensures forall x :: x in SortStrings(s) <==> x in s
  {
    StringOrderTotal();
    StableSortSorts(s, StringOrder());
    assert |multiset(SortStrings(s))| == |multiset(s)|;
    forall x ensures x in SortStrings(s) <==> x in s {
      assert x in multiset(SortStrings(s)) <==> x in multiset(s);
    }
  }

  /** Sorting strings forgets the order of the input. */
  lemma SortStringsCanonical(a: seq<string>, b: seq<string>)
    ensures multiset(a) == multiset(b) <==> SortStrings(a) == SortStrings(b)
  {
    SortStringsSorts(a);
    SortStringsSorts(b);
    if multiset(a) == multiset(b) {
      var le := StringOrder();
      forall x, y | x in SortStrings(a) && y in SortStrings(a) && le(x, y) && le(y, x) ensures x == y {
        LessTotal(x, y);
      }
      SortedUnique(SortStrings(a), SortStrings(b), le);
    }
  }
}
