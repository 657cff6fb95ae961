/** seed/seed.go: the seeder registry and the order in which seeders run. */
module SeedOrder {
  import opened Text
  import opened Sorting
  import opened Wrappers

  datatype Seeder = Seeder(name: string, deps: seq<string>)
  type Nodes = map<string, Seeder>

  datatype OrderError = UnknownDependency | CircularDependency

  // ------------------------------------------------------- what an order is

  function Elements(s: seq<string>): set<string> {
    set x | x in s
  }

  predicate Within(deps: seq<string>, s: set<string>) {
    forall d :: d in deps ==> d in s
  }

  predicate KnownDependencies(nodes: Nodes) {
    forall n :: n in nodes ==> Within(nodes[n].deps, nodes.Keys)
  }

  /** Every registered seeder once, each behind all of its dependencies. */
  predicate Topological(nodes: Nodes, order: seq<string>) {
    && Distinct(order) && Elements(order) == nodes.Keys
    && forall i :: 0 <= i < |order| ==> order[i] in nodes && Within(nodes[order[i]].deps, Elements(order[..i]))
  }

  /** On the walk p, entry i is a dependency of entry i + 1. */
  predicate Linked(nodes: Nodes, p: seq<string>, i: nat)
    requires i + 1 < |p|
  {
    p[i + 1] in nodes && p[i] in nodes[p[i + 1]].deps
  }

  /** A closed walk along dependencies. */
  predicate IsCycle(nodes: Nodes, p: seq<string>) {
    |p| >= 2 && p[0] == p[|p| - 1] && forall i :: 0 <= i < |p| - 1 ==> Linked(nodes, p, i)
  }

  /** a comes before b in the dictionary order on lists of names. */
  ghost predicate Precedes(a: seq<string>, b: seq<string>) {
    exists i :: 0 <= i < |a| && i < |b| && a[..i] == b[..i] && Less(a[i], b[i])
  }

  // --------------------------------------------- always take the least ready name

  predicate Ready(nodes: Nodes, done: set<string>, n: string) {
    n in nodes && n !in done && Within(nodes[n].deps, done)
  }

  function ReadySet(nodes: Nodes, done: set<string>): set<string> {
    set n | n in nodes && Ready(nodes, done, n)
  }

  ghost predicate IsLeast(x: string, s: set<string>) {
    x in s && forall y :: y in s ==> LessEq(x, y)
  }

  lemma {:induction false} LeastExists(s: set<string>)
    requires s != {}
    ensures exists x :: IsLeast(x, s)
  {
    var y :| y in s;
    LessIrreflexive(y);
    if s == {y} {
      assert IsLeast(y, s);
    } else {
      LeastExists(s - {y});
      var x :| IsLeast(x, s - {y});
      if Less(y, x) {
        LessAsymmetric(y, x);
        forall z | z in s ensures LessEq(y, z) {
          if z != y { LessEqTransitive(y, x, z); }
        }
        assert IsLeast(y, s);
      } else {
        assert IsLeast(x, s);
      }
    }
  }

  lemma LeastUnique(s: set<string>, x: string, y: string)
    requires IsLeast(x, s) && IsLeast(y, s)
    ensures x == y
  {
    LessTotal(x, y);
  }

  ghost function Least(s: set<string>): (x: string)
    requires s != {}
    ensures IsLeast(x, s)
  {
    LeastExists(s);
    var x :| IsLeast(x, s);
    x
  }

  ghost function Greedy(nodes: Nodes, done: set<string>): seq<string>
    decreases nodes.Keys - done
  {
    var ready := ReadySet(nodes, done);
    if ready == {} then [] else [Least(ready)] + Greedy(nodes, done + {Least(ready)})
  }

  ghost function GreedyOrder(nodes: Nodes): seq<string> {
    Greedy(nodes, {})
  }

  /** s can be run after `done`: every entry is ready when its turn comes. */
  predicate Schedules(nodes: Nodes, done: set<string>, s: seq<string>)
    decreases s
  {
    s == [] || (Ready(nodes, done, s[0]) && Schedules(nodes, done + {s[0]}, s[1..]))
  }

  lemma {:induction false} GreedySchedules(nodes: Nodes, done: set<string>)
    ensures Schedules(nodes, done, Greedy(nodes, done))
    ensures ReadySet(nodes, done + Elements(Greedy(nodes, done))) == {}
    decreases nodes.Keys - done
  {
    var ready := ReadySet(nodes, done);
    if ready == {} {
      assert done + Elements([]) == done;
    } else {
      var x := Least(ready);
      var rest := Greedy(nodes, done + {x});
      GreedySchedules(nodes, done + {x});
      assert ([x] + rest)[1..] == rest;
      assert done + Elements([x] + rest) == done + {x} + Elements(rest);
    }
  }

  /** What a schedule says about each of its entries. */
  lemma {:induction false} ScheduleEntry(nodes: Nodes, done: set<string>, s: seq<string>, i: nat)
    requires Schedules(nodes, done, s) && i < |s|
    ensures Ready(nodes, done + Elements(s[..i]), s[i])
    decreases i
  {
    if i == 0 {
      assert done + Elements(s[..0]) == done;
    } else {
      ScheduleEntry(nodes, done + {s[0]}, s[1..], i - 1);
      assert s[..i] == [s[0]] + s[1..][..i - 1];
      assert done + Elements(s[..i]) == done + {s[0]} + Elements(s[1..][..i - 1]);
    }
  }

  lemma ScheduleDistinct(nodes: Nodes, s: seq<string>)
    requires Schedules(nodes, {}, s)
    ensures Distinct(s) && Elements(s) <= nodes.Keys && |Elements(s)| == |s|
  {
    forall i | 0 <= i < |s| ensures s[i] in nodes && s[i] !in s[..i] {
      ScheduleEntry(nodes, {}, s, i);
    }
    forall i, j | 0 <= i < j < |s| ensures s[i] != s[j] {
      assert s[i] in s[..j];
    }
    DistinctSize(s);
  }

  /** A schedule of everything is a topological order. */
  lemma CompleteScheduleIsTopological(nodes: Nodes, s: seq<string>)
    requires Schedules(nodes, {}, s) && |s| == |nodes|
    ensures Topological(nodes, s)
  {
    ScheduleDistinct(nodes, s);
    SubsetOfSameSize(Elements(s), nodes.Keys);
    forall i | 0 <= i < |s| ensures s[i] in nodes && Within(nodes[s[i]].deps, Elements(s[..i])) {
      ScheduleEntry(nodes, {}, s, i);
      assert {} + Elements(s[..i]) == Elements(s[..i]);
    }
  }

  lemma {:induction false} TopologicalSchedules(nodes: Nodes, order: seq<string>, k: nat)
    requires Topological(nodes, order) && k <= |order|
    ensures Schedules(nodes, Elements(order[..k]), order[k..])
    decreases |order| - k
  {
    if k < |order| {
      TopologicalSchedules(nodes, order, k + 1);
      assert order[k..][1..] == order[k + 1..] && order[k..][0] == order[k];
      assert order[..k + 1] == order[..k] + [order[k]];
      assert Elements(order[..k + 1]) == Elements(order[..k]) + {order[k]};
    }
  }

  lemma {:induction false} DistinctSize(s: seq<string>)
    requires Distinct(s)
    ensures |Elements(s)| == |s|
  {
    if s != [] {
      var n := |s| - 1;
      DistinctSize(s[..n]);
      assert s == s[..n] + [s[n]];
      assert Elements(s) == Elements(s[..n]) + {s[n]};
    }
  }

  lemma SubsetSize<T>(a: set<T>, b: set<T>)
    requires a <= b
    ensures |a| <= |b|
  {
    assert b == a + (b - a);
  }

  lemma SubsetOfSameSize<T>(a: set<T>, b: set<T>)
    requires a <= b && |a| == |b|
    ensures a == b
  {
    assert b == a + (b - a);
    assert |b| == |a| + |b - a|;
  }

  lemma PrecedesCons(x: string, a: seq<string>, b: seq<string>)
    requires Precedes(a, b)
    ensures Precedes([x] + a, [x] + b)
  {
    var i :| 0 <= i < |a| && i < |b| && a[..i] == b[..i] && Less(a[i], b[i]);
    assert ([x] + a)[..i + 1] == [x] + a[..i] && ([x] + b)[..i + 1] == [x] + b[..i];
    assert ([x] + a)[i + 1] == a[i] && ([x] + b)[i + 1] == b[i];
  }

  /** Of two schedules after `done` the greedy one has the smaller name where they first differ. */
  lemma {:induction false} GreedyIsLeastFrom(nodes: Nodes, done: set<string>, order: seq<string>)
    requires Schedules(nodes, done, order) && nodes.Keys <= done + Elements(order)
    ensures Greedy(nodes, done) == order || Precedes(Greedy(nodes, done), order)
    decreases order
  {
    var ready := ReadySet(nodes, done);
    var g := Greedy(nodes, done);
    if order == [] {
      assert ready == {};
    } else {
      var o := order[0];
      assert o in ready;
      var x := Least(ready);
      if x == o {
        assert order == [o] + order[1..];
        assert done + Elements(order) == done + {o} + Elements(order[1..]);
        GreedyIsLeastFrom(nodes, done + {o}, order[1..]);
        var rest := Greedy(nodes, done + {o});
        if rest != order[1..] { PrecedesCons(o, rest, order[1..]); }
      } else {
        LessTotal(x, o);
        assert g[..0] == order[..0] && Less(g[0], order[0]);
      }
    }
  }

  /** The greedy order is the dictionary-least of all topological orders. */
  lemma GreedyIsLeast(nodes: Nodes, order: seq<string>)
    requires Topological(nodes, order)
    ensures GreedyOrder(nodes) == order || Precedes(GreedyOrder(nodes), order)
  {
    TopologicalSchedules(nodes, order, 0);
    assert Elements(order[..0]) == {} && order[0..] == order;
    GreedyIsLeastFrom(nodes, {}, order);
  }

  // ---------------------------------------------------- stuck means cyclic

  lemma Pigeonhole(w: seq<string>, s: set<string>) returns (i: nat, j: nat)
    requires |w| > |s| && Elements(w) <= s
    ensures i < j < |w| && w[i] == w[j]
  {
    if Distinct(w) {
      DistinctSize(w);
      SubsetSize(Elements(w), s);
      assert false;
    } else {
      i, j :| 0 <= i < j < |w| && w[i] == w[j];
    }
  }

  /** m cannot run: one of its dependencies is stuck too. */
  ghost predicate Blocked(nodes: Nodes, stuck: set<string>, m: string) {
    m in nodes && exists d :: d in nodes[m].deps && d in stuck
  }

  /** w[i + 1] is a dependency of w[i]. */
  predicate BackLinked(nodes: Nodes, w: seq<string>, i: nat)
    requires i + 1 < |w|
  {
    w[i] in nodes && w[i + 1] in nodes[w[i]].deps
  }

  /** Walks n steps from a dependent to one of its dependencies without leaving `stuck`. */
  lemma {:induction false} WalkBack(nodes: Nodes, stuck: set<string>, n: nat) returns (w: seq<string>)
    requires stuck != {} && forall m :: m in stuck ==> Blocked(nodes, stuck, m)
    ensures |w| == n + 1 && Elements(w) <= stuck
    ensures forall i :: 0 <= i < n ==> BackLinked(nodes, w, i)
  {
    if n == 0 {
      var m :| m in stuck;
      w := [m];
    } else {
      var v := WalkBack(nodes, stuck, n - 1);
      assert v[n - 1] in Elements(v);
      assert Blocked(nodes, stuck, v[n - 1]);
      var d :| d in nodes[v[n - 1]].deps && d in stuck;
      w := v + [d];
      assert Elements(w) == Elements(v) + {d};
      forall i | 0 <= i < n ensures BackLinked(nodes, w, i) {
        if i < n - 1 { assert BackLinked(nodes, v, i); }
      }
    }
  }

  lemma StuckHasCycle(nodes: Nodes, stuck: set<string>) returns (p: seq<string>)
    requires stuck != {} && forall m :: m in stuck ==> Blocked(nodes, stuck, m)
    ensures IsCycle(nodes, p)
  {
    var w := WalkBack(nodes, stuck, |stuck|);
    var i, j := Pigeonhole(w, stuck);
    p := seq(j - i + 1, t requires 0 <= t <= j - i => w[j - t]);
    forall t | 0 <= t < |p| - 1 ensures Linked(nodes, p, t) {
      assert BackLinked(nodes, w, j - t - 1);
    }
  }

  /** The greedy order covers every seeder exactly when there is no cycle. */
  lemma CompleteIffAcyclic(nodes: Nodes)
    requires KnownDependencies(nodes)
    ensures |GreedyOrder(nodes)| == |nodes| <==> forall p :: !IsCycle(nodes, p)
  {
    var g := GreedyOrder(nodes);
    GreedySchedules(nodes, {});
    ScheduleDistinct(nodes, g);
    if |g| == |nodes| {
      CompleteScheduleIsTopological(nodes, g);
      forall p ensures !IsCycle(nodes, p) { OrderedHasNoCycle(nodes, g, p); }
    } else {
      var stuck := nodes.Keys - Elements(g);
      forall m | m in stuck ensures Blocked(nodes, stuck, m) {
        assert {} + Elements(g) == Elements(g);
        assert m !in ReadySet(nodes, Elements(g));
        assert Within(nodes[m].deps, nodes.Keys);
      }
      if stuck == {} {
        SubsetOfAll(Elements(g), nodes.Keys);
      } else {
        var p := StuckHasCycle(nodes, stuck);
      }
    }
  }

  lemma SubsetOfAll<T>(a: set<T>, b: set<T>)
    requires a <= b && b - a == {}
    ensures a == b
  {
    assert b == a + (b - a);
  }

  /** Along a walk, positions in a topological order only grow. */
  lemma {:induction false} PositionsGrow(nodes: Nodes, order: seq<string>, p: seq<string>, n: nat)
    returns (a: nat, b: nat)
    requires Topological(nodes, order) && 0 < n < |p|
    requires forall i :: 0 <= i < |p| - 1 ==> Linked(nodes, p, i)
    ensures a < b < |order| && order[a] == p[0] && order[b] == p[n]
  {
    assert Linked(nodes, p, n - 1);
    assert p[n] in Elements(order);
    b :| 0 <= b < |order| && order[b] == p[n];
    assert p[n - 1] in Elements(order[..b]);
    var m :| 0 <= m < b && order[m] == p[n - 1];
    if n == 1 {
      a := m;
    } else {
      var c;
      a, c := PositionsGrow(nodes, order, p, n - 1);
    }
  }

  lemma OrderedHasNoCycle(nodes: Nodes, order: seq<string>, p: seq<string>)
    requires Topological(nodes, order)
    ensures !IsCycle(nodes, p)
  {
    if IsCycle(nodes, p) {
      var a, b := PositionsGrow(nodes, order, p, |p| - 1);
    }
  }

  // ------------------------------------------------------------ the algorithm

  /** How often x occurs in s. */
  function Occurrences(s: seq<string>, x: string): nat {
    if s == [] then 0 else Occurrences(s[..|s| - 1], x) + (if s[|s| - 1] == x then 1 else 0)
  }

  lemma {:induction false} OccursIffIn(s: seq<string>, x: string)
    ensures Occurrences(s, x) > 0 <==> x in s
  {
    if s != [] {
      OccursIffIn(s[..|s| - 1], x);
      assert s == s[..|s| - 1] + [s[|s| - 1]];
    }
  }

  lemma OccurrencesSnoc(s: seq<string>, y: string, x: string)
    ensures Occurrences(s + [y], x) == Occurrences(s, x) + (if y == x then 1 else 0)
  {
    assert (s + [y])[..|s|] == s;
  }

  lemma {:induction false} OccurrencesPrefix(s: seq<string>, i: nat, x: string)
    requires i <= |s|
    ensures Occurrences(s[..i], x) <= Occurrences(s, x)
    ensures i < |s| && s[i] == x ==> Occurrences(s[..i], x) < Occurrences(s, x)
    decreases |s|
  {
    if i == |s| {
      assert s[..i] == s;
    } else {
      OccurrencesPrefix(s[..|s| - 1], i, x);
      assert s[..|s| - 1][..i] == s[..i];
    }
  }

  /** How many entries of deps are not in done; duplicates count. */
  function Missing(deps: seq<string>, done: set<string>): nat {
    if deps == [] then 0
    else Missing(deps[..|deps| - 1], done) + (if deps[|deps| - 1] in done then 0 else 1)
  }

  lemma {:induction false} MissingAfter(deps: seq<string>, done: set<string>, x: string)
    requires x !in done
    ensures Missing(deps, done + {x}) == Missing(deps, done) - Occurrences(deps, x)
  {
    if deps != [] { MissingAfter(deps[..|deps| - 1], done, x); }
  }

  lemma {:induction false} MissingZero(deps: seq<string>, done: set<string>)
    ensures Missing(deps, done) == 0 <==> Within(deps, done)
    ensures done == {} ==> Missing(deps, done) == |deps|
  {
    if deps != [] {
      var n := |deps| - 1;
      MissingZero(deps[..n], done);
      assert deps == deps[..n] + [deps[n]];
    }
  }

  function Edges(graph: map<string, seq<string>>, d: string): seq<string> {
    if d in graph then graph[d] else []
  }

  /** How many edges the graph holds from dependency d to dependent n. */
  function EdgeCount(graph: map<string, seq<string>>, d: string, n: string): nat {
    Occurrences(Edges(graph, d), n)
  }

  function DependencyCount(nodes: Nodes, d: string, n: string): nat {
    if n in nodes then Occurrences(nodes[n].deps, d) else 0
  }

  ghost predicate GraphOf(graph: map<string, seq<string>>, nodes: Nodes) {
    forall d, n :: EdgeCount(graph, d, n) == DependencyCount(nodes, d, n)
  }

  predicate IndegreesAfter(indegree: map<string, int>, nodes: Nodes, done: set<string>) {
    indegree.Keys == nodes.Keys && forall n :: n in nodes ==> indegree[n] == Missing(nodes[n].deps, done)
  }

  /** Everything scheduled so far had its dependencies scheduled. */
  predicate Closed(nodes: Nodes, done: set<string>) {
    forall n :: n in done ==> n in nodes && Within(nodes[n].deps, done)
  }

  predicate QueueAfter(queue: seq<string>, nodes: Nodes, done: set<string>) {
    Distinct(queue) && Elements(queue) == ReadySet(nodes, done)
  }

  /** unicode.IsSpace. */
  predicate IsSpace(c: char) {
    || '\t' <= c <= '\r' || c == ' ' || c == '\U{85}' || c == '\U{A0}' || c == '\U{1680}' ||
        '\U{2000}' <= c <= '\U{200A}'
    || c == '\U{2028}' || c == '\U{2029}' || c == '\U{202F}' || c == '\U{205F}' || c == '\U{3000}'
  }

  predicate Blank(name: string) {
    forall c :: c in name ==> IsSpace(c)
  }

  /** strings.TrimSpace, one side after the other. */
  function TrimLeft(s: string): string {
    if s != "" && IsSpace(s[0]) then TrimLeft(s[1..]) else s
  }

  function TrimRight(s: string): string {
    if s != "" && IsSpace(s[|s| - 1]) then TrimRight(s[..|s| - 1]) else s
  }

  /** A name is blank exactly if nothing is left of it when it is trimmed. */
  lemma {:induction false} BlankIffTrimmedAway(s: string)
    ensures Blank(s) <==> TrimRight(TrimLeft(s)) == ""
  {
    if s != "" && IsSpace(s[0]) {
      BlankIffTrimmedAway(s[1..]);
      assert forall c :: c in s <==> c == s[0] || c in s[1..];
    } else if s != "" {
      KeepsFirst(s);
      assert s[0] in s;
    }
  }

  lemma {:induction false} KeepsFirst(s: string)
    requires s != "" && !IsSpace(s[0])
    ensures TrimRight(s) != ""
    decreases |s|
  {
    if IsSpace(s[|s| - 1]) { KeepsFirst(s[..|s| - 1]); }
  }

  predicate Accepted(s: Option<Seeder>) {
    s.Some? && !Blank(s.value.name)
  }

  /** The seeders that registering a list leaves in the registry: the last one under each name. */
  function Registering(nodes: Nodes, seeders: seq<Option<Seeder>>): Nodes {
    if seeders == [] then nodes
    else
      var s := seeders[|seeders| - 1];
      var before := Registering(nodes, seeders[..|seeders| - 1]);
      if Accepted(s) then before[s.value.name := s.value] else before
  }

  class Registry {
    var order: seq<string>
    var seeders: Nodes

    ghost predicate Valid() reads this {
      && Distinct(order) && (forall n :: n in order <==> n in seeders)
      && forall n :: n in seeders ==> seeders[n].name == n
    }

    constructor ()
      ensures Valid() && seeders == map[]
    {
      order, seeders := [], map[];
    }

    method Reset()
      modifies this
      ensures Valid() && order == [] && seeders == map[]
    {
      order, seeders := [], map[];
    }

    method Register(batch: seq<Option<Seeder>>)
      requires Valid()
      modifies this
      ensures Valid() && seeders == Registering(old(seeders), batch)
      ensures old(order) <= order
    {
      for i := 0 to |batch|
        invariant Valid() && seeders == Registering(old(seeders), batch[..i]) && old(order) <= order
      {
        assert batch[..i + 1][..i] == batch[..i];
        if batch[i].None? || Blank(batch[i].value.name) {
          continue;
        }
        var s := batch[i].value;
        if s.name !in seeders {
          order := order + [s.name];
        }
        seeders := seeders[s.name := s];
      }
      assert batch[..|batch|] == batch;
    }

    /** First loop of resolveSeederOrder; the map is walked in an arbitrary order. */
    method CountEdges() returns (indegree: map<string, int>, graph: map<string, seq<string>>, err: bool)
      requires Valid()
      ensures err <==> !KnownDependencies(seeders)
      ensures !err ==> IndegreesAfter(indegree, seeders, {}) && GraphOf(graph, seeders)
    {
      indegree, graph, err := map[], map[], false;
      var todo := seeders.Keys;
      while todo != {}
        invariant todo <= seeders.Keys && indegree.Keys == seeders.Keys - todo
        invariant forall n :: n in indegree ==>
          indegree[n] == |seeders[n].deps| && Within(seeders[n].deps, seeders.Keys)
        invariant forall d, n :: EdgeCount(graph, d, n) == if n in indegree then Occurrences(seeders[n].deps, d) else 0
        decreases todo
      {
        var name :| name in todo;
        todo := todo - {name};
        var count;
        graph, count, err := CountDependencies(seeders.Keys, name, seeders[name].deps, graph);
        if err { return; }
        indegree := indegree[name := count];
      }
      forall n | n in seeders ensures indegree[n] == Missing(seeders[n].deps, {}) { MissingZero(seeders[n].deps, {}); }
    }

    method ResolveSeederOrder() returns (r: Result<seq<Seeder>, OrderError>)
      requires Valid()
      ensures r == Failure(UnknownDependency) <==> !KnownDependencies(seeders)
      ensures r == Failure(CircularDependency) <==> KnownDependencies(seeders) && exists p :: IsCycle(seeders, p)
      ensures r.Success? ==> && Names(r.value) == GreedyOrder(seeders) && Topological(seeders, Names(r.value))
                             && forall i :: 0 <= i < |r.value| ==> r.value[i] == seeders[Names(r.value)[i]]
    {
      CompleteIffAcyclicIfKnown(seeders);
      if |order| == 0 {
        EmptyRegistry(seeders);
        return Success([]);
      }
      var indegree, graph, err := CountEdges();
      if err { return Failure(UnknownDependency); }
      var queue := InitialQueue(order, indegree, seeders);
      queue := SortQueue(queue);
      var ordered := Schedule(seeders, indegree, graph, queue);
      if |ordered| != |seeders| { return Failure(CircularDependency); }
      GreedySchedules(seeders, {});
      CompleteScheduleIsTopological(seeders, Names(ordered));
      r := Success(ordered);
    }
  }

  function Names(s: seq<Seeder>): (r: seq<string>)
    ensures |r| == |s|
  {
    seq(|s|, i requires 0 <= i < |s| => s[i].name)
  }

  lemma EmptyRegistry(nodes: Nodes)
    requires nodes.Keys == {}
    ensures GreedyOrder(nodes) == [] && Topological(nodes, []) && KnownDependencies(nodes)
    ensures forall p :: !IsCycle(nodes, p)
  {
    assert ReadySet(nodes, {}) == {};
    forall p ensures !IsCycle(nodes, p) {
      if |p| >= 2 { assert !Linked(nodes, p, 0); }
    }
  }

  /** The dependencies of one seeder. */
  method CountDependencies(known: set<string>, name: string, deps: seq<string>, graph0: map<string, seq<string>>)
    returns (graph: map<string, seq<string>>, count: int, err: bool)
    ensures err <==> !Within(deps, known)
    ensures !err ==> count == |deps|
    ensures !err ==> forall d, n :: EdgeCount(graph, d, n) == EdgeCount(graph0, d, n) + if n == name then
            Occurrences(deps, d) else 0
  {
    graph, count, err := graph0, 0, false;
    assert deps[..0] == [];
    forall d ensures Occurrences(deps[..0], d) == 0 {}
    for j := 0 to |deps|
      invariant count == j && Within(deps[..j], known)
      invariant forall d, n :: EdgeCount(graph, d, n) == EdgeCount(graph0, d, n) + if n == name then
        Occurrences(deps[..j], d) else 0
    {
      var dep := deps[j];
      if dep !in known { return graph, count, true; }
      assert deps[..j + 1] == deps[..j] + [dep];
      ghost var before := graph;
      graph := graph[dep := Edges(graph, dep) + [name]];
      forall d, n ensures EdgeCount(graph, d, n) == EdgeCount(before, d, n) + if d == dep && n == name then 1 else 0 {
        OccurrencesSnoc(Edges(before, dep), name, n);
      }
      forall d ensures Occurrences(deps[..j + 1], d) == Occurrences(deps[..j], d) + if d == dep then 1 else 0 {
        OccurrencesSnoc(deps[..j], dep, d);
      }
      count := count + 1;
    }
    assert deps[..|deps|] == deps;
  }

  /** The seeders without dependencies, in registration order. */
  method InitialQueue(order: seq<string>, indegree: map<string, int>, ghost nodes: Nodes) returns (queue: seq<string>)
    requires Distinct(order) && (forall n :: n in order <==> n in nodes) && IndegreesAfter(indegree, nodes, {})
    ensures QueueAfter(queue, nodes, {})
  {
    queue := [];
    for i := 0 to |order|
      invariant Distinct(queue) && forall n :: n in queue <==> n in order[..i] && indegree[n] == 0
    {
      assert order[..i + 1] == order[..i] + [order[i]];
      if indegree[order[i]] == 0 {
        assert order[i] !in order[..i];
        queue := queue + [order[i]];
      }
    }
    assert order[..|order|] == order;
    forall n ensures n in queue <==> n in ReadySet(nodes, {}) {
      if n in nodes { MissingZero(nodes[n].deps, {}); }
    }
  }

  /** The main loop: repeatedly the first of the sorted queue. */
  method Schedule(nodes: Nodes, indegree0: map<string, int>, graph: map<string, seq<string>>, queue0: seq<string>)
    returns (ordered: seq<Seeder>)
    requires forall n :: n in nodes ==> nodes[n].name == n
    requires IndegreesAfter(indegree0, nodes, {}) && GraphOf(graph, nodes) && QueueAfter(queue0, nodes, {})
    ensures Names(ordered) == GreedyOrder(nodes)
    ensures forall i :: 0 <= i < |ordered| ==> Names(ordered)[i] in nodes && ordered[i] == nodes[Names(ordered)[i]]
  {
    var queue, indegree := queue0, indegree0;
    ordered := [];
    ghost var done: set<string> := {};
    assert Planned(nodes, ordered, done);
    while |queue| > 0
      invariant QueueAfter(queue, nodes, done) && IndegreesAfter(indegree, nodes, done) && Closed(nodes, done)
      invariant Planned(nodes, ordered, done)
      decreases nodes.Keys - done
    {
      queue := SortQueue(queue);
      var name := queue[0];
      NextInLine(queue, nodes, done);
      PlanStep(nodes, ordered, done, name);
      queue := queue[1..];
      ordered := ordered + [nodes[name]];
      queue, indegree := Relax(nodes, indegree, Edges(graph, name), queue, name, done, graph);
      done := done + {name};
    }
    assert ReadySet(nodes, done) == {};
  }

  /** The output so far is the beginning of the greedy order. */
  ghost predicate Planned(nodes: Nodes, ordered: seq<Seeder>, done: set<string>) {
    && GreedyOrder(nodes) == Names(ordered) + Greedy(nodes, done)
    && forall i :: 0 <= i < |ordered| ==> ordered[i].name in nodes && ordered[i] == nodes[ordered[i].name]
  }

  lemma PlanStep(nodes: Nodes, ordered: seq<Seeder>, done: set<string>, name: string)
    requires Planned(nodes, ordered, done) && name in nodes && nodes[name].name == name
    requires Greedy(nodes, done) == [name] + Greedy(nodes, done + {name})
    ensures Planned(nodes, ordered + [nodes[name]], done + {name})
  {
    NamesSnoc(ordered, nodes[name]);
    assert Names(ordered) + ([name] + Greedy(nodes, done + {name}))
        == Names(ordered) + [name] + Greedy(nodes, done + {name});
  }

  lemma NamesSnoc(s: seq<Seeder>, x: Seeder)
    ensures Names(s + [x]) == Names(s) + [x.name]
  {
  }

  /** The head of the sorted queue is the next name of the greedy order. */
  lemma NextInLine(queue: seq<string>, nodes: Nodes, done: set<string>)
    requires queue != [] && SortedBy(queue, StringOrder()) && QueueAfter(queue, nodes, done)
    ensures Ready(nodes, done, queue[0])
    ensures Greedy(nodes, done) == [queue[0]] + Greedy(nodes, done + {queue[0]})
    ensures Distinct(queue[1..]) && Elements(queue[1..]) == ReadySet(nodes, done) - {queue[0]}
  {
    SortedHeadIsLeast(queue);
    assert queue[0] in Elements(queue);
    LeastUnique(ReadySet(nodes, done), queue[0], Least(ReadySet(nodes, done)));
    assert queue == [queue[0]] + queue[1..];
  }

  lemma CompleteIffAcyclicIfKnown(nodes: Nodes)
    ensures KnownDependencies(nodes) ==> (|GreedyOrder(nodes)| == |nodes| <==> forall p :: !IsCycle(nodes, p))
  {
    if KnownDependencies(nodes) { CompleteIffAcyclic(nodes); }
  }

  /** sort.Strings on the queue. */
  method SortQueue(queue: seq<string>) returns (sorted: seq<string>)
    requires Distinct(queue)
    ensures |sorted| == |queue| && Distinct(sorted) && Elements(sorted) == Elements(queue)
    ensures SortedBy(sorted, StringOrder())
  {
    sorted := SortStrings(queue);
    SortStringsSorts(queue);
    DistinctPermutation(queue, sorted);
  }

  lemma DistinctPermutation(a: seq<string>, b: seq<string>)
    requires Distinct(a) && multiset(a) == multiset(b)
    ensures Distinct(b)
  {
    forall i, j | 0 <= i < j < |b| ensures b[i] != b[j] {
      if b[i] == b[j] {
        assert b == b[..i] + [b[i]] + b[i + 1..j] + [b[j]] + b[j + 1..];
        assert multiset(b)[b[i]] >= 2;
        DistinctCount(a, b[i]);
      }
    }
  }

  lemma {:induction false} DistinctCount(a: seq<string>, x: string)
    requires Distinct(a)
    ensures multiset(a)[x] <= 1
  {
    if a != [] {
      var n := |a| - 1;
      DistinctCount(a[..n], x);
      assert a == a[..n] + [a[n]];
      if a[n] == x { assert x !in a[..n]; }
    }
  }

  lemma SortedHeadIsLeast(queue: seq<string>)
    requires queue != [] && SortedBy(queue, StringOrder())
    ensures IsLeast(queue[0], Elements(queue))
  {
    LessIrreflexive(queue[0]);
    forall y | y in Elements(queue) ensures LessEq(queue[0], y) {
      var i :| 0 <= i < |queue| && queue[i] == y;
      if i > 0 { assert StringOrder()(queue[0], queue[i]); }
    }
  }

  /** What scheduling `name` does to the missing dependencies of n. */
  lemma RelaxedCounts(nodes: Nodes, done: set<string>, name: string, graph: map<string, seq<string>>, n: string)
    requires Ready(nodes, done, name) && GraphOf(graph, nodes) && Closed(nodes, done)
    ensures n !in nodes ==> n !in Edges(graph, name)
    ensures n in nodes ==>
            Missing(nodes[n].deps, done + {name}) == Missing(nodes[n].deps, done) - Occurrences(Edges(graph, name), n)
    ensures n in ReadySet(nodes, done + {name}) <==>
              n in nodes && Missing(nodes[n].deps, done + {name}) == 0 &&
                  (n in Edges(graph, name) || (n in ReadySet(nodes, done) && n != name))
    ensures n in ReadySet(nodes, done) ==> n !in Edges(graph, name)
  {
    assert EdgeCount(graph, name, n) == DependencyCount(nodes, name, n);
    OccursIffIn(Edges(graph, name), n);
    if n in nodes {
      MissingAfter(nodes[n].deps, done, name);
      MissingZero(nodes[n].deps, done);
      MissingZero(nodes[n].deps, done + {name});
      OccursIffIn(nodes[n].deps, name);
      assert Missing(nodes[n].deps, done + {name}) == 0 && name !in nodes[n].deps ==> Within(nodes[n].deps, done);
    }
  }

  /** The first i dependents of a scheduled seeder have been relaxed. */
  ghost predicate Relaxing(nodes: Nodes, done: set<string>, edges: seq<string>, i: nat, queue0: seq<string>,
                           queue: seq<string>, indegree: map<string, int>)
    requires i <= |edges|
  {
    && Distinct(queue) && indegree.Keys == nodes.Keys
    && (forall n :: n in nodes ==> indegree[n] == Missing(nodes[n].deps, done) - Occurrences(edges[..i], n))
    && (forall n :: n in queue <==> n in queue0 || (n in edges[..i] && n in nodes && indegree[n] == 0))
  }

  /** One more of them: its count drops, and at zero it joins the queue. */
  lemma RelaxNext(nodes: Nodes, done: set<string>, name: string, graph: map<string, seq<string>>, edges: seq<string>,
                  i: nat,
                  queue0: seq<string>, queue: seq<string>, indegree: map<string, int>)
    requires Ready(nodes, done, name) && GraphOf(graph, nodes) && edges == Edges(graph, name) && i < |edges| &&
             Closed(nodes, done)
    requires Elements(queue0) == ReadySet(nodes, done) - {name} &&
             Relaxing(nodes, done, edges, i, queue0, queue, indegree)
    ensures edges[i] in indegree
    ensures var next := edges[i]; var count := indegree[next] - 1;
            Relaxing(nodes, done, edges, i + 1, queue0, if count == 0 then queue + [next] else queue,
                indegree[next := count])
  {
    var next := edges[i];
    RelaxedCounts(nodes, done, name, graph, next);
    OccurrencesPrefix(edges, i, next);
    assert edges[..i + 1] == edges[..i] + [next];
    assert indegree[next] > 0 && next !in Elements(queue0);
    OccurrencesGrow(edges[..i], next);
  }

  lemma OccurrencesGrow(s: seq<string>, x: string)
    ensures forall n :: Occurrences(s + [x], n) == Occurrences(s, n) + if n == x then 1 else 0
  {
    forall n
      ensures Occurrences(s + [x], n) == Occurrences(s, n) + if n == x then 1 else 0
    {
      OccurrencesSnoc(s, x, n);
    }
  }

  /** All of them: the queue and the counts are those of the larger done set. */
  lemma Relaxed(nodes: Nodes, done: set<string>, name: string, graph: map<string, seq<string>>, edges: seq<string>,
                queue0: seq<string>, queue: seq<string>, indegree: map<string, int>)
    requires Ready(nodes, done, name) && GraphOf(graph, nodes) && edges == Edges(graph, name) && Closed(nodes, done)
    requires Distinct(queue0) && Elements(queue0) == ReadySet(nodes, done) - {name}
    requires Relaxing(nodes, done, edges, |edges|, queue0, queue, indegree)
    ensures QueueAfter(queue, nodes, done + {name}) && IndegreesAfter(indegree, nodes, done + {name})
  {
    assert edges[..|edges|] == edges;
    forall n ensures n in nodes ==> indegree[n] == Missing(nodes[n].deps, done + {name})
             ensures n in queue <==> n in ReadySet(nodes, done + {name}) {
      RelaxedCounts(nodes, done, name, graph, n);
      assert n in queue0 <==> n in Elements(queue0);
      OccursIffIn(edges, n);
      if n in nodes { MissingZero(nodes[n].deps, done); }
    }
  }

  /** The inner loop: `name` has just been scheduled after `done`. */
  method Relax(nodes: Nodes, indegree0: map<string, int>, edges: seq<string>, queue0: seq<string>, name: string,
               ghost done: set<string>, ghost graph: map<string, seq<string>>)
    returns (queue: seq<string>, indegree: map<string, int>)
    requires Ready(nodes, done, name) && Distinct(queue0) && Elements(queue0) == ReadySet(nodes, done) - {name}
    requires IndegreesAfter(indegree0, nodes, done) && GraphOf(graph, nodes) && edges == Edges(graph, name) &&
             Closed(nodes, done)
    ensures QueueAfter(queue, nodes, done + {name}) && IndegreesAfter(indegree, nodes, done + {name})
  {
    queue, indegree := queue0, indegree0;
    for i := 0 to |edges|
      invariant Relaxing(nodes, done, edges, i, queue0, queue, indegree)
    {
      RelaxNext(nodes, done, name, graph, edges, i, queue0, queue, indegree);
      var next := edges[i];
      indegree := indegree[next := indegree[next] - 1];
      if indegree[next] == 0 {
        queue := queue + [next];
      }
    }
    Relaxed(nodes, done, name, graph, edges, queue0, queue, indegree);
  }
}
