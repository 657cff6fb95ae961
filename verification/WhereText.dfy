/** dialect/postgres/postgres.go: what WHERE clauses mean when they are joined by a bare AND. */
module WhereText {

  /** A clause's text as SQL reads it; a comparison, and anything in parentheses, is one condition. */
  datatype Token = Condition(id: nat) | And | Or

  type Clause = seq<Token>

  /** Which conditions are true of a row. */
  type Valuation = nat -> bool

  /** AND binds tighter than OR; `soFar` tells whether the conditions since the last OR are all true. */
  predicate EvalFrom(text: Clause, val: Valuation, soFar: bool) {
    if text == [] then soFar
    else
      match text[0]
      case Condition(c) => EvalFrom(text[1..], val, soFar && val(c))
      case And => EvalFrom(text[1..], val, soFar)
      case Or => soFar || EvalFrom(text[1..], val, true)
  }

  predicate Eval(text: Clause, val: Valuation) {
    EvalFrom(text, val, true)
  }

  /** strings.Join(where, " AND ") */
  function Joined(clauses: seq<Clause>): Clause {
    if clauses == [] then []
    else if |clauses| == 1 then clauses[0]
    else clauses[0] + [And] + Joined(clauses[1..])
  }

  lemma {:induction false} EvalAppend(a: Clause, b: Clause, val: Valuation, soFar: bool)
    requires Or !in a
    ensures EvalFrom(a + b, val, soFar) == EvalFrom(b, val, EvalFrom(a, val, soFar))
  {
    if a == [] {
      assert a + b == b;
    } else {
      assert (a + b)[1..] == a[1..] + b && Or !in a[1..] && a[0] in a;
      EvalAppend(a[1..], b, val, if a[0].Condition? then soFar && val(a[0].id) else soFar);
    }
  }

  /** Without a top-level OR a false start stays false, and a true start does not matter. */
  lemma {:induction false} EvalConjunctive(a: Clause, val: Valuation, soFar: bool)
    requires Or !in a
    ensures EvalFrom(a, val, soFar) <==> soFar && Eval(a, val)
  {
    if a != [] {
      assert Or !in a[1..] && a[0] in a;
      if a[0].Condition? {
        EvalConjunctive(a[1..], val, soFar && val(a[0].id));
        EvalConjunctive(a[1..], val, val(a[0].id));
      } else {
        EvalConjunctive(a[1..], val, soFar);
      }
    }
  }

  predicate NoTopLevelOr(clauses: seq<Clause>) {
    forall i :: 0 <= i < |clauses| ==> Or !in clauses[i]
  }

  lemma {:induction false} JoinedHasNoOr(clauses: seq<Clause>)
    ensures Or in Joined(clauses) <==> !NoTopLevelOr(clauses)
  {
    if |clauses| > 1 {
      JoinedHasNoOr(clauses[1..]);
      assert forall i :: 0 < i < |clauses| ==> clauses[i] == clauses[1..][i - 1];
    }
  }

  /** Clauses without a top-level OR, joined, mean that all of them hold. */
  lemma {:induction false} JoinedMeansAll(clauses: seq<Clause>, val: Valuation)
    requires NoTopLevelOr(clauses)
    ensures Eval(Joined(clauses), val) <==> forall i :: 0 <= i < |clauses| ==> Eval(clauses[i], val)
  {
    if |clauses| > 1 {
      var rest := Joined(clauses[1..]);
      JoinedMeansAll(clauses[1..], val);
      JoinedHasNoOr(clauses[1..]);
      assert forall i :: 0 < i < |clauses| ==> clauses[i] == clauses[1..][i - 1];
      assert ([And] + rest)[1..] == rest && clauses[0] + [And] + rest == clauses[0] + ([And] + rest);
      EvalAppend(clauses[0], [And] + rest, val, true);
      EvalConjunctive(rest, val, Eval(clauses[0], val));
    }
  }

  /** What stands before an OR decides alone. */
  lemma {:induction false} TrueBeforeOr(text: Clause, val: Valuation)
    requires Or in text && forall c :: Condition(c) in text && !val(c) ==>
             text[|text| - 1] == Condition(c) && Condition(c) !in text[..|text| - 1]
    ensures Eval(text, val)
  {
    if text[0] != Or {
      var rest := text[1..];
      assert Or in rest by {
        var i :| 0 <= i < |text| && text[i] == Or;
        assert rest[i - 1] == Or;
      }
      assert text[0] in text[..|text| - 1];
      forall c | Condition(c) in rest && !val(c)
        ensures rest[|rest| - 1] == Condition(c) && Condition(c) !in rest[..|rest| - 1]
      {
        assert Condition(c) in text && rest[..|rest| - 1] == text[..|text| - 1][1..];
      }
      TrueBeforeOr(rest, val);
    }
  }

  lemma {:induction false} JoinedEnds(clauses: seq<Clause>, scope: nat)
    requires forall i :: 0 <= i < |clauses| ==> Condition(scope) !in clauses[i]
    ensures var text := Joined(clauses + [[Condition(scope)]]);
            text != [] && text[|text| - 1] == Condition(scope) && Condition(scope) !in text[..|text| - 1]
  {
    var all := clauses + [[Condition(scope)]];
    if clauses != [] {
      assert all[1..] == clauses[1..] + [[Condition(scope)]] && all[0] == clauses[0];
      assert forall i :: 0 <= i < |clauses[1..]| ==> clauses[1..][i] == clauses[i + 1];
      JoinedEnds(clauses[1..], scope);
      var rest := Joined(all[1..]);
      var text := Joined(all);
      assert text == clauses[0] + [And] + rest;
      assert text[..|text| - 1] == clauses[0] + [And] + rest[..|rest| - 1];
    }
  }

  lemma ScopeRestricts(clauses: seq<Clause>, scope: nat, val: Valuation)
    requires NoTopLevelOr(clauses) && Eval(Joined(clauses + [[Condition(scope)]]), val)
    ensures val(scope)
  {
    var all, last := clauses + [[Condition(scope)]], [Condition(scope)];
    JoinedMeansAll(all, val);
    assert all[|clauses|] == last && last[1..] == [];
    assert Eval(last, val) && last[0] == Condition(scope) && EvalFrom(last[1..], val, true && val(scope)) == val(scope);
  }

  /** A row outside the scope that the statement reaches: everything is true of it but the scope condition. */
  lemma ScopeEscaped(clauses: seq<Clause>, scope: nat, val: Valuation)
    requires !NoTopLevelOr(clauses) && (forall i :: 0 <= i < |clauses| ==> Condition(scope) !in clauses[i])
    requires forall c :: val(c) <==> c != scope
    ensures Eval(Joined(clauses + [[Condition(scope)]]), val)
  {
    var all := clauses + [[Condition(scope)]];
    JoinedEnds(clauses, scope);
    JoinedHasNoOr(all);
    var i :| 0 <= i < |clauses| && Or in clauses[i];
    assert all[i] == clauses[i];
    TrueBeforeOr(Joined(all), val);
  }

  /**
   * A scope condition behind the caller's clauses restricts the statement, whatever rows there are, if and only if no
   * clause has a top-level OR.
   */
  lemma ScopeRestrictsIff(clauses: seq<Clause>, scope: nat)
    requires forall i :: 0 <= i < |clauses| ==> Condition(scope) !in clauses[i]
    ensures (forall val: Valuation :: Eval(Joined(clauses + [[Condition(scope)]]), val) ==> val(scope))
            <==> NoTopLevelOr(clauses)
  {
    var text := Joined(clauses + [[Condition(scope)]]);
    if NoTopLevelOr(clauses) {
      forall val: Valuation | Eval(text, val) ensures val(scope) { ScopeRestricts(clauses, scope, val); }
    } else {
      var val: Valuation := c => c != scope;
      ScopeEscaped(clauses, scope, val);
      assert Eval(text, val) && !val(scope);
    }
  }
}
