/** The range restriction of rules (datalog_rule_validate in lib/rule.c). */
module Validate {
  import opened Collections
  import opened Datalog

  /** The part of PosVars that the first `k` subgoals contribute. */
  function PosVarsBefore(body: seq<Subgoal>, k: nat): set<Symbol> {
    set j, x | 0 <= j < k && j < |body| && !body[j].negated && x in Vars(body[j].atom) :: x
  }

  lemma PosVarsNext(body: seq<Subgoal>, k: nat)
    requires k < |body|
    ensures PosVarsBefore(body, k + 1) == PosVarsBefore(body, k) + if body[k].negated then {} else Vars(body[k].atom)
  {
  }

  /** is_variable, then add_var_to_list: the list stays without repeats. */
  method AddVar(list: seq<Symbol>, t: Symbol) returns (more: seq<Symbol>)
    requires NoDup(list)
    ensures Elems(more) == Elems(list) + VarOf(t) && list <= more
    ensures NoDup(more)
  {
    more := if IsVar(t) && t !in list then list + [t] else list;
  }

  predicate Bound(t: Symbol, list: seq<Symbol>) {
    IsVar(t) ==> t in list
  }

  /** Its first loop: every variable of the positive subgoals, once each. */
  method PositiveVars(body: seq<Subgoal>) returns (vars: seq<Symbol>)
    ensures Elems(vars) == PosVars(body)
    ensures NoDup(vars)
  {
    hide Vars, Elems;
    vars := [];
    assert Elems(vars) == PosVarsBefore(body, 0) by { NoElems(body); }
    var k := 0;
    while k < |body|
      invariant k <= |body| && Elems(vars) == PosVarsBefore(body, k)
      invariant NoDup(vars)
    {
      var a := body[k].atom;
      PosVarsNext(body, k);
      ThreeColumns(a, vars);
      if !body[k].negated {
        vars := AddVar(vars, a.s);
        vars := AddVar(vars, a.p);
        vars := AddVar(vars, a.o);
      }
      k := k + 1;
    }
    assert PosVarsBefore(body, |body|) == PosVars(body);
  }

  lemma NoElems(body: seq<Subgoal>)
    ensures Elems([]) == PosVarsBefore(body, 0)
  {
  }

  /** datalog_rule_validate: a rule is accepted exactly when it is safe. */
  method Validates(r: Rule) returns (safe: bool)
    ensures safe == Safe(r)
  {
    hide Vars, Elems, Bound, PosVars;
    var vars := PositiveVars(r.body);
    ThreeColumns(r.head, vars);
    safe := Bound(r.head.s, vars) && Bound(r.head.p, vars) && Bound(r.head.o, vars);
    if !safe { return; }
    var k := 0;
    while k < |r.body|
      invariant k <= |r.body|
      invariant forall j | 0 <= j < k && r.body[j].negated :: Vars(r.body[j].atom) <= PosVars(r.body)
    {
      var a := r.body[k].atom;
      ThreeColumns(a, vars);
      if r.body[k].negated && !(Bound(a.s, vars) && Bound(a.p, vars) && Bound(a.o, vars)) {
        return false;
      }
      k := k + 1;
    }
  }

  lemma ThreeColumns(t: Triple, list: seq<Symbol>)
    ensures Vars(t) == VarOf(t.s) + VarOf(t.p) + VarOf(t.o)
    ensures Vars(t) <= Elems(list) <==> Bound(t.s, list) && Bound(t.p, list) && Bound(t.o, list)
  {
    assert forall x :: x in Elems(list) <==> x in list;
    if Bound(t.s, list) && Bound(t.p, list) && Bound(t.o, list) {
    } else {
      var x :| x in {t.s, t.p, t.o} && IsVar(x) && x !in list;
      assert x in Vars(t);
    }
  }
}
