/** The recursive conjunctive solver of lib/lftj.c over one database per subgoal. */
module Solver {
  import opened Collections
  import opened Datalog

  /** The binding slots; a variable without a value is an absent key. */
  class BindingSlots {
    var val: Bindings

    constructor ()
      ensures val == map[]
    {
      val := map[];
    }
  }

  ghost predicate Extends(b0: Bindings, b: Bindings) {
    forall x | x in b0 :: x in b && b[x] == b0[x]
  }

  function VarsFrom(atoms: seq<Triple>, k: nat): (vars: set<Symbol>)
    requires k <= |atoms|
    ensures forall x | x in vars :: IsVar(x)
    decreases |atoms| - k
  {
    if k == |atoms| then {} else Vars(atoms[k]) + VarsFrom(atoms, k + 1)
  }

  /** `b` extends `b0` to the variables of `atoms[k..]` and puts each atom into its database. */
  ghost predicate Sat(atoms: seq<Triple>, dbs: seq<set<Triple>>, k: nat, b0: Bindings, b: Bindings)
    requires |atoms| == |dbs| && k <= |atoms|
  {
    && b.Keys == b0.Keys + VarsFrom(atoms, k)
    && Extends(b0, b)
    && forall i | k <= i < |atoms| :: Apply(atoms[i], b) in dbs[i]
  }

  predicate OnlyVars(b: Bindings) {
    forall x | x in b :: IsVar(x)
  }

  /** The facts a cursor visits: constant and bound columns restrict, a value that looks like a variable does not. */
  function CursorFacts(db: set<Triple>, q: Triple): set<Triple> {
    set f | f in db && (IsVar(q.s) || f.s == q.s) && (IsVar(q.p) || f.p == q.p) && (IsVar(q.o) || f.o == q.o)
  }

  function Column(t: Triple, i: nat): Symbol
    requires i < 3
  {
    if i == 0 then t.s else if i == 1 then t.p else t.o
  }

  /** Columns `i..3` of the fact are bound in order, failing at the first column that contradicts an earlier value. */
  ghost predicate BindFails(atom: Triple, f: Triple, i: nat, b: Bindings)
    requires i <= 3
    decreases 3 - i
  {
    i < 3 &&
    var (t, v) := (Column(atom, i), Column(f, i));
    if IsVar(t) && t in b && b[t] != v then true
    else BindFails(atom, f, i + 1, if IsVar(t) then b[t := v] else b)
  }

  ghost function BindAll(atom: Triple, f: Triple, i: nat, b: Bindings): Bindings
    requires i <= 3
    decreases 3 - i
  {
    if i == 3 then b
    else BindAll(atom, f, i + 1, if IsVar(Column(atom, i)) then b[Column(atom, i) := Column(f, i)] else b)
  }

  /** Binds the columns of one fact, reporting which slots it filled. */
  method BindTriple(atom: Triple, f: Triple, slots: BindingSlots) returns (compatible: bool, changed: set<Symbol>)
    modifies slots
    ensures compatible == !BindFails(atom, f, 0, old(slots.val))
    ensures compatible ==> slots.val == BindAll(atom, f, 0, old(slots.val))
    ensures changed !! old(slots.val.Keys) && slots.val - changed == old(slots.val)
  {
    compatible, changed := true, {};
    var i := 0;
    while i < 3
      invariant 0 <= i <= 3 && compatible
      invariant BindFails(atom, f, 0, old(slots.val)) == BindFails(atom, f, i, slots.val)
      invariant BindAll(atom, f, 0, old(slots.val)) == BindAll(atom, f, i, slots.val)
      invariant changed !! old(slots.val.Keys) && changed <= slots.val.Keys
      invariant slots.val - changed == old(slots.val)
    {
      var t, v := Column(atom, i), Column(f, i);
      if IsVar(t) {
        if t in slots.val && slots.val[t] != v {
          compatible := false;
          return;
        }
        if t !in slots.val {
          changed := changed + {t};
          slots.val := slots.val[t := v];
        }
        assert slots.val == slots.val[t := v];
      }
      i := i + 1;
    }
  }

  function BindOne(t: Symbol, v: Symbol, b: Bindings): Bindings {
    if IsVar(t) then b[t := v] else b
  }

  lemma BindSteps(atom: Triple, f: Triple, b: Bindings)
    ensures var b1 := BindOne(atom.s, f.s, b);
            var b2 := BindOne(atom.p, f.p, b1);
            && BindAll(atom, f, 0, b) == BindOne(atom.o, f.o, b2)
            && BindFails(atom, f, 0, b) ==
               ((atom.s in b && IsVar(atom.s) && b[atom.s] != f.s)
                || (atom.p in b1 && IsVar(atom.p) && b1[atom.p] != f.p)
                || (atom.o in b2 && IsVar(atom.o) && b2[atom.o] != f.o))
  {
    var b1 := BindOne(atom.s, f.s, b);
    var b2 := BindOne(atom.p, f.p, b1);
    var b3 := BindOne(atom.o, f.o, b2);
    assert BindFails(atom, f, 3, b3) == false && BindAll(atom, f, 3, b3) == b3;
    assert BindAll(atom, f, 2, b2) == b3;
    assert BindAll(atom, f, 1, b1) == b3;
  }

  lemma BindOneMeaning(t: Symbol, v: Symbol, b: Bindings)
    requires OnlyVars(b) && !(t in b && b[t] != v)
    requires !IsVar(t) ==> t == v
    ensures var b1 := BindOne(t, v, b);
            b1.Keys == b.Keys + VarOf(t) && Extends(b, b1) && OnlyVars(b1) && Value(t, b1) == v
  {
  }

  lemma BindMeaning(atom: Triple, f: Triple, b: Bindings)
    requires !BindFails(atom, f, 0, b) && OnlyVars(b)
    requires f in CursorFacts({f}, Apply(atom, b))
    ensures var b1 := BindAll(atom, f, 0, b);
            b1.Keys == b.Keys + Vars(atom) && Extends(b, b1) && Apply(atom, b1) == f && OnlyVars(b1)
  {
    BindSteps(atom, f, b);
    var b1 := BindOne(atom.s, f.s, b);
    var b2 := BindOne(atom.p, f.p, b1);
    BindOneMeaning(atom.s, f.s, b);
    BindOneMeaning(atom.p, f.p, b1);
    BindOneMeaning(atom.o, f.o, b2);
  }

  lemma BindOneComplete(t: Symbol, b: Bindings, b1: Bindings)
    requires OnlyVars(b) && Extends(b, b1) && VarOf(t) <= b1.Keys && OnlyVars(b1)
    ensures var b2 := BindOne(t, Value(t, b1), b);
            && !(t in b && b[t] != Value(t, b1)) && Extends(b2, b1) && OnlyVars(b2)
            && b2.Keys == b.Keys + VarOf(t)
            && (IsVar(Value(t, b)) || Value(t, b1) == Value(t, b))
  {
  }

  lemma BindComplete(atom: Triple, b: Bindings, b1: Bindings)
    requires b1.Keys == b.Keys + Vars(atom) && Extends(b, b1) && OnlyVars(b) && OnlyVars(b1)
    ensures var f := Apply(atom, b1);
            && f in CursorFacts({f}, Apply(atom, b))
            && !BindFails(atom, f, 0, b)
            && BindAll(atom, f, 0, b) == b1
  {
    var f := Apply(atom, b1);
    BindSteps(atom, f, b);
    BindOneComplete(atom.s, b, b1);
    var b2 := BindOne(atom.s, f.s, b);
    BindOneComplete(atom.p, b, b1);
    BindOneComplete(atom.p, b2, b1);
    var b3 := BindOne(atom.p, f.p, b2);
    BindOneComplete(atom.o, b, b1);
    BindOneComplete(atom.o, b3, b1);
    SameBindings(BindOne(atom.o, f.o, b3), b1);
  }

  lemma SameBindings(b: Bindings, b1: Bindings)
    requires Extends(b, b1) && b1.Keys <= b.Keys
    ensures b == b1
  {
  }

  lemma SatNext(atoms: seq<Triple>, dbs: seq<set<Triple>>, k: nat, b0: Bindings, b1: Bindings, b: Bindings)
    requires |atoms| == |dbs| && k < |atoms|
    requires b1.Keys == b0.Keys + Vars(atoms[k]) && Extends(b0, b1) && Apply(atoms[k], b1) in dbs[k]
    requires Sat(atoms, dbs, k + 1, b1, b) && OnlyVars(b1)
    ensures Sat(atoms, dbs, k, b0, b) && Apply(atoms[k], b) == Apply(atoms[k], b1)
  {
    ApplyExtended(atoms[k], b1, b);
    assert b.Keys == b0.Keys + VarsFrom(atoms, k);
  }

  lemma ValueExtended(t: Symbol, b1: Bindings, b: Bindings)
    requires VarOf(t) <= b1.Keys && Extends(b1, b) && (t in b ==> IsVar(t))
    ensures Value(t, b) == Value(t, b1)
  {
    assert IsVar(t) ==> t in VarOf(t);
  }

  /** Values given to variables outside the atom do not change its instance. */
  lemma ApplyExtended(atom: Triple, b1: Bindings, b: Bindings)
    requires Vars(atom) <= b1.Keys && Extends(b1, b) && OnlyVars(b)
    ensures Apply(atom, b) == Apply(atom, b1)
  {
    ValueExtended(atom.s, b1, b);
    ValueExtended(atom.p, b1, b);
    ValueExtended(atom.o, b1, b);
  }

  /** Splitting a satisfying assignment at subgoal `k`: the part before it is the binding of one fact. */
  lemma SatSplit(atoms: seq<Triple>, dbs: seq<set<Triple>>, k: nat, b0: Bindings, b: Bindings) returns (b1: Bindings)
    requires |atoms| == |dbs| && k < |atoms| && OnlyVars(b0)
    requires Sat(atoms, dbs, k, b0, b)
    ensures b1 == BindAll(atoms[k], Apply(atoms[k], b), 0, b0) && !BindFails(atoms[k], Apply(atoms[k], b), 0, b0)
    ensures Apply(atoms[k], b) in CursorFacts(dbs[k], Apply(atoms[k], b0))
    ensures OnlyVars(b1) && Sat(atoms, dbs, k + 1, b1, b)
  {
    b1 := map x | x in b0.Keys + Vars(atoms[k]) :: b[x];
    assert OnlyVars(b);
    ApplyExtended(atoms[k], b1, b);
    BindComplete(atoms[k], b0, b1);
  }

  /** The assignments that give subgoal `k` the fact `f` are those that continue the binding of `f`. */
  lemma StepExact(atoms: seq<Triple>, dbs: seq<set<Triple>>, k: nat, b0: Bindings, f: Triple)
    requires |atoms| == |dbs| && k < |atoms| && OnlyVars(b0)
    requires f in CursorFacts(dbs[k], Apply(atoms[k], b0))
    ensures forall b :: Sat(atoms, dbs, k, b0, b) && Apply(atoms[k], b) == f <==>
                        !BindFails(atoms[k], f, 0, b0) && Sat(atoms, dbs, k + 1, BindAll(atoms[k], f, 0, b0), b)
  {
    forall b | Sat(atoms, dbs, k, b0, b) && Apply(atoms[k], b) == f
      ensures !BindFails(atoms[k], f, 0, b0) && Sat(atoms, dbs, k + 1, BindAll(atoms[k], f, 0, b0), b)
    {
      var b1 := SatSplit(atoms, dbs, k, b0, b);
    }
    forall b | !BindFails(atoms[k], f, 0, b0) && Sat(atoms, dbs, k + 1, BindAll(atoms[k], f, 0, b0), b)
      ensures Sat(atoms, dbs, k, b0, b) && Apply(atoms[k], b) == f
    {
      BindMeaning(atoms[k], f, b0);
      SatNext(atoms, dbs, k, b0, BindAll(atoms[k], f, 0, b0), b);
    }
  }

  /** naive_solve_rec: `calls` lists the bindings at each invocation of the callback, in order. */
  method NaiveSolveRec(dbs: seq<set<Triple>>, atoms: seq<Triple>, k: nat, slots: BindingSlots)
    returns (solutions: nat, calls: seq<Bindings>)
    requires |atoms| == |dbs| && k <= |atoms| && OnlyVars(slots.val)
    modifies slots
    ensures slots.val == old(slots.val)
    ensures solutions == |calls| && NoDup(calls)
    ensures forall b :: b in calls <==> Sat(atoms, dbs, k, old(slots.val), b)
    decreases |atoms| - k, 1
  {
    if k == |atoms| {
      assert forall b :: Sat(atoms, dbs, k, slots.val, b) <==> b == slots.val by {
        forall b | Sat(atoms, dbs, k, slots.val, b) { SameBindings(slots.val, b); }
      }
      return 1, [slots.val];
    }
    ghost var b0 := slots.val;
    solutions, calls := 0, [];
    var rest := CursorFacts(dbs[k], Apply(atoms[k], slots.val));
    ghost var done: set<Triple> := {};
    while rest != {}
      invariant slots.val == b0 && rest !! done
      invariant rest + done == CursorFacts(dbs[k], Apply(atoms[k], b0))
      invariant solutions == |calls| && NoDup(calls)
      invariant forall b :: b in calls <==> Sat(atoms, dbs, k, b0, b) && Apply(atoms[k], b) in done
      decreases rest
    {
      var f :| f in rest;
      var n, more := SolveFact(dbs, atoms, k, slots, f);
      AppendCalls(atoms, dbs, k, b0, done, f, calls, more);
      solutions, calls := solutions + n, calls + more;
      rest, done := rest - {f}, done + {f};
    }
    forall b | Sat(atoms, dbs, k, b0, b) ensures b in calls {
      var b1 := SatSplit(atoms, dbs, k, b0, b);
    }
  }

  lemma AppendCalls(atoms: seq<Triple>, dbs: seq<set<Triple>>, k: nat, b0: Bindings, done: set<Triple>, f: Triple,
                    calls: seq<Bindings>, more: seq<Bindings>)
    requires |atoms| == |dbs| && k < |atoms| && f !in done && NoDup(calls) && NoDup(more)
    requires forall b :: b in calls <==> Sat(atoms, dbs, k, b0, b) && Apply(atoms[k], b) in done
    requires forall b :: b in more <==> Sat(atoms, dbs, k, b0, b) && Apply(atoms[k], b) == f
    ensures NoDup(calls + more)
    ensures forall b :: b in calls + more <==> Sat(atoms, dbs, k, b0, b) && Apply(atoms[k], b) in done + {f}
  {
    forall i, j | 0 <= i < |calls| && 0 <= j < |more| ensures calls[i] != more[j] {
      assert calls[i] in calls && more[j] in more;
    }
  }

  /** One turn of the cursor loop: bind the fact, recurse if it is compatible, put the slots back. */
  method SolveFact(dbs: seq<set<Triple>>, atoms: seq<Triple>, k: nat, slots: BindingSlots, f: Triple)
    returns (solutions: nat, calls: seq<Bindings>)
    requires |atoms| == |dbs| && k < |atoms| && OnlyVars(slots.val)
    requires f in CursorFacts(dbs[k], Apply(atoms[k], slots.val))
    modifies slots
    ensures slots.val == old(slots.val)
    ensures solutions == |calls| && NoDup(calls)
    ensures forall b :: b in calls <==> Sat(atoms, dbs, k, old(slots.val), b) && Apply(atoms[k], b) == f
    decreases |atoms| - k, 0
  {
    ghost var b0 := slots.val;
    StepExact(atoms, dbs, k, b0, f);
    solutions, calls := 0, [];
    var compatible, changed := BindTriple(atoms[k], f, slots);
    if compatible {
      BindMeaning(atoms[k], f, b0);
      solutions, calls := NaiveSolveRec(dbs, atoms, k + 1, slots);
    }
    slots.val := slots.val - changed;
  }

  /** facts_lftj_solve_multi: nothing is solved without subgoals. */
  method SolveMulti(dbs: seq<set<Triple>>, atoms: seq<Triple>, slots: BindingSlots) returns (solutions: nat, calls: seq<Bindings>)
    requires |atoms| == |dbs| && slots.val == map[]
    modifies slots
    ensures slots.val == map[] && solutions == |calls| && NoDup(calls)
    ensures forall b :: b in calls <==> atoms != [] && Sat(atoms, dbs, 0, map[], b)
  {
    if |atoms| == 0 { return 0, []; }
    solutions, calls := NaiveSolveRec(dbs, atoms, 0, slots);
  }
}
