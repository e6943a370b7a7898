/** Evaluating one rule over one database per subgoal (lib/eval.c: prepare_rule_query, eval_solution_cb). */
module RuleEval {
  import opened Collections
  import opened Datalog
  import Solver
  import opened JustificationGraphs

  /** The database as rule evaluation sees it: facts with asserted support and facts with derived support. */
  class Facts {
    var asserted: set<Triple>
    var derived: set<Triple>

    constructor (edb: set<Triple>)
      ensures asserted == edb && derived == {}
    {
      asserted, derived := edb, {};
    }

    function Visible(): set<Triple>
      reads this
    {
      asserted + derived
    }

    /** facts_merge_derived_count */
    method MergeDerived(src: set<Triple>) returns (count: nat)
      modifies this`derived
      ensures derived == old(derived) + src && count == |derived| - |old(derived)|
    {
      count := 0;
      var rest := src;
      ghost var done: set<Triple> := {};
      while rest != {}
        invariant rest + done == src && derived == old(derived) + done
        invariant count == |derived| - |old(derived)|
        decreases rest
      {
        var f :| f in rest;
        if f !in derived {
          derived := derived + {f};
          count := count + 1;
        }
        rest, done := rest - {f}, done + {f};
      }
    }

    /** facts_remove_spo_origin with derived origin; returns whether the fact is gone altogether. */
    method RemoveDerived(f: Triple) returns (disappears: bool)
      requires f in derived
      modifies this`derived
      ensures derived == old(derived) - {f} && disappears == (f !in asserted)
    {
      disappears := f !in asserted;
      derived := derived - {f};
    }
  }

  /** The positive subgoals among the first `n`, and the databases chosen for them. */
  function Atoms(body: seq<Subgoal>, n: nat): seq<Triple>
    requires n <= |body|
  {
    if n == 0 then [] else Atoms(body, n - 1) + (if body[n - 1].negated then [] else [body[n - 1].atom])
  }

  function Dbs(body: seq<Subgoal>, choice: seq<set<Triple>>, n: nat): (dbs: seq<set<Triple>>)
    requires n <= |body| == |choice|
    ensures |dbs| == |Atoms(body, n)|
  {
    if n == 0 then [] else Dbs(body, choice, n - 1) + (if body[n - 1].negated then [] else [choice[n - 1]])
  }

  /** The bindings put each positive subgoal into the database chosen for it. */
  ghost predicate SatBody(body: seq<Subgoal>, choice: seq<set<Triple>>, b: Bindings)
    requires |choice| == |body|
  {
    && b.Keys == PosVars(body)
    && forall j | 0 <= j < |body| && !body[j].negated :: Apply(body[j].atom, b) in choice[j]
  }

  ghost predicate AllIn(atoms: seq<Triple>, dbs: seq<set<Triple>>, b: Bindings)
    requires |atoms| == |dbs|
  {
    forall i | 0 <= i < |atoms| :: Apply(atoms[i], b) in dbs[i]
  }

  lemma {:induction false} CompiledSat(body: seq<Subgoal>, choice: seq<set<Triple>>, n: nat, b: Bindings)
    requires n <= |body| == |choice|
    ensures AllIn(Atoms(body, n), Dbs(body, choice, n), b) <==>
            forall j | 0 <= j < n && !body[j].negated :: Apply(body[j].atom, b) in choice[j]
  {
    if n > 0 {
      CompiledSat(body, choice, n - 1, b);
      if body[n - 1].negated {
        assert Atoms(body, n) == Atoms(body, n - 1) && Dbs(body, choice, n) == Dbs(body, choice, n - 1);
      } else {
        AllInAppend(Atoms(body, n - 1), Dbs(body, choice, n - 1), body[n - 1].atom, choice[n - 1], b);
      }
    }
  }

  lemma AllInAppend(atoms: seq<Triple>, dbs: seq<set<Triple>>, a: Triple, db: set<Triple>, b: Bindings)
    requires |atoms| == |dbs|
    ensures AllIn(atoms + [a], dbs + [db], b) <==> AllIn(atoms, dbs, b) && Apply(a, b) in db
  {
    if AllIn(atoms + [a], dbs + [db], b) {
      assert (atoms + [a])[|atoms|] == a && (dbs + [db])[|atoms|] == db;
      assert forall i | 0 <= i < |atoms| :: (atoms + [a])[i] == atoms[i] && (dbs + [db])[i] == dbs[i];
    }
  }

  lemma {:induction false} VarsAppend(atoms: seq<Triple>, a: Triple, k: nat)
    requires k <= |atoms|
    ensures Solver.VarsFrom(atoms + [a], k) == Solver.VarsFrom(atoms, k) + Vars(a)
    decreases |atoms| - k
  {
    if k < |atoms| {
      VarsAppend(atoms, a, k + 1);
    } else {
      assert Solver.VarsFrom(atoms + [a], k + 1) == {};
    }
  }

  lemma {:induction false} CompiledVars(body: seq<Subgoal>, n: nat)
    requires n <= |body|
    ensures Solver.VarsFrom(Atoms(body, n), 0) == PosVars(body[..n])
  {
    if n > 0 {
      CompiledVars(body, n - 1);
      PosVarsStep(body, n);
      if !body[n - 1].negated {
        VarsAppend(Atoms(body, n - 1), body[n - 1].atom, 0);
      } else {
        assert Atoms(body, n) == Atoms(body, n - 1);
      }
    }
  }

  lemma PosVarsStep(body: seq<Subgoal>, n: nat)
    requires 0 < n <= |body|
    ensures PosVars(body[..n]) == PosVars(body[..n - 1]) + (if body[n - 1].negated then {} else Vars(body[n - 1].atom))
  {
    forall x | x in PosVars(body[..n])
      ensures x in PosVars(body[..n - 1]) + (if body[n - 1].negated then {} else Vars(body[n - 1].atom))
    {
      var j :| 0 <= j < n && !body[..n][j].negated && x in Vars(body[..n][j].atom);
      if j < n - 1 { assert body[..n - 1][j] == body[j]; }
    }
    forall x | x in PosVars(body[..n - 1]) ensures x in PosVars(body[..n]) {
      var j :| 0 <= j < n - 1 && !body[..n - 1][j].negated && x in Vars(body[..n - 1][j].atom);
      assert body[..n][j] == body[j];
    }
    if !body[n - 1].negated {
      assert body[..n][n - 1] == body[n - 1];
    }
  }

  /** Solving the compiled body finds exactly the satisfying bindings of the body. */
  lemma SolverMeaning(body: seq<Subgoal>, choice: seq<set<Triple>>, b: Bindings)
    requires |choice| == |body|
    ensures Solver.Sat(Atoms(body, |body|), Dbs(body, choice, |body|), 0, map[], b) <==> SatBody(body, choice, b)
  {
    CompiledSat(body, choice, |body|, b);
    CompiledVars(body, |body|);
    assert body[..|body|] == body;
    assert AllIn(Atoms(body, |body|), Dbs(body, choice, |body|), b) <==>
           forall i | 0 <= i < |Atoms(body, |body|)| :: Apply(Atoms(body, |body|)[i], b) in Dbs(body, choice, |body|)[i];
  }

  method CompileBody(body: seq<Subgoal>, choice: seq<set<Triple>>) returns (atoms: seq<Triple>, dbs: seq<set<Triple>>)
    requires |choice| == |body|
    ensures atoms == Atoms(body, |body|) && dbs == Dbs(body, choice, |body|)
  {
    atoms, dbs := [], [];
    for j := 0 to |body|
      invariant atoms == Atoms(body, j) && dbs == Dbs(body, choice, j)
    {
      if !body[j].negated {
        atoms, dbs := atoms + [body[j].atom], dbs + [choice[j]];
      }
    }
  }

  function Heads(prog: Program, insts: set<Inst>): set<Triple> {
    set i | i in insts && i.rule < |prog| :: HeadOf(prog, i)
  }

  function Justs(prog: Program, insts: set<Inst>): set<Justification> {
    set i | i in insts && i.rule < |prog| :: Just(prog, i)
  }

  lemma ImagesOfUnion(prog: Program, a: set<Inst>, b: set<Inst>)
    ensures Heads(prog, a + b) == Heads(prog, a) + Heads(prog, b)
    ensures Justs(prog, a + b) == Justs(prog, a) + Justs(prog, b)
  {
  }

  // ---- what a proof says ----

  /** A proof of the application: its conclusion, its rule, and for each subgoal, in body order, the fact it became and
      whether the subgoal is negated. */
  predicate Records(prog: Program, i: Inst, j: Justification)
    requires i.rule < |prog|
  {
    var body := prog[i.rule].body;
    && j.head == HeadOf(prog, i) && j.rule == i.rule && |j.supports| == |body|
    && forall k | 0 <= k < |body| ::
         j.supports[k].fact == Apply(body[k].atom, i.b) && (j.supports[k].negated <==> body[k].negated)
  }

  lemma JustRecords(prog: Program, i: Inst, j: Justification)
    requires i.rule < |prog|
    ensures Records(prog, i, j) <==> j == Just(prog, i)
  {
    if Records(prog, i, j) {
      forall k | 0 <= k < |j.supports| ensures j.supports[k] == Just(prog, i).supports[k] {
        assert j.supports[k] == Support(j.supports[k].fact, j.supports[k].negated);
      }
      assert j.supports == Just(prog, i).supports;
    }
  }

  /** It uses, positively and negated, exactly the facts that the application needs present and absent. */
  lemma RecordedSupports(prog: Program, i: Inst, j: Justification)
    requires i.rule < |prog| && Records(prog, i, j)
    ensures forall f :: Uses(j, f, false) <==> f in PosFacts(prog, i)
    ensures forall f :: Uses(j, f, true) <==> f in NegFacts(prog, i)
  {
    var body := prog[i.rule].body;
    forall f, negated | Uses(j, f, negated) ensures exists k :: 0 <= k < |body| && body[k].negated == negated && f == Apply(body[k].atom, i.b) {
      var k :| 0 <= k < |j.supports| && j.supports[k] == Support(f, negated);
    }
    forall k | 0 <= k < |body| ensures Uses(j, Apply(body[k].atom, i.b), body[k].negated) {
      assert j.supports[k] == Support(Apply(body[k].atom, i.b), body[k].negated);
    }
  }

  /** `i` is an application of rule `r` over the chosen databases that no visible fact contradicts. */
  ghost predicate Fires(prog: Program, r: nat, choice: seq<set<Triple>>, visible: set<Triple>, i: Inst)
    requires r < |prog| && |choice| == |prog[r].body|
  {
    i.rule == r && SatBody(prog[r].body, choice, i.b) && NegFacts(prog, i) !! visible
  }

  /** The negation check of eval_solution_cb. */
  method NegationHolds(body: seq<Subgoal>, b: Bindings, visible: set<Triple>) returns (ok: bool)
    ensures ok <==> forall j | 0 <= j < |body| && body[j].negated :: Apply(body[j].atom, b) !in visible
  {
    for j := 0 to |body|
      invariant forall k | 0 <= k < j && body[k].negated :: Apply(body[k].atom, b) !in visible
    {
      if body[j].negated && Apply(body[j].atom, b) in visible { return false; }
    }
    ok := true;
  }

  ghost function GraphItems(staging: JustificationGraph): set<Justification>
    reads staging
  {
    Elems(staging.items)
  }

  /** The staged graph, if staging is enabled, has gained exactly the proofs of `fired`. */
  ghost predicate Staged(staging: JustificationGraph, before: set<Justification>, prog: Program, fired: set<Inst>)
    reads staging
  {
    && NoDup(staging.items)
    && GraphItems(staging) == before + (if staging.enabled then Justs(prog, fired) else {})
  }

  ghost predicate Stageable(staging: JustificationGraph)
    reads staging
  {
    NoDup(staging.items)
  }

  /** eval_solution_cb for an insertion: record the proof if staging is enabled, then queue a new head. */
  method OnSolution(prog: Program, i: Inst, visible: set<Triple>, derived: set<Triple>, oldDb: set<Triple>, target: set<Triple>,
                    staging: JustificationGraph) returns (after: set<Triple>, ghost fired: set<Inst>)
    requires i.rule < |prog|
    requires Stageable(staging)
    modifies staging
    ensures fired == if NegFacts(prog, i) !! visible then {i} else {}
    ensures after == target + (Heads(prog, fired) - derived - oldDb)
    ensures Staged(staging, old(GraphItems(staging)), prog, fired)
    ensures forall j | j in staging.items && j !in old(staging.items) :: fired != {} && Records(prog, i, j)
    ensures staging.enabled && fired != {} ==> exists j :: j in staging.items && Records(prog, i, j)
  {
    after, fired := target, {};
    var ok := NegationHolds(prog[i.rule].body, i.b, visible);
    if !ok { return; }
    fired := {i};
    if staging.enabled {
      JustRecords(prog, i, Just(prog, i));
      var added := staging.Add(Just(prog, i));
    }
    var head := HeadOf(prog, i);
    if head in derived || head in oldDb || head in target { return; }
    after := target + {head};
  }

  ghost function Fired(prog: Program, r: nat, calls: seq<Bindings>, visible: set<Triple>): set<Inst>
    requires r < |prog|
  {
    set b | b in calls && NegFacts(prog, Inst(r, b)) !! visible :: Inst(r, b)
  }

  lemma FiredStep(prog: Program, r: nat, calls: seq<Bindings>, k: nat, visible: set<Triple>, more: set<Inst>)
    requires r < |prog| && k < |calls|
    requires more == if NegFacts(prog, Inst(r, calls[k])) !! visible then {Inst(r, calls[k])} else {}
    ensures Fired(prog, r, calls[..k + 1], visible) == Fired(prog, r, calls[..k], visible) + more
  {
    assert calls[..k + 1] == calls[..k] + [calls[k]];
  }

  /** Two batches of fired applications in a row act as one. */
  lemma Accumulate(prog: Program, t0: set<Triple>, t1: set<Triple>, t2: set<Triple>, a: set<Inst>, b: set<Inst>,
                   derived: set<Triple>, oldDb: set<Triple>)
    requires t1 == t0 + (Heads(prog, a) - derived - oldDb)
    requires t2 == t1 + (Heads(prog, b) - derived - oldDb)
    ensures t2 == t0 + (Heads(prog, a + b) - derived - oldDb)
  {
    ImagesOfUnion(prog, a, b);
  }

  lemma AccumulateGraph(staging: JustificationGraph, g0: set<Justification>, g1: set<Justification>, prog: Program,
                        a: set<Inst>, b: set<Inst>)
    requires g1 == g0 + (if staging.enabled then Justs(prog, a) else {})
    requires Staged(staging, g1, prog, b)
    ensures Staged(staging, g0, prog, a + b)
  {
    ImagesOfUnion(prog, a, b);
  }

  /** The callback over the solver's calls, in order. */
  method RunCalls(prog: Program, r: nat, calls: seq<Bindings>, visible: set<Triple>, derived: set<Triple>, oldDb: set<Triple>, target: set<Triple>,
                  staging: JustificationGraph) returns (after: set<Triple>)
    requires r < |prog|
    requires Stageable(staging)
    modifies staging
    ensures after == target + (Heads(prog, Fired(prog, r, calls, visible)) - derived - oldDb)
    ensures Staged(staging, old(GraphItems(staging)), prog, Fired(prog, r, calls, visible))
  {
    after := target;
    ghost var fired: set<Inst> := {};
    for k := 0 to |calls|
      invariant fired == Fired(prog, r, calls[..k], visible)
      invariant after == target + (Heads(prog, fired) - derived - oldDb)
      invariant Staged(staging, old(GraphItems(staging)), prog, fired)
    {
      ghost var before, items, more := after, GraphItems(staging), {};
      after, more := OnSolution(prog, Inst(r, calls[k]), visible, derived, oldDb, after, staging);
      Accumulate(prog, target, before, after, fired, more, derived, oldDb);
      AccumulateGraph(staging, old(GraphItems(staging)), items, prog, fired, more);
      FiredStep(prog, r, calls, k, visible, more);
      fired := fired + more;
    }
    assert calls[..|calls|] == calls;
  }

  /** One rule over one choice of databases: every application that fires, with its head and its proof. */
  method RunRule(prog: Program, r: nat, choice: seq<set<Triple>>, visible: set<Triple>, derived: set<Triple>, oldDb: set<Triple>, target: set<Triple>,
                 staging: JustificationGraph) returns (after: set<Triple>, ghost fired: set<Inst>)
    requires r < |prog| && |choice| == |prog[r].body|
    requires Stageable(staging)
    modifies staging
    ensures forall i :: i in fired <==> Fires(prog, r, choice, visible, i)
    ensures after == target + (Heads(prog, fired) - derived - oldDb)
    ensures Staged(staging, old(GraphItems(staging)), prog, fired)
  {
    var atoms, dbs := CompileBody(prog[r].body, choice);
    var slots := new Solver.BindingSlots();
    var solutions, calls := Solver.NaiveSolveRec(dbs, atoms, 0, slots);
    after := RunCalls(prog, r, calls, visible, derived, oldDb, target, staging);
    fired := Fired(prog, r, calls, visible);
    forall b { SolverMeaning(prog[r].body, choice, b); }
    forall i ensures i in fired <==> Fires(prog, r, choice, visible, i) {
      if i.rule == r { assert i == Inst(r, i.b); }
    }
  }
}
