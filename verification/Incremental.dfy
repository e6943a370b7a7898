/** Reaction of a negation-free program to inserted facts
    (insertion phase of facts_datalog_eval_incremental and its listener, lib/eval.c). */
module Incremental {
  import opened Collections
  import opened Datalog
  import opened JustificationGraphs
  import opened RuleEval
  import S = Stratify
  import SN = SemiNaive
  import E = Evaluation

  /** The delta at the pivot and the whole database elsewhere. */
  function PivotChoice(body: seq<Subgoal>, pivot: nat, visible: set<Triple>, delta: set<Triple>): seq<set<Triple>> {
    seq(|body|, j requires 0 <= j < |body| => if j == pivot then delta else visible)
  }

  ghost predicate PivotFires(prog: Program, pivot: nat, visible: set<Triple>, delta: set<Triple>, i: Inst)
    requires i.rule < |prog|
  {
    && pivot < |prog[i.rule].body| && !prog[i.rule].body[pivot].negated
    && Fires(prog, i.rule, PivotChoice(prog[i.rule].body, pivot, visible, delta), visible, i)
  }

  ghost predicate SomePivot(prog: Program, n: nat, visible: set<Triple>, delta: set<Triple>, i: Inst)
    requires i.rule < |prog|
  {
    exists v: nat :: v < n && PivotFires(prog, v, visible, delta, i)
  }

  /** Without negation: the application uses only facts of `visible`, at least one of them new. */
  predicate UsesDelta(prog: Program, visible: set<Triple>, delta: set<Triple>, i: Inst) {
    IsInst(prog, i) && PosFacts(prog, i) <= visible && !(PosFacts(prog, i) !! delta)
  }

  lemma NoNegFacts(prog: Program, i: Inst)
    requires !Negated(prog) && i.rule < |prog|
    ensures NegFacts(prog, i) == {}
  {
  }

  lemma PivotMeaning(prog: Program, visible: set<Triple>, delta: set<Triple>, i: Inst)
    requires !Negated(prog) && delta <= visible && i.rule < |prog|
    ensures SomePivot(prog, |prog[i.rule].body|, visible, delta, i) <==> UsesDelta(prog, visible, delta, i)
  {
    NoNegFacts(prog, i);
    var body := prog[i.rule].body;
    if UsesDelta(prog, visible, delta, i) {
      var f :| f in PosFacts(prog, i) && f in delta;
      var pivot :| 0 <= pivot < |body| && !body[pivot].negated && f == Apply(body[pivot].atom, i.b);
      forall j | 0 <= j < |body| && !body[j].negated
        ensures Apply(body[j].atom, i.b) in PivotChoice(body, pivot, visible, delta)[j]
      {
        assert Apply(body[j].atom, i.b) in PosFacts(prog, i);
      }
      assert PivotFires(prog, pivot, visible, delta, i);
    }
    if SomePivot(prog, |body|, visible, delta, i) {
      var v: nat :| v < |body| && PivotFires(prog, v, visible, delta, i);
      PivotSound(prog, v, visible, delta, i);
    }
  }

  lemma PivotSound(prog: Program, v: nat, visible: set<Triple>, delta: set<Triple>, i: Inst)
    requires delta <= visible && i.rule < |prog| && PivotFires(prog, v, visible, delta, i)
    ensures UsesDelta(prog, visible, delta, i)
  {
    var body := prog[i.rule].body;
    forall f | f in PosFacts(prog, i) ensures f in visible {
      var j :| 0 <= j < |body| && !body[j].negated && f == Apply(body[j].atom, i.b);
    }
    assert Apply(body[v].atom, i.b) in PosFacts(prog, i);
  }

  method RunPivots(prog: Program, r: nat, visible: set<Triple>, derived: set<Triple>, oldDb: set<Triple>,
                   delta: set<Triple>, target: set<Triple>, staging: JustificationGraph)
    returns (after: set<Triple>, ghost fired: set<Inst>)
    requires r < |prog| && Stageable(staging)
    modifies staging
    ensures forall i :: i in fired <==> i.rule == r && SomePivot(prog, |prog[r].body|, visible, delta, i)
    ensures after == target + (Heads(prog, fired) - derived - oldDb)
    ensures Staged(staging, old(GraphItems(staging)), prog, fired)
  {
    hide SatBody, GraphItems;
    after, fired := target, {};
    for pivot := 0 to |prog[r].body|
      invariant forall i :: i in fired <==> i.rule == r && SomePivot(prog, pivot, visible, delta, i)
      invariant after == target + (Heads(prog, fired) - derived - oldDb)
      invariant Staged(staging, old(GraphItems(staging)), prog, fired)
    {
      if !prog[r].body[pivot].negated {
        ghost var before, items, more := after, GraphItems(staging), {};
        after, more := RunRule(prog, r, PivotChoice(prog[r].body, pivot, visible, delta), visible, derived,
                               oldDb, after, staging);
        assert forall i :: i in more <==> i.rule == r && PivotFires(prog, pivot, visible, delta, i);
        Accumulate(prog, target, before, after, fired, more, derived, oldDb);
        AccumulateGraph(staging, old(GraphItems(staging)), items, prog, fired, more);
        fired := fired + more;
      }
    }
  }

  /** One pass over the rules of stratum `s`: all applications that use a new fact. */
  method Round(prog: Program, strata: seq<nat>, s: nat, visible: set<Triple>, derived: set<Triple>, oldDb: set<Triple>,
               delta: set<Triple>, staging: JustificationGraph) returns (newDb: set<Triple>, ghost fired: set<Inst>)
    requires |strata| == |prog| && Stageable(staging)
    modifies staging
    ensures forall i :: i in fired <==> InStratum(strata, s, i) && SomePivot(prog, |prog[i.rule].body|, visible, delta, i)
    ensures newDb == Heads(prog, fired) - derived - oldDb
    ensures Staged(staging, old(GraphItems(staging)), prog, fired)
  {
    hide GraphItems;
    newDb, fired := {}, {};
    for r := 0 to |prog|
      invariant forall i :: i in fired <==>
                  i.rule < r && InStratum(strata, s, i) && SomePivot(prog, |prog[i.rule].body|, visible, delta, i)
      invariant newDb == Heads(prog, fired) - derived - oldDb
      invariant Staged(staging, old(GraphItems(staging)), prog, fired)
    {
      if strata[r] == s {
        ghost var before, items, more := newDb, GraphItems(staging), {};
        newDb, more := RunPivots(prog, r, visible, derived, oldDb, delta, newDb, staging);
        Accumulate(prog, {}, before, newDb, fired, more, derived, oldDb);
        AccumulateGraph(staging, old(GraphItems(staging)), items, prog, fired, more);
        fired := fired + more;
      }
    }
  }

  /** Between rounds: applications over the settled facts have fired or were true before, their heads are
      visible, and everything visible is in every model of the asserted facts. */
  ghost predicate Inv(prog: Program, edb: set<Triple>, before: set<Triple>, visible: set<Triple>, delta: set<Triple>,
                      fired: set<Inst>)
  {
    && before <= visible && delta <= visible
    && (forall i | i in fired :: Holds(prog, i, visible, visible))
    && (forall i: Inst | IsInst(prog, i) && PosFacts(prog, i) <= visible && PosFacts(prog, i) !! delta ::
          HeadOf(prog, i) in visible && (PosFacts(prog, i) <= before || i in fired))
    && (forall x: iset<Triple> | Within(edb, x) && ClosedUnder(prog, x) :: Within(visible, x))
  }

  lemma StartInv(prog: Program, edb: set<Triple>, before: set<Triple>, inserted: set<Triple>)
    requires LeastModel(prog, edb, AsIset(before)) && inserted !! before && !Negated(prog)
    ensures Inv(prog, edb + inserted, before, before + inserted, inserted, {})
  {
    forall i: Inst | IsInst(prog, i) && PosFacts(prog, i) <= before + inserted && PosFacts(prog, i) !! inserted
      ensures HeadOf(prog, i) in before && PosFacts(prog, i) <= before
    {
      assert Within(PosFacts(prog, i), AsIset(before));
    }
    forall x: iset<Triple> | Within(edb + inserted, x) && ClosedUnder(prog, x) ensures Within(before + inserted, x) {
      assert Within(edb, x);
    }
  }

  lemma RoundInv(prog: Program, edb: set<Triple>, before: set<Triple>, visible: set<Triple>, delta: set<Triple>,
                 oldDb: set<Triple>, derived: set<Triple>, newDb: set<Triple>, fired: set<Inst>, more: set<Inst>)
    requires Inv(prog, edb, before, visible, delta, fired) && !Negated(prog)
    requires derived <= visible && oldDb <= visible
    requires forall i :: i in more <==> UsesDelta(prog, visible, delta, i)
    requires newDb == Heads(prog, more) - derived - oldDb
    ensures Inv(prog, edb, before, visible + newDb, newDb, fired + more)
  {
    forall i | i in fired + more ensures Holds(prog, i, visible + newDb, visible + newDb) {
      NoNegFacts(prog, i);
    }
    forall i: Inst | IsInst(prog, i) && PosFacts(prog, i) <= visible + newDb && PosFacts(prog, i) !! newDb
      ensures HeadOf(prog, i) in visible + newDb && (PosFacts(prog, i) <= before || i in fired + more)
    {
      assert PosFacts(prog, i) <= visible;
      if !(PosFacts(prog, i) !! delta) {
        assert i in more;
        assert HeadOf(prog, i) in Heads(prog, more);
      }
    }
    RoundInModels(prog, edb, visible, delta, more, newDb);
  }

  lemma RoundInModels(prog: Program, edb: set<Triple>, visible: set<Triple>, delta: set<Triple>, more: set<Inst>,
                      newDb: set<Triple>)
    requires forall x: iset<Triple> | Within(edb, x) && ClosedUnder(prog, x) :: Within(visible, x)
    requires forall i | i in more :: UsesDelta(prog, visible, delta, i)
    requires newDb <= Heads(prog, more)
    ensures forall x: iset<Triple> | Within(edb, x) && ClosedUnder(prog, x) :: Within(visible + newDb, x)
  {
    forall x: iset<Triple>, f | Within(edb, x) && ClosedUnder(prog, x) && f in visible + newDb ensures f in x {
      assert Within(visible, x);
      if f !in visible {
        var i :| i in more && i.rule < |prog| && f == HeadOf(prog, i);
        assert Within(PosFacts(prog, i), x);
      }
    }
  }

  lemma InvDone(prog: Program, edb: set<Triple>, before: set<Triple>, visible: set<Triple>, fired: set<Inst>)
    requires Inv(prog, edb, before, visible, {}, fired) && edb <= visible && !Negated(prog)
    ensures LeastModel(prog, edb, AsIset(visible))
    ensures forall i: Inst :: Holds(prog, i, visible, visible) <==> Holds(prog, i, before, before) || i in fired
  {
    forall i: Inst | IsInst(prog, i) && Within(PosFacts(prog, i), AsIset(visible)) ensures HeadOf(prog, i) in visible {
      assert PosFacts(prog, i) <= visible;
    }
    forall x: iset<Triple> | Within(edb, x) && ClosedUnder(prog, x) ensures AsIset(visible) <= x {
      assert Within(visible, x);
    }
    forall i: Inst ensures Holds(prog, i, visible, visible) <==> Holds(prog, i, before, before) || i in fired {
      if i.rule < |prog| { NoNegFacts(prog, i); }
    }
  }

  lemma NewIsBounded(prog: Program, start: set<Triple>, visible: set<Triple>, more: set<Inst>, delta: set<Triple>)
    requires forall r | r in prog :: Safe(r)
    requires visible <= SN.Herbrand(SN.Symbols(prog, start))
    requires forall i | i in more :: UsesDelta(prog, visible, delta, i)
    ensures Heads(prog, more) <= SN.Herbrand(SN.Symbols(prog, start))
  {
    forall f | f in Heads(prog, more) ensures f in SN.Herbrand(SN.Symbols(prog, start)) {
      var i :| i in more && i.rule < |prog| && f == HeadOf(prog, i);
      assert prog[i.rule] in prog;
      SN.HeadInHerbrand(prog, start, i);
    }
  }

  lemma StartIsBounded(prog: Program, start: set<Triple>)
    ensures start <= SN.Herbrand(SN.Symbols(prog, start))
  {
    forall f | f in start ensures f in SN.Herbrand(SN.Symbols(prog, start)) {
      assert f.s in Terms(f) && f.p in Terms(f) && f.o in Terms(f);
    }
  }

  lemma HeadsNotAsserted(prog: Program, edb: set<Triple>, insts: set<Inst>)
    requires E.WellFormed(prog, edb) && forall i | i in insts :: IsInst(prog, i)
    ensures Heads(prog, insts) !! edb
  {
    forall f | f in Heads(prog, insts) ensures f !in edb {
      var i :| i in insts && i.rule < |prog| && f == HeadOf(prog, i);
      SN.InstPreds(prog, i);
      assert prog[i.rule] in prog;
    }
  }

  /** What the loop keeps about its sets. */
  ghost predicate Room(universe: set<Triple>, asserted: set<Triple>, derived: set<Triple>, visible: set<Triple>,
                       oldDb: set<Triple>, delta: set<Triple>)
  {
    && visible == asserted + derived && asserted !! derived
    && oldDb <= visible && delta <= visible && visible <= universe
  }

  /** One turn of the loop on values: the round's facts extend the derived ones, or there are none left. */
  method Turn(prog: Program, strata: seq<nat>, visible: set<Triple>, derived: set<Triple>, oldDb: set<Triple>,
              delta: set<Triple>, staging: JustificationGraph, ghost edb: set<Triple>, ghost before: set<Triple>,
              ghost start: set<Triple>, ghost fired: set<Inst>, ghost items: set<Justification>)
    returns (newDb: set<Triple>, ghost now: set<Inst>)
    requires E.WellFormed(prog, edb) && !Negated(prog)
    requires |strata| == |prog| && forall r | 0 <= r < |prog| :: strata[r] == 0
    requires Room(SN.Herbrand(SN.Symbols(prog, start)), edb, derived, visible, oldDb, delta)
    requires Inv(prog, edb, before, visible, delta, fired)
    requires Staged(staging, items, prog, fired)
    modifies staging
    ensures Inv(prog, edb, before, visible + newDb, newDb, now)
    ensures newDb == {} || Grown(SN.Herbrand(SN.Symbols(prog, start)), edb, derived, visible, oldDb, delta, newDb)
    ensures Staged(staging, items, prog, now)
  {
    hide Inv, GraphItems, Holds, SN.Symbols;
    ghost var had, more := GraphItems(staging), {};
    newDb, more := Round(prog, strata, 0, visible, derived, oldDb, delta, staging);
    AccumulateGraph(staging, items, had, prog, fired, more);
    forall i: Inst ensures i in more <==> UsesDelta(prog, visible, delta, i) {
      if i.rule < |prog| { PivotMeaning(prog, visible, delta, i); }
    }
    RoundInv(prog, edb, before, visible, delta, oldDb, derived, newDb, fired, more);
    HeadsNotAsserted(prog, edb, more);
    NewIsBounded(prog, start, visible, more, delta);
    if newDb != {} {
      Grows(SN.Herbrand(SN.Symbols(prog, start)), edb, derived, visible, oldDb, delta, newDb);
    }
    now := fired + more;
  }

  lemma DeltaVisible(prog: Program, edb: set<Triple>, before: set<Triple>, visible: set<Triple>, delta: set<Triple>,
                     fired: set<Inst>)
    requires Inv(prog, edb, before, visible, delta, fired)
    ensures delta <= visible
  {
  }

  /** A round that found something leaves less room. */
  ghost predicate Grown(universe: set<Triple>, asserted: set<Triple>, derived: set<Triple>, visible: set<Triple>,
                        oldDb: set<Triple>, delta: set<Triple>, newDb: set<Triple>)
  {
    && Room(universe, asserted, derived + newDb, visible + newDb, oldDb + delta, newDb)
    && |universe - (visible + newDb)| < |universe - visible|
  }

  lemma Grows(universe: set<Triple>, asserted: set<Triple>, derived: set<Triple>, visible: set<Triple>,
              oldDb: set<Triple>, delta: set<Triple>, newDb: set<Triple>)
    requires Room(universe, asserted, derived, visible, oldDb, delta)
    requires newDb !! visible && newDb != {} && newDb <= universe
    ensures Grown(universe, asserted, derived, visible, oldDb, delta, newDb)
  {
    SN.Measure(universe, visible, newDb);
    SN.UnionAssoc(asserted, derived, newDb);
  }

  lemma GrownMeaning(universe: set<Triple>, asserted: set<Triple>, derived: set<Triple>, visible: set<Triple>,
                     oldDb: set<Triple>, delta: set<Triple>, newDb: set<Triple>)
    requires Grown(universe, asserted, derived, visible, oldDb, delta, newDb)
    ensures Room(universe, asserted, derived + newDb, visible + newDb, oldDb + delta, newDb)
    ensures |universe - (visible + newDb)| < |universe - visible|
  {
  }

  lemma RoomVisible(universe: set<Triple>, asserted: set<Triple>, derived: set<Triple>, visible: set<Triple>,
                    oldDb: set<Triple>, delta: set<Triple>)
    requires Room(universe, asserted, derived, visible, oldDb, delta)
    ensures visible == asserted + derived && asserted !! derived && visible + {} == visible
  {
  }

  method InsertionLoop(prog: Program, strata: seq<nat>, main: Facts, inserted: set<Triple>, staging: JustificationGraph,
                       ghost before: set<Triple>, ghost start: set<Triple>, ghost items: set<Justification>)
    returns (count: nat, ghost fired: set<Inst>)
    requires E.WellFormed(prog, main.asserted) && !Negated(prog)
    requires |strata| == |prog| && forall r | 0 <= r < |prog| :: strata[r] == 0
    requires Inv(prog, main.asserted, before, start, inserted, {})
    requires Room(SN.Herbrand(SN.Symbols(prog, start)), main.asserted, main.derived, start, inserted, inserted)
    requires Staged(staging, items, prog, {})
    modifies main`derived, staging
    ensures Inv(prog, main.asserted, before, main.Visible(), {}, fired) && main.asserted !! main.derived
    ensures old(main.derived) <= main.derived && count == |main.derived| - |old(main.derived)|
    ensures Staged(staging, items, prog, fired)
  {
    hide Inv, Staged, SN.Symbols, E.WellFormed, Negated, Room, Grown;
    fired, count := {}, 0;
    var oldDb, delta := inserted, inserted;
    ghost var visible, asserted, derived, size := start, main.asserted, main.derived, |main.derived|;
    ghost var universe := SN.Herbrand(SN.Symbols(prog, start));
    while true
      invariant main.asserted == asserted && main.derived == derived && old(main.derived) <= derived
      invariant Inv(prog, asserted, before, visible, delta, fired)
      invariant Room(universe, asserted, derived, visible, oldDb, delta)
      invariant count == |derived| - size
      invariant Staged(staging, items, prog, fired)
      decreases |universe - visible|
    {
      RoomVisible(universe, asserted, derived, visible, oldDb, delta);
      var newDb;
      newDb, fired := Turn(prog, strata, main.Visible(), main.derived, oldDb, delta, staging, asserted, before, start, fired, items);
      if newDb == {} { return; }
      GrownMeaning(universe, asserted, derived, visible, oldDb, delta, newDb);
      oldDb := oldDb + delta;
      delta := newDb;
      var merged := main.MergeDerived(newDb);
      visible, derived := visible + newDb, derived + newDb;
      count := count + merged;
    }
  }

  /** The insertion phase of facts_datalog_eval_incremental for the one stratum of a negation-free program. */
  method PropagateInsertions(prog: Program, strata: seq<nat>, main: Facts, inserted: set<Triple>,
                             staging: JustificationGraph, ghost before: set<Triple>)
    returns (count: nat, ghost fired: set<Inst>)
    requires E.WellFormed(prog, main.asserted) && !Negated(prog) && main.asserted !! main.derived
    requires |strata| == |prog| && forall r | 0 <= r < |prog| :: strata[r] == 0
    requires Inv(prog, main.asserted, before, main.Visible(), inserted, {})
    requires Stageable(staging)
    modifies main`derived, staging
    ensures Inv(prog, main.asserted, before, main.Visible(), {}, fired) && main.asserted !! main.derived
    ensures old(main.derived) <= main.derived && count == |main.derived| - |old(main.derived)|
    ensures Staged(staging, old(GraphItems(staging)), prog, fired)
  {
    hide Inv, Staged, SN.Symbols, E.WellFormed, Negated, GraphItems;
    E.StagedNothing(staging, prog);
    if inserted == {} { return 0, {}; }
    DeltaVisible(prog, main.asserted, before, main.Visible(), inserted, {});
    StartIsBounded(prog, main.Visible());
    count, fired := InsertionLoop(prog, strata, main, inserted, staging, before, main.Visible(), GraphItems(staging));
  }

  lemma UnchangedProofs(prog: Program, before: set<Triple>, after: set<Triple>, old_: seq<Justification>,
                        items: seq<Justification>, fired: set<Inst>)
    requires E.ExactProofs(prog, before, old_) && NoDup(items)
    requires Elems(items) == Elems(old_) + Justs(prog, fired)
    requires forall i: Inst :: Holds(prog, i, after, after) <==> Holds(prog, i, before, before) || i in fired
    ensures E.ExactProofs(prog, after, items)
  {
    forall j ensures j in items <==> exists i :: Holds(prog, i, after, after) && j == Just(prog, i) {
      assert j in items <==> j in Elems(items);
      assert j in old_ <==> j in Elems(old_);
      if j in Justs(prog, fired) {
        var i :| i in fired && i.rule < |prog| && j == Just(prog, i);
      }
    }
  }

  /** facts_invalidate_justifications on insertions: each is looked up as a negated support. */
  method InvalidateInserted(staging: JustificationGraph, inserted: set<Triple>)
    requires forall j, f | j in staging.items :: !Uses(j, f, true)
    modifies staging
    ensures staging.items == old(staging.items)
  {
    var rest := inserted;
    while rest != {}
      invariant staging.items == old(staging.items)
      decreases rest
    {
      var f :| f in rest;
      rest := rest - {f};
      WithoutNothing(staging.items, f, true);
      var removed, conclusions := staging.RemoveSupport(f, true);
    }
  }

  /** An insert-only commit of a negation-free program: `main` already holds the inserted facts. Recomputing
      from scratch would give the same model, the same derived facts and the same proofs. */
  method OnInsert(prog: Program, main: Facts, inserted: set<Triple>, graph: JustificationGraph)
    returns (count: nat, current: JustificationGraph)
    requires E.WellFormed(prog, main.asserted) && !Negated(prog) && inserted <= main.asserted
    requires main.asserted !! main.derived
    requires var before := (main.asserted - inserted) + main.derived;
             LeastModel(prog, main.asserted - inserted, AsIset(before)) && E.ExactProofs(prog, before, graph.items)
    modifies main`derived
    ensures LeastModel(prog, main.asserted, AsIset(main.Visible())) && main.asserted !! main.derived
    ensures E.ExactProofs(prog, main.Visible(), current.items)
    ensures old(main.derived) <= main.derived && count == |main.derived| - |old(main.derived)|
  {
    hide LeastModel, Inv, Holds, E.ExactProofs;
    ghost var before := (main.asserted - inserted) + main.derived;
    ExactNoDup(prog, before, graph.items);
    var staging := graph.Clone();
    InvalidateNothing(prog, before, graph.items);
    InvalidateInserted(staging, inserted);
    if prog == [] {
      NothingToPropagate(prog, main.asserted, main.derived, inserted, graph.items);
      return 0, staging;
    }
    var strata, level := S.Stratify(prog);
    NegationFreeStrata(prog, level, strata);
    StartInv(prog, main.asserted - inserted, before, inserted);
    AddBack(main.asserted, main.derived, inserted);
    ghost var fired;
    count, fired := PropagateInsertions(prog, strata.value.rules, main, inserted, staging, before);
    InvDone(prog, main.asserted, before, main.Visible(), fired);
    UnchangedProofs(prog, before, main.Visible(), graph.items, staging.items, fired);
    current := staging;
  }

  /** Without rules nothing is derived and nothing is proved. */
  lemma NothingToPropagate(prog: Program, asserted: set<Triple>, derived: set<Triple>, inserted: set<Triple>,
                           items: seq<Justification>)
    requires prog == [] && inserted <= asserted && asserted !! derived
    requires LeastModel(prog, asserted - inserted, AsIset((asserted - inserted) + derived))
    requires E.ExactProofs(prog, (asserted - inserted) + derived, items)
    ensures derived == {} && LeastModel(prog, asserted, AsIset(asserted + derived))
    ensures E.ExactProofs(prog, asserted + derived, items)
  {
    var x := AsIset(asserted - inserted);
    assert ClosedUnder(prog, x) && Within(asserted - inserted, x);
    assert forall f | f in derived :: f in AsIset((asserted - inserted) + derived);
  }

  lemma ExactNoDup(prog: Program, model: set<Triple>, items: seq<Justification>)
    requires E.ExactProofs(prog, model, items)
    ensures NoDup(items)
  {
  }

  lemma AddBack(asserted: set<Triple>, derived: set<Triple>, inserted: set<Triple>)
    requires inserted <= asserted
    ensures (asserted - inserted) + inserted == asserted
    ensures ((asserted - inserted) + derived) + inserted == asserted + derived
  {
  }

  lemma NegationFreeStrata(prog: Program, level: map<Symbol, nat>, result: Option<S.Strata>)
    requires prog != [] && ConstantPredicates(prog) && !Negated(prog)
    requires result.None? <==> !S.HasConstantPredicate(prog) || S.NegCycle(prog)
    requires result.Some? ==> S.LeastLevels(prog, level) && S.StrataOf(prog, level, result.value)
    ensures result.Some? && forall r | 0 <= r < |prog| :: result.value.rules[r] == 0
  {
    E.SomeConstant(prog);
    S.NoNegCycle(prog);
    if result.Some? { S.OneStratum(prog, level, result.value); }
  }

  /** No proof of a negation-free program has a negated support. */
  lemma InvalidateNothing(prog: Program, model: set<Triple>, items: seq<Justification>)
    requires E.ExactProofs(prog, model, items) && !Negated(prog)
    ensures forall j, f | j in items :: !Uses(j, f, true)
  {
    forall j, f | j in items ensures !Uses(j, f, true) {
      var i :| Holds(prog, i, model, model) && j == Just(prog, i);
    }
  }
}
