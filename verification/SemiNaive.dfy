/** Semi-naive evaluation, one stratum at a time (facts_datalog_eval_locked in lib/eval.c). */
module SemiNaive {
  import opened Datalog
  import opened JustificationGraphs
  import opened RuleEval

  /** The head predicates of the rules in a stratum. */
  function IdbPreds(prog: Program, strata: seq<nat>, s: nat): set<Symbol> {
    set r | 0 <= r < |prog| && r < |strata| && strata[r] == s :: prog[r].head.p
  }

  /** What evaluation of stratum `s` relies on in the rules. */
  ghost predicate RulesReady(prog: Program, strata: seq<nat>, s: nat) {
    && |strata| == |prog| && ConstantPredicates(prog)
    && (forall r | r in prog :: Safe(r))
    && forall r, j | 0 <= r < |prog| && strata[r] == s && 0 <= j < |prog[r].body| && prog[r].body[j].negated ::
         prog[r].body[j].atom.p !in IdbPreds(prog, strata, s)
  }

  /** `base` has no facts of the stratum's own predicates. */
  ghost predicate StratumReady(prog: Program, strata: seq<nat>, s: nat, base: set<Triple>) {
    RulesReady(prog, strata, s) && forall f | f in base :: f.p !in IdbPreds(prog, strata, s)
  }

  /** The visible facts of other predicates: these are what the stratum reads. */
  function Readable(prog: Program, strata: seq<nat>, s: nat, visible: set<Triple>): set<Triple> {
    set f | f in visible && f.p !in IdbPreds(prog, strata, s)
  }

  /** Derived facts of its own predicates, left over from an earlier evaluation: these it neither reads nor finds again. */
  function Leftover(prog: Program, strata: seq<nat>, s: nat, derived: set<Triple>): set<Triple> {
    set f | f in derived && f.p in IdbPreds(prog, strata, s)
  }

  ghost predicate Sees(prog: Program, strata: seq<nat>, s: nat, base: set<Triple>, visible: set<Triple>) {
    base <= visible && forall f | f in visible :: f in base || f.p in IdbPreds(prog, strata, s)
  }

  /** Closed under the rules of the stratum, except that conclusions left over need not be there. */
  ghost predicate ClosedBut(prog: Program, strata: seq<nat>, s: nat, neg: set<Triple>, left: set<Triple>, x: iset<Triple>) {
    forall i: Inst | InStratum(strata, s, i) && IsInst(prog, i) ::
      Within(PosFacts(prog, i), x) && NegFacts(prog, i) !! neg ==> HeadOf(prog, i) in x || HeadOf(prog, i) in left
  }

  /** `m` is the least such set over `base`: what one finds without ever reading a leftover fact or finding it again. */
  ghost predicate LeastBut(prog: Program, strata: seq<nat>, s: nat, base: set<Triple>, left: set<Triple>, m: set<Triple>) {
    && base <= m
    && (forall i: Inst | InStratum(strata, s, i) && Holds(prog, i, m, base) :: HeadOf(prog, i) in m || HeadOf(prog, i) in left)
    && (forall x: iset<Triple> | Within(base, x) && ClosedBut(prog, strata, s, base, left, x) :: Within(m, x))
  }

  lemma LeastButNothing(prog: Program, strata: seq<nat>, s: nat, base: set<Triple>, m: set<Triple>)
    ensures LeastBut(prog, strata, s, base, {}, m) <==> LeastStratum(prog, strata, s, base, m)
  {
    forall x: iset<Triple> ensures ClosedBut(prog, strata, s, base, {}, x) <==> Closed(prog, strata, s, base, x) {
    }
  }

  lemma InstPreds(prog: Program, i: Inst)
    requires ConstantPredicates(prog) && IsInst(prog, i)
    ensures HeadOf(prog, i).p == prog[i.rule].head.p
    ensures forall j | 0 <= j < |prog[i.rule].body| ::
      Apply(prog[i.rule].body[j].atom, i.b).p == prog[i.rule].body[j].atom.p
  {
    assert prog[i.rule] in prog;
    assert forall x | x in i.b :: IsVar(x);
  }

  lemma HeadIsIdb(prog: Program, strata: seq<nat>, s: nat, i: Inst)
    requires ConstantPredicates(prog) && IsInst(prog, i) && InStratum(strata, s, i)
    ensures HeadOf(prog, i).p in IdbPreds(prog, strata, s)
  {
    InstPreds(prog, i);
  }

  function BodyFact(prog: Program, i: Inst, j: nat): Triple
    requires i.rule < |prog| && j < |prog[i.rule].body|
  {
    Apply(prog[i.rule].body[j].atom, i.b)
  }

  // ---- the finite universe that bounds the loop ----

  function Symbols(prog: Program, base: set<Triple>): set<Symbol> {
    (set r, t | r in prog && t in Terms(r.head) :: t) + (set f, t | f in base && t in Terms(f) :: t)
  }

  function Herbrand(symbols: set<Symbol>): (facts: set<Triple>)
    ensures forall f: Triple :: f in facts <==> f.s in symbols && f.p in symbols && f.o in symbols
  {
    set s, p, o | s in symbols && p in symbols && o in symbols :: Triple(s, p, o)
  }

  lemma HeadValue(prog: Program, symbols: set<Symbol>, i: Inst, t: Symbol)
    requires IsInst(prog, i) && Safe(prog[i.rule]) && PosFacts(prog, i) <= Herbrand(symbols)
    requires t in Terms(prog[i.rule].head) && (IsVar(t) || t in symbols)
    ensures Value(t, i.b) in symbols
  {
    hide Herbrand;
    assert IsVar(t) ==> t in Vars(prog[i.rule].head);
    if t in i.b {
      var body := prog[i.rule].body;
      var j :| 0 <= j < |body| && !body[j].negated && t in Vars(body[j].atom);
      assert BodyFact(prog, i, j) in Herbrand(symbols);
      TermInHerbrand(body[j].atom, i.b, symbols, t);
    }
  }

  lemma TermInHerbrand(a: Triple, b: Bindings, symbols: set<Symbol>, t: Symbol)
    requires Apply(a, b) in Herbrand(symbols) && t in Vars(a) && t in b
    ensures b[t] in symbols
  {
    assert t == a.s || t == a.p || t == a.o;
  }

  lemma HeadInHerbrand(prog: Program, base: set<Triple>, i: Inst)
    requires IsInst(prog, i) && Safe(prog[i.rule])
    requires PosFacts(prog, i) <= Herbrand(Symbols(prog, base))
    ensures HeadOf(prog, i) in Herbrand(Symbols(prog, base))
  {
    var head := prog[i.rule].head;
    assert prog[i.rule] in prog;
    assert forall t | t in Terms(head) :: t in Symbols(prog, base);
    HeadValue(prog, Symbols(prog, base), i, head.s);
    HeadValue(prog, Symbols(prog, base), i, head.p);
    HeadValue(prog, Symbols(prog, base), i, head.o);
  }

  // ---- iteration 0 ----

  /** Same-stratum subgoals read the empty old database, the others the whole database. */
  function SeedChoice(body: seq<Subgoal>, idb: set<Symbol>, visible: set<Triple>): seq<set<Triple>> {
    seq(|body|, j requires 0 <= j < |body| => if body[j].atom.p in idb then {} else visible)
  }

  lemma SeedMeaning(prog: Program, strata: seq<nat>, s: nat, base: set<Triple>, visible: set<Triple>, i: Inst)
    requires StratumReady(prog, strata, s, base) && Sees(prog, strata, s, base, visible) && InStratum(strata, s, i)
    ensures Fires(prog, i.rule, SeedChoice(prog[i.rule].body, IdbPreds(prog, strata, s), visible), visible, i)
            <==> Holds(prog, i, base, base)
  {
    var body := prog[i.rule].body;
    var choice := SeedChoice(body, IdbPreds(prog, strata, s), visible);
    if Holds(prog, i, base, base) {
      InstPreds(prog, i);
      forall j | 0 <= j < |body| && !body[j].negated ensures BodyFact(prog, i, j) in choice[j] {
        assert BodyFact(prog, i, j) in PosFacts(prog, i);
      }
      assert SatBody(body, choice, i.b);
      NegativesAreLower(prog, strata, s, base, visible, i);
    }
    if Fires(prog, i.rule, choice, visible, i) { InstPreds(prog, i); }
  }

  method SeedRule(prog: Program, strata: seq<nat>, s: nat, r: nat, visible: set<Triple>, derived: set<Triple>, target: set<Triple>,
                  staging: JustificationGraph, ghost base: set<Triple>) returns (after: set<Triple>, ghost fired: set<Inst>)
    requires StratumReady(prog, strata, s, base) && Sees(prog, strata, s, base, visible) && r < |prog| && strata[r] == s
    requires Stageable(staging)
    modifies staging
    ensures forall i :: i in fired <==> i.rule == r && Holds(prog, i, base, base)
    ensures after == target + (Heads(prog, fired) - derived)
    ensures Staged(staging, old(GraphItems(staging)), prog, fired)
  {
    after, fired := RunRule(prog, r, SeedChoice(prog[r].body, IdbPreds(prog, strata, s), visible),
                            visible, derived, {}, target, staging);
    forall i: Inst | i.rule == r { SeedMeaning(prog, strata, s, base, visible, i); }
  }

  /** Iteration 0: every application over the visible facts of other predicates. */
  method IterationZero(prog: Program, strata: seq<nat>, s: nat, visible: set<Triple>, derived: set<Triple>, staging: JustificationGraph,
                       ghost base: set<Triple>)
    returns (ok: bool, delta: set<Triple>, ghost fired: set<Inst>)
    requires StratumReady(prog, strata, s, base) && Sees(prog, strata, s, base, visible)
    requires Stageable(staging)
    modifies staging
    ensures ok <==> forall r | 0 <= r < |prog| && strata[r] == s :: HasPositive(prog[r])
    ensures ok ==> forall i :: i in fired <==> InStratum(strata, s, i) && Holds(prog, i, base, base)
    ensures ok ==> delta == Heads(prog, fired) - derived
    ensures Staged(staging, old(GraphItems(staging)), prog, fired)
  {
    hide Holds, GraphItems;
    ok, delta, fired := true, {}, {};
    for r := 0 to |prog|
      invariant ok && forall q | 0 <= q < r && strata[q] == s :: HasPositive(prog[q])
      invariant forall i :: i in fired <==> i.rule < r && InStratum(strata, s, i) && Holds(prog, i, base, base)
      invariant delta == Heads(prog, fired) - derived
      invariant Staged(staging, old(GraphItems(staging)), prog, fired)
    {
      if strata[r] == s {
        if !HasPositive(prog[r]) {
          ok := false;
          return;
        }
        ghost var before, items, more := delta, GraphItems(staging), {};
        delta, more := SeedRule(prog, strata, s, r, visible, derived, delta, staging, base);
        Accumulate(prog, {}, before, delta, fired, more, derived, {});
        AccumulateGraph(staging, old(GraphItems(staging)), items, prog, fired, more);
        fired := fired + more;
      }
    }
  }

  // ---- one semi-naive iteration ----

  /** The databases of one rule version: delta at the pivot, old before it, old and delta after it. */
  function VersionChoice(body: seq<Subgoal>, idb: set<Symbol>, pivot: nat, visible: set<Triple>,
                         oldDb: set<Triple>, delta: set<Triple>): seq<set<Triple>>
  {
    seq(|body|, j requires 0 <= j < |body| =>
      if body[j].atom.p !in idb then visible
      else if j == pivot then delta
      else if j < pivot then oldDb
      else oldDb + delta)
  }

  ghost predicate VersionFires(prog: Program, idb: set<Symbol>, pivot: nat, visible: set<Triple>, oldDb: set<Triple>,
                               delta: set<Triple>, i: Inst)
    requires i.rule < |prog|
  {
    && pivot < |prog[i.rule].body| && prog[i.rule].body[pivot].atom.p in idb
    && Fires(prog, i.rule, VersionChoice(prog[i.rule].body, idb, pivot, visible, oldDb, delta), visible, i)
  }

  ghost predicate SomeVersion(prog: Program, idb: set<Symbol>, n: nat, visible: set<Triple>, oldDb: set<Triple>,
                              delta: set<Triple>, i: Inst)
    requires i.rule < |prog|
  {
    exists v: nat :: v < n && VersionFires(prog, idb, v, visible, oldDb, delta, i)
  }

  /** The versions of one rule, one for each subgoal of the stratum's own predicates. */
  method RunVersions(prog: Program, idb: set<Symbol>, r: nat, visible: set<Triple>, derived: set<Triple>, oldDb: set<Triple>, delta: set<Triple>,
                     target: set<Triple>, staging: JustificationGraph)
    returns (after: set<Triple>, ghost fired: set<Inst>)
    requires r < |prog|
    requires Stageable(staging)
    modifies staging
    ensures forall i :: i in fired <==>
              i.rule == r && SomeVersion(prog, idb, |prog[r].body|, visible, oldDb, delta, i)
    ensures after == target + (Heads(prog, fired) - derived - oldDb)
    ensures Staged(staging, old(GraphItems(staging)), prog, fired)
  {
    hide SatBody, GraphItems, IdbPreds;
    after, fired := target, {};
    for pivot := 0 to |prog[r].body|
      invariant forall i :: i in fired <==> i.rule == r && SomeVersion(prog, idb, pivot, visible, oldDb, delta, i)
      invariant after == target + (Heads(prog, fired) - derived - oldDb)
      invariant Staged(staging, old(GraphItems(staging)), prog, fired)
    {
      if prog[r].body[pivot].atom.p in idb {
        ghost var before, items, more := after, GraphItems(staging), {};
        after, more := RunRule(prog, r, VersionChoice(prog[r].body, idb, pivot, visible, oldDb, delta),
                               visible, derived, oldDb, after, staging);
        assert forall i :: i in more <==> i.rule == r && VersionFires(prog, idb, pivot, visible, oldDb, delta, i);
        Accumulate(prog, target, before, after, fired, more, derived, oldDb);
        AccumulateGraph(staging, old(GraphItems(staging)), items, prog, fired, more);
        fired := fired + more;
      }
    }
  }

  ghost predicate RuleFires(prog: Program, strata: seq<nat>, s: nat, visible: set<Triple>, oldDb: set<Triple>,
                            delta: set<Triple>, i: Inst)
    requires i.rule < |prog|
  {
    SomeVersion(prog, IdbPreds(prog, strata, s), |prog[i.rule].body|, visible, oldDb, delta, i)
  }

  method Iteration(prog: Program, strata: seq<nat>, s: nat, visible: set<Triple>, derived: set<Triple>, oldDb: set<Triple>, delta: set<Triple>,
                   staging: JustificationGraph) returns (newDb: set<Triple>, ghost fired: set<Inst>)
    requires |strata| == |prog|
    requires Stageable(staging)
    modifies staging
    ensures forall i :: i in fired <==> InStratum(strata, s, i) && RuleFires(prog, strata, s, visible, oldDb, delta, i)
    ensures newDb == Heads(prog, fired) - derived - oldDb
    ensures Staged(staging, old(GraphItems(staging)), prog, fired)
  {
    newDb, fired := {}, {};
    for r := 0 to |prog|
      invariant forall i :: i in fired <==>
                  i.rule < r && InStratum(strata, s, i) && RuleFires(prog, strata, s, visible, oldDb, delta, i)
      invariant newDb == Heads(prog, fired) - derived - oldDb
      invariant Staged(staging, old(GraphItems(staging)), prog, fired)
    {
      if strata[r] == s {
        ghost var before, items, more := newDb, GraphItems(staging), {};
        newDb, more := RunVersions(prog, IdbPreds(prog, strata, s), r, visible, derived, oldDb, delta, newDb, staging);
        Accumulate(prog, {}, before, newDb, fired, more, derived, oldDb);
        AccumulateGraph(staging, old(GraphItems(staging)), items, prog, fired, more);
        fired := fired + more;
      }
    }
  }

  lemma VersionSound(prog: Program, strata: seq<nat>, s: nat, base: set<Triple>, visible: set<Triple>, oldDb: set<Triple>,
                     delta: set<Triple>, v: nat, i: Inst)
    requires StratumReady(prog, strata, s, base) && Sees(prog, strata, s, base, visible) && InStratum(strata, s, i)
    requires VersionFires(prog, IdbPreds(prog, strata, s), v, visible, oldDb, delta, i)
    ensures Holds(prog, i, base + oldDb + delta, base)
  {
    var body := prog[i.rule].body;
    InstPreds(prog, i);
    forall f | f in PosFacts(prog, i) ensures f in base + oldDb + delta {
      var j :| 0 <= j < |body| && !body[j].negated && f == Apply(body[j].atom, i.b);
      assert f.p == body[j].atom.p;
    }
  }

  /** Where each subgoal's fact lies once the first one outside base and prev is the pivot. */
  lemma ChoiceAt(prog: Program, strata: seq<nat>, s: nat, base: set<Triple>, prev: set<Triple>, oldDb: set<Triple>,
                 delta: set<Triple>, visible: set<Triple>, i: Inst, pivot: nat, j: nat)
    requires StratumReady(prog, strata, s, base) && base <= visible && InStratum(strata, s, i) && IsInst(prog, i)
    requires prev <= oldDb && prev + delta == oldDb + delta
    requires forall f | f in oldDb + delta :: f.p in IdbPreds(prog, strata, s)
    requires j < |prog[i.rule].body| && BodyFact(prog, i, j) in base + oldDb + delta
    requires j < pivot ==> BodyFact(prog, i, j) in base + prev
    requires j == pivot ==> BodyFact(prog, i, j) !in base + prev
    ensures BodyFact(prog, i, j) in
              VersionChoice(prog[i.rule].body, IdbPreds(prog, strata, s), pivot, visible, oldDb, delta)[j]
    ensures j == pivot ==> prog[i.rule].body[j].atom.p in IdbPreds(prog, strata, s)
  {
    InstPreds(prog, i);
    var f := BodyFact(prog, i, j);
    if f in base {
      assert f.p !in IdbPreds(prog, strata, s);
    } else {
      assert f in oldDb + delta;
    }
  }

  /** An application over base and prev + delta that is not one over base and prev is found by the version
      whose pivot is its first fact outside base and prev. */
  lemma VersionComplete(prog: Program, strata: seq<nat>, s: nat, base: set<Triple>, prev: set<Triple>,
                        oldDb: set<Triple>, delta: set<Triple>, visible: set<Triple>, i: Inst)
    requires StratumReady(prog, strata, s, base) && Sees(prog, strata, s, base, visible) && InStratum(strata, s, i)
    requires prev <= oldDb && prev + delta == oldDb + delta
    requires forall f | f in oldDb + delta :: f.p in IdbPreds(prog, strata, s)
    requires Holds(prog, i, base + oldDb + delta, base) && !(PosFacts(prog, i) <= base + prev)
    ensures RuleFires(prog, strata, s, visible, oldDb, delta, i)
  {
    var pivot := FirstOutside(prog, i, base + prev);
    var body := prog[i.rule].body;
    var choice := VersionChoice(body, IdbPreds(prog, strata, s), pivot, visible, oldDb, delta);
    forall j | 0 <= j < |body| && !body[j].negated ensures BodyFact(prog, i, j) in choice[j] {
      assert BodyFact(prog, i, j) in PosFacts(prog, i);
      ChoiceAt(prog, strata, s, base, prev, oldDb, delta, visible, i, pivot, j);
    }
    assert BodyFact(prog, i, pivot) in PosFacts(prog, i);
    ChoiceAt(prog, strata, s, base, prev, oldDb, delta, visible, i, pivot, pivot);
    assert SatBody(body, choice, i.b);
    NegativesAreLower(prog, strata, s, base, visible, i);
    assert VersionFires(prog, IdbPreds(prog, strata, s), pivot, visible, oldDb, delta, i);
  }

  lemma FirstOutside(prog: Program, i: Inst, known: set<Triple>) returns (pivot: nat)
    requires i.rule < |prog| && !(PosFacts(prog, i) <= known)
    ensures pivot < |prog[i.rule].body| && !prog[i.rule].body[pivot].negated && BodyFact(prog, i, pivot) !in known
    ensures forall j | 0 <= j < pivot && !prog[i.rule].body[j].negated :: BodyFact(prog, i, j) in known
  {
    var body := prog[i.rule].body;
    assert exists j :: 0 <= j < |body| && !body[j].negated && BodyFact(prog, i, j) !in known;
    pivot := 0;
    while body[pivot].negated || BodyFact(prog, i, pivot) in known
      invariant pivot < |body|
      invariant exists j :: pivot <= j < |body| && !body[j].negated && BodyFact(prog, i, j) !in known
      invariant forall j | 0 <= j < pivot && !body[j].negated :: BodyFact(prog, i, j) in known
      decreases |body| - pivot
    {
      pivot := pivot + 1;
    }
  }

  /** The stratum's own facts never decide a negated subgoal. */
  lemma NegativesAreLower(prog: Program, strata: seq<nat>, s: nat, base: set<Triple>, visible: set<Triple>, i: Inst)
    requires StratumReady(prog, strata, s, base) && InStratum(strata, s, i) && IsInst(prog, i)
    requires forall f | f in visible :: f in base || f.p in IdbPreds(prog, strata, s)
    requires NegFacts(prog, i) !! base
    ensures NegFacts(prog, i) !! visible
  {
    InstPreds(prog, i);
    var body := prog[i.rule].body;
    forall f | f in NegFacts(prog, i) ensures f !in visible {
      var j :| 0 <= j < |body| && body[j].negated && f == Apply(body[j].atom, i.b);
    }
  }

  /** The state of one stratum's evaluation: every application over `base` and `prev` has fired, the facts
      found so far are the heads of what fired that were not left over, and they are in every closed set. */
  ghost predicate Inv(prog: Program, strata: seq<nat>, s: nat, base: set<Triple>, left: set<Triple>, prev: set<Triple>,
                      oldDb: set<Triple>, delta: set<Triple>, fired: set<Inst>)
  {
    && prev <= oldDb && prev + delta == oldDb + delta
    && (forall i | i in fired :: InStratum(strata, s, i) && Holds(prog, i, base + oldDb + delta, base))
    && (forall i: Inst | InStratum(strata, s, i) && Holds(prog, i, base + prev, base) :: i in fired)
    && Heads(prog, fired) - left == oldDb + delta
    && (forall x: iset<Triple> | Within(base, x) && ClosedBut(prog, strata, s, base, left, x) :: Within(oldDb + delta, x))
  }

  lemma HeadsAreIdb(prog: Program, strata: seq<nat>, s: nat, base: set<Triple>, insts: set<Inst>)
    requires StratumReady(prog, strata, s, base)
    requires forall i | i in insts :: InStratum(strata, s, i) && IsInst(prog, i)
    ensures forall f | f in Heads(prog, insts) :: f.p in IdbPreds(prog, strata, s)
  {
    forall f | f in Heads(prog, insts) ensures f.p in IdbPreds(prog, strata, s) {
      var i :| i in insts && i.rule < |prog| && f == HeadOf(prog, i);
      HeadIsIdb(prog, strata, s, i);
    }
  }

  lemma HeadsBounded(prog: Program, strata: seq<nat>, s: nat, base: set<Triple>, own: set<Triple>, insts: set<Inst>)
    requires StratumReady(prog, strata, s, base) && own <= Herbrand(Symbols(prog, base))
    requires forall i | i in insts :: Holds(prog, i, base + own, base)
    ensures Heads(prog, insts) <= Herbrand(Symbols(prog, base))
  {
    assert base <= Herbrand(Symbols(prog, base)) by {
      forall f | f in base ensures f in Herbrand(Symbols(prog, base)) {
        assert f.s in Terms(f) && f.p in Terms(f) && f.o in Terms(f);
      }
    }
    forall f | f in Heads(prog, insts) ensures f in Herbrand(Symbols(prog, base)) {
      var i :| i in insts && i.rule < |prog| && f == HeadOf(prog, i);
      assert prog[i.rule] in prog;
      HeadInHerbrand(prog, base, i);
    }
  }

  lemma Monotone(prog: Program, i: Inst, a: set<Triple>, b: set<Triple>, neg: set<Triple>)
    requires Holds(prog, i, a, neg) && a <= b
    ensures Holds(prog, i, b, neg)
  {
  }

  /** What fired over facts of every closed set adds only facts of every closed set. */
  lemma HeadsInEveryModel(prog: Program, strata: seq<nat>, s: nat, base: set<Triple>, left: set<Triple>, own: set<Triple>,
                          fired: set<Inst>)
    requires forall i | i in fired :: InStratum(strata, s, i) && Holds(prog, i, base + own, base)
    requires forall x: iset<Triple> | Within(base, x) && ClosedBut(prog, strata, s, base, left, x) :: Within(own, x)
    ensures forall x: iset<Triple> | Within(base, x) && ClosedBut(prog, strata, s, base, left, x) ::
              Within(Heads(prog, fired) - left, x)
  {
    forall x: iset<Triple>, f | Within(base, x) && ClosedBut(prog, strata, s, base, left, x) && f in Heads(prog, fired) - left
      ensures f in x
    {
      var i :| i in fired && i.rule < |prog| && f == HeadOf(prog, i);
      assert Within(own, x);
      assert Within(PosFacts(prog, i), x);
    }
  }

  lemma MoreHolds(prog: Program, strata: seq<nat>, s: nat, base: set<Triple>, visible: set<Triple>, oldDb: set<Triple>,
                  delta: set<Triple>, i: Inst)
    requires StratumReady(prog, strata, s, base) && Sees(prog, strata, s, base, visible) && InStratum(strata, s, i)
    requires RuleFires(prog, strata, s, visible, oldDb, delta, i)
    ensures Holds(prog, i, base + oldDb + delta, base)
  {
    var v: nat :| VersionFires(prog, IdbPreds(prog, strata, s), v, visible, oldDb, delta, i);
    VersionSound(prog, strata, s, base, visible, oldDb, delta, v, i);
  }

  /** One iteration re-establishes the invariant with everything found so far as `prev`. */
  lemma StepInv(prog: Program, strata: seq<nat>, s: nat, base: set<Triple>, left: set<Triple>, visible: set<Triple>,
                prev: set<Triple>, oldDb: set<Triple>, delta: set<Triple>, newDb: set<Triple>, fired: set<Inst>, more: set<Inst>)
    requires StratumReady(prog, strata, s, base) && Sees(prog, strata, s, base, visible)
    requires Inv(prog, strata, s, base, left, prev, oldDb, delta, fired)
    requires forall i :: i in more <==>
               InStratum(strata, s, i) && i.rule < |prog| && RuleFires(prog, strata, s, visible, oldDb, delta, i)
    requires newDb == Heads(prog, more) - left - (oldDb + delta)
    ensures Inv(prog, strata, s, base, left, oldDb + delta, oldDb + delta, newDb, fired + more)
  {
    var own := oldDb + delta;
    HeadsAreIdb(prog, strata, s, base, fired);
    assert base + oldDb + delta == base + own;
    forall i | i in more ensures InStratum(strata, s, i) && Holds(prog, i, base + own, base) {
      MoreHolds(prog, strata, s, base, visible, oldDb, delta, i);
    }
    forall i: Inst | InStratum(strata, s, i) && Holds(prog, i, base + own, base) ensures i in fired + more {
      if !(PosFacts(prog, i) <= base + prev) {
        VersionComplete(prog, strata, s, base, prev, oldDb, delta, visible, i);
      }
    }
    Reassemble(prog, strata, s, base, left, own, newDb, fired, more);
  }

  lemma Reassemble(prog: Program, strata: seq<nat>, s: nat, base: set<Triple>, left: set<Triple>, own: set<Triple>,
                   newDb: set<Triple>, fired: set<Inst>, more: set<Inst>)
    requires forall i | i in fired + more :: InStratum(strata, s, i) && Holds(prog, i, base + own, base)
    requires forall i: Inst | InStratum(strata, s, i) && Holds(prog, i, base + own, base) :: i in fired + more
    requires Heads(prog, fired) - left == own && newDb == Heads(prog, more) - left - own
    requires forall x: iset<Triple> | Within(base, x) && ClosedBut(prog, strata, s, base, left, x) :: Within(own, x)
    ensures Inv(prog, strata, s, base, left, own, own, newDb, fired + more)
  {
    HeadsInEveryModel(prog, strata, s, base, left, own, more);
    forall i | i in fired + more ensures Holds(prog, i, base + own + newDb, base) {
      Monotone(prog, i, base + own, base + own + newDb, base);
    }
    ImagesOfUnion(prog, fired, more);
  }

  lemma SeedInv(prog: Program, strata: seq<nat>, s: nat, base: set<Triple>, left: set<Triple>, derived: set<Triple>,
                delta: set<Triple>, fired: set<Inst>)
    requires StratumReady(prog, strata, s, base) && left <= derived <= base + left
    requires forall i :: i in fired <==> InStratum(strata, s, i) && Holds(prog, i, base, base)
    requires delta == Heads(prog, fired) - derived
    ensures Inv(prog, strata, s, base, left, {}, delta, delta, fired)
    ensures (forall f | f in delta :: f.p in IdbPreds(prog, strata, s)) && delta <= Herbrand(Symbols(prog, base))
  {
    HeadsAreIdb(prog, strata, s, base, fired);
    assert base + {} == base;
    HeadsBounded(prog, strata, s, base, {}, fired);
    assert Heads(prog, fired) - left == delta;
    HeadsInEveryModel(prog, strata, s, base, left, {}, fired);
    forall i | i in fired ensures Holds(prog, i, base + delta + delta, base) {
      Monotone(prog, i, base, base + delta + delta, base);
    }
  }

  /** The callback's check against derived facts leaves out nothing new. */
  lemma NewAgainstDerived(prog: Program, strata: seq<nat>, s: nat, base: set<Triple>, left: set<Triple>, lower: set<Triple>,
                          oldDb: set<Triple>, delta: set<Triple>, more: set<Inst>)
    requires StratumReady(prog, strata, s, base) && left <= lower <= base + left
    requires forall i | i in more :: InStratum(strata, s, i) && IsInst(prog, i)
    ensures Heads(prog, more) - (lower + oldDb + delta) - oldDb == Heads(prog, more) - left - (oldDb + delta)
  {
    HeadsAreIdb(prog, strata, s, base, more);
  }

  lemma StratumDone(prog: Program, strata: seq<nat>, s: nat, base: set<Triple>, left: set<Triple>, own: set<Triple>,
                    fired: set<Inst>)
    requires Inv(prog, strata, s, base, left, own, own, {}, fired)
    ensures LeastBut(prog, strata, s, base, left, base + own) && Heads(prog, fired) - left == own
    ensures forall i :: i in fired <==> InStratum(strata, s, i) && Holds(prog, i, base + own, base)
  {
    assert own + {} == own && base + own + {} == base + own;
    forall i: Inst | InStratum(strata, s, i) && Holds(prog, i, base + own, base) ensures HeadOf(prog, i) in base + own + left {
      assert i in fired;
      assert HeadOf(prog, i) in Heads(prog, fired);
    }
    forall x: iset<Triple> | Within(base, x) && ClosedBut(prog, strata, s, base, left, x) ensures Within(base + own, x) {
      assert Within(own, x);
    }
  }

  lemma Measure(universe: set<Triple>, a: set<Triple>, b: set<Triple>)
    requires a <= universe && b <= universe && b != {} && a !! b
    ensures |universe - (a + b)| < |universe - a|
  {
    assert universe - a == (universe - (a + b)) + b;
  }

  lemma StepFacts(prog: Program, strata: seq<nat>, s: nat, base: set<Triple>, left: set<Triple>, visible: set<Triple>,
                  lower: set<Triple>, prev: set<Triple>, oldDb: set<Triple>, delta: set<Triple>, newDb: set<Triple>,
                  fired: set<Inst>, more: set<Inst>)
    requires StratumReady(prog, strata, s, base) && Sees(prog, strata, s, base, visible)
    requires Inv(prog, strata, s, base, left, prev, oldDb, delta, fired)
    requires left <= lower <= base + left && oldDb + delta <= Herbrand(Symbols(prog, base))
    requires forall i :: i in more <==>
               InStratum(strata, s, i) && i.rule < |prog| && RuleFires(prog, strata, s, visible, oldDb, delta, i)
    requires newDb == Heads(prog, more) - (lower + oldDb + delta) - oldDb
    ensures Inv(prog, strata, s, base, left, oldDb + delta, oldDb + delta, newDb, fired + more)
    ensures newDb <= Herbrand(Symbols(prog, base)) && newDb !! oldDb + delta
  {
    hide Inv, StratumReady, RuleFires, Sees;
    forall i | i in more ensures Holds(prog, i, base + (oldDb + delta), base) {
      MoreHolds(prog, strata, s, base, visible, oldDb, delta, i);
      assert base + oldDb + delta == base + (oldDb + delta);
    }
    NewAgainstDerived(prog, strata, s, base, left, lower, oldDb, delta, more);
    HeadsBounded(prog, strata, s, base, oldDb + delta, more);
    StepInv(prog, strata, s, base, left, visible, prev, oldDb, delta, newDb, fired, more);
  }

  lemma UnionAssoc(a: set<Triple>, b: set<Triple>, c: set<Triple>)
    ensures (a + b) + c == a + (b + c)
  {
  }

  method Turn(prog: Program, strata: seq<nat>, s: nat, visible: set<Triple>, derived: set<Triple>, oldDb: set<Triple>, delta: set<Triple>,
              staging: JustificationGraph, ghost base: set<Triple>, ghost left: set<Triple>, ghost lower: set<Triple>, ghost prev: set<Triple>,
              ghost fired: set<Inst>, ghost items: set<Justification>)
    returns (newDb: set<Triple>, ghost now: set<Inst>)
    requires StratumReady(prog, strata, s, base) && Sees(prog, strata, s, base, visible)
    requires Inv(prog, strata, s, base, left, prev, oldDb, delta, fired)
    requires left <= lower <= base + left && oldDb + delta <= Herbrand(Symbols(prog, base))
    requires derived == lower + oldDb + delta
    requires Staged(staging, items, prog, fired)
    modifies staging
    ensures Inv(prog, strata, s, base, left, oldDb + delta, oldDb + delta, newDb, now)
    ensures newDb <= Herbrand(Symbols(prog, base)) && newDb !! oldDb + delta
    ensures Staged(staging, items, prog, now)
  {
    ghost var before, more := GraphItems(staging), {};
    newDb, more := Iteration(prog, strata, s, visible, derived, oldDb, delta, staging);
    AccumulateGraph(staging, items, before, prog, fired, more);
    StepFacts(prog, strata, s, base, left, visible, lower, prev, oldDb, delta, newDb, fired, more);
    now := fired + more;
  }

  /** The derived support is what was there before the stratum and what it has found, over its own predicates. */
  ghost predicate At(prog: Program, strata: seq<nat>, s: nat, asserted: set<Triple>, derived: set<Triple>, base: set<Triple>,
                     lower: set<Triple>, own: set<Triple>)
  {
    derived == lower + own && Sees(prog, strata, s, base, asserted + derived)
  }

  lemma AtStart(prog: Program, strata: seq<nat>, s: nat, asserted: set<Triple>, derived: set<Triple>)
    ensures At(prog, strata, s, asserted, derived, Readable(prog, strata, s, asserted + derived), derived, {})
  {
  }

  lemma AtMerged(prog: Program, strata: seq<nat>, s: nat, asserted: set<Triple>, derived: set<Triple>, base: set<Triple>,
                 lower: set<Triple>, own: set<Triple>, newDb: set<Triple>)
    requires At(prog, strata, s, asserted, derived, base, lower, own)
    requires forall f | f in newDb :: f.p in IdbPreds(prog, strata, s)
    ensures At(prog, strata, s, asserted, derived + newDb, base, lower, own + newDb)
  {
    hide IdbPreds;
    UnionAssoc(lower, own, newDb);
  }

  lemma AtOldDelta(prog: Program, strata: seq<nat>, s: nat, asserted: set<Triple>, derived: set<Triple>, base: set<Triple>,
                   lower: set<Triple>, own: set<Triple>, oldDb: set<Triple>, delta: set<Triple>)
    requires At(prog, strata, s, asserted, derived, base, lower, own) && own == oldDb + delta
    ensures derived == lower + oldDb + delta && Sees(prog, strata, s, base, asserted + derived)
  {
  }

  /** The while loop of one stratum, entered after iteration 0 was merged. */
  method FixpointLoop(prog: Program, strata: seq<nat>, s: nat, main: Facts, seed: set<Triple>,
                      staging: JustificationGraph, ghost base: set<Triple>, ghost left: set<Triple>, ghost lower: set<Triple>,
                      ghost seedFired: set<Inst>, ghost items: set<Justification>)
    returns (count: nat, ghost own: set<Triple>, ghost fired: set<Inst>)
    requires StratumReady(prog, strata, s, base) && left <= lower <= base + left
    requires Inv(prog, strata, s, base, left, {}, seed, seed, seedFired) && seed <= Herbrand(Symbols(prog, base))
    requires At(prog, strata, s, main.asserted, main.derived, base, lower, seed)
    requires Staged(staging, items, prog, seedFired)
    modifies main`derived
    modifies staging
    ensures Inv(prog, strata, s, base, left, own, own, {}, fired)
    ensures main.derived == lower + own
    ensures count == |main.derived| - |old(main.derived)|
    ensures Staged(staging, items, prog, fired)
  {
    hide Inv, StratumReady, Staged, Symbols, Sees;
    var oldDb, delta := seed, seed;
    ghost var prev: set<Triple> := {};
    fired, own, count := seedFired, seed, 0;
    ghost var size, universe := |main.derived|, Herbrand(Symbols(prog, base));
    ghost var asserted, derived := main.asserted, main.derived;
    while true
      invariant Inv(prog, strata, s, base, left, prev, oldDb, delta, fired)
      invariant own == oldDb + delta && own <= universe
      invariant main.asserted == asserted && main.derived == derived && At(prog, strata, s, asserted, derived, base, lower, own)
      invariant count == |derived| - size
      invariant Staged(staging, items, prog, fired)
      decreases |universe - own|
    {
      AtOldDelta(prog, strata, s, asserted, derived, base, lower, own, oldDb, delta);
      var newDb;
      newDb, fired := Turn(prog, strata, s, main.Visible(), main.derived, oldDb, delta, staging, base, left, lower, prev, fired, items);
      assert main.derived == derived && main.asserted == asserted;
      if newDb == {} { return; }
      Measure(universe, own, newDb);
      FoundIsIdb(prog, strata, s, base, left, own, own, newDb, fired);
      AtMerged(prog, strata, s, asserted, derived, base, lower, own, newDb);
      oldDb := oldDb + delta;
      delta := newDb;
      prev := oldDb;
      var merged := main.MergeDerived(newDb);
      own, derived := own + newDb, derived + newDb;
      count := count + merged;
    }
  }

  lemma FoundIsIdb(prog: Program, strata: seq<nat>, s: nat, base: set<Triple>, left: set<Triple>, prev: set<Triple>,
                   oldDb: set<Triple>, delta: set<Triple>, fired: set<Inst>)
    requires StratumReady(prog, strata, s, base) && Inv(prog, strata, s, base, left, prev, oldDb, delta, fired)
    ensures forall f | f in oldDb + delta :: f.p in IdbPreds(prog, strata, s)
  {
    HeadsAreIdb(prog, strata, s, base, fired);
  }

  /** What evaluating one stratum does to the derived support: it reads the facts of the other predicates, and adds
      what follows from them without the leftovers of its own predicates; `fired` is what it applied. */
  ghost predicate Evaluates(prog: Program, strata: seq<nat>, s: nat, visible: set<Triple>, derived: set<Triple>,
                            after: set<Triple>, fired: set<Inst>)
  {
    var base := Readable(prog, strata, s, visible);
    && derived <= after
    && LeastBut(prog, strata, s, base, Leftover(prog, strata, s, derived), base + (after - derived))
    && (forall i :: i in fired <==> InStratum(strata, s, i) && Holds(prog, i, base + (after - derived), base))
    && after == derived + Heads(prog, fired)
  }

  lemma LeftoverIsDerived(prog: Program, strata: seq<nat>, s: nat, asserted: set<Triple>, derived: set<Triple>)
    requires RulesReady(prog, strata, s)
    ensures var base, left := Readable(prog, strata, s, asserted + derived), Leftover(prog, strata, s, derived);
            && left <= derived <= base + left && StratumReady(prog, strata, s, base)
            && Sees(prog, strata, s, base, asserted + derived)
  {
  }

  lemma StratumEvaluated(prog: Program, strata: seq<nat>, s: nat, asserted: set<Triple>, derived: set<Triple>,
                         own: set<Triple>, fired: set<Inst>)
    requires RulesReady(prog, strata, s)
    requires Inv(prog, strata, s, Readable(prog, strata, s, asserted + derived), Leftover(prog, strata, s, derived),
                 own, own, {}, fired)
    ensures Evaluates(prog, strata, s, asserted + derived, derived, derived + own, fired)
  {
    hide Inv, LeastBut, RulesReady;
    var base, left := Readable(prog, strata, s, asserted + derived), Leftover(prog, strata, s, derived);
    LeftoverIsDerived(prog, strata, s, asserted, derived);
    StratumDone(prog, strata, s, base, left, own, fired);
    HeadsAreIdb(prog, strata, s, base, fired);
    assert own !! derived;
    assert (derived + own) - derived == own;
  }

  /** One stratum, whatever support is there already. */
  method EvalStratum(prog: Program, strata: seq<nat>, s: nat, main: Facts, staging: JustificationGraph)
    returns (ok: bool, count: nat, ghost fired: set<Inst>)
    requires RulesReady(prog, strata, s)
    requires Stageable(staging)
    modifies main`derived
    modifies staging
    ensures ok <==> forall r | 0 <= r < |prog| && strata[r] == s :: HasPositive(prog[r])
    ensures ok ==> Evaluates(prog, strata, s, old(main.Visible()), old(main.derived), main.derived, fired)
    ensures ok ==> count == |main.derived| - |old(main.derived)|
    ensures ok ==> Staged(staging, old(GraphItems(staging)), prog, fired)
  {
    hide Inv, StratumReady, RulesReady, Staged, Heads, Holds, Symbols, Evaluates, Sees, Readable, Leftover;
    count := 0;
    ghost var asserted, lower, items := main.asserted, main.derived, GraphItems(staging);
    ghost var base, left := Readable(prog, strata, s, asserted + lower), Leftover(prog, strata, s, lower);
    LeftoverIsDerived(prog, strata, s, asserted, lower);
    var delta;
    ok, delta, fired := IterationZero(prog, strata, s, main.Visible(), main.derived, staging, base);
    if !ok { return; }
    SeedInv(prog, strata, s, base, left, lower, delta, fired);
    if delta == {} {
      StratumEvaluated(prog, strata, s, asserted, lower, {}, fired);
      assert lower + {} == lower;
      return;
    }
    AtStart(prog, strata, s, asserted, lower);
    AtMerged(prog, strata, s, asserted, lower, base, lower, {}, delta);
    var merged := main.MergeDerived(delta);
    ghost var own;
    assert {} + delta == delta;
    count, own, fired := FixpointLoop(prog, strata, s, main, delta, staging, base, left, lower, fired, items);
    count := count + merged;
    StratumEvaluated(prog, strata, s, asserted, lower, own, fired);
  }
}
