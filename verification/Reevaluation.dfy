/** Evaluation over support that is there already (facts_datalog_eval in lib/eval.c): rules never read a fact of their
    own stratum that was there before, and never derive one again. */
module Reevaluation {
  import opened Datalog
  import opened JustificationGraphs
  import opened RuleEval
  import E = Evaluation
  import S = Stratify
  import SN = SemiNaive

  // ---- over a state with nothing to derive ----

  /** Every true application over the visible facts has its head derived and its proof recorded already. */
  ghost predicate Saturated(prog: Program, visible: set<Triple>, derived: set<Triple>, items: set<Justification>) {
    forall i | Holds(prog, i, visible, visible) :: HeadOf(prog, i) in derived && Just(prog, i) in items
  }

  lemma SaturatedApplication(prog: Program, strata: seq<nat>, s: nat, visible: set<Triple>, derived: set<Triple>,
                             items: set<Justification>, i: Inst)
    requires SN.RulesReady(prog, strata, s) && Saturated(prog, visible, derived, items) && InStratum(strata, s, i)
    requires var base := SN.Readable(prog, strata, s, visible); Holds(prog, i, base, base)
    ensures HeadOf(prog, i) in SN.Leftover(prog, strata, s, derived) && Just(prog, i) in items
  {
    SN.NegativesAreLower(prog, strata, s, SN.Readable(prog, strata, s, visible), visible, i);
    assert Holds(prog, i, visible, visible);
    SN.HeadIsIdb(prog, strata, s, i);
  }

  lemma SaturatedStratum(prog: Program, strata: seq<nat>, s: nat, edb: set<Triple>, derived: set<Triple>, after: set<Triple>,
                         fired: set<Inst>, items: set<Justification>)
    requires SN.RulesReady(prog, strata, s) && Saturated(prog, edb + derived, derived, items)
    requires SN.Evaluates(prog, strata, s, edb + derived, derived, after, fired)
    ensures after == derived && Justs(prog, fired) <= items
  {
    hide SN.RulesReady, Saturated, SN.Readable, SN.Leftover;
    var base, left := SN.Readable(prog, strata, s, edb + derived), SN.Leftover(prog, strata, s, derived);
    var x := AsIset(base);
    forall i: Inst | InStratum(strata, s, i) && IsInst(prog, i) && Within(PosFacts(prog, i), x) && NegFacts(prog, i) !! base
      ensures HeadOf(prog, i) in left
    {
      assert PosFacts(prog, i) <= base;
      SaturatedApplication(prog, strata, s, edb + derived, derived, items, i);
    }
    assert SN.ClosedBut(prog, strata, s, base, left, x);
    assert base + (after - derived) == base;
    forall i | i in fired ensures HeadOf(prog, i) in derived && Just(prog, i) in items {
      SaturatedApplication(prog, strata, s, edb + derived, derived, items, i);
      LeftoverIn(prog, strata, s, derived);
    }
  }

  lemma LeftoverIn(prog: Program, strata: seq<nat>, s: nat, derived: set<Triple>)
    ensures SN.Leftover(prog, strata, s, derived) <= derived
  {
  }

  lemma {:induction false} SaturatedSteps(prog: Program, strata: seq<nat>, n: nat, edb: set<Triple>, chain: seq<set<Triple>>,
                                          fired: set<Inst>, items: set<Justification>)
    requires E.SafeRules(prog) && E.Stratified(prog, strata) && E.Steps(prog, strata, n, edb, chain, fired)
    requires Saturated(prog, edb + chain[0], chain[0], items)
    ensures chain[n] == chain[0] && Justs(prog, fired) <= items
  {
    hide Saturated, SN.Evaluates;
    if n == 0 {
      assert fired == {};
    } else {
      var lower := E.PreviousSteps(prog, strata, n, edb, chain, fired);
      SaturatedSteps(prog, strata, n - 1, edb, chain[..n], lower, items);
      E.RulesAreReady(prog, strata, n - 1);
      SaturatedStratum(prog, strata, n - 1, edb, chain[0], chain[n], E.Part(strata, n - 1, fired), items);
      ImagesOfUnion(prog, lower, E.Part(strata, n - 1, fired));
    }
  }

  /** Over a saturated state evaluation changes nothing, and the proofs it stages are recorded already. */
  lemma OverSaturated(prog: Program, edb: set<Triple>, derived: set<Triple>, after: set<Triple>, fired: set<Inst>,
                      items: set<Justification>)
    requires E.SafeRules(prog) && E.EvaluatedFrom(prog, edb, derived, after, fired)
    requires Saturated(prog, edb + derived, derived, items)
    ensures after == derived && Justs(prog, fired) <= items
  {
    hide Saturated, SN.Evaluates, S.LeastLevels, S.StrataOf;
    var strata, chain :|
      && E.LeastStrata(prog, strata) && E.Steps(prog, strata.rules, strata.count, edb, chain, fired)
      && chain[0] == derived && chain[strata.count] == after;
    var level :| S.LeastLevels(prog, level) && S.StrataOf(prog, level, strata);
    E.LevelsStratify(prog, level, strata);
    SaturatedSteps(prog, strata.rules, strata.count, edb, chain, fired, items);
  }

  // ---- over any state: when the result is the perfect model ----

  /** What a stratum should derive beyond the supported facts follows without reading a supported fact of its own
      predicates. */
  ghost predicate Recoverable(prog: Program, strata: seq<nat>, s: nat, edb: set<Triple>, derived: set<Triple>,
                              below: set<Triple>, model: set<Triple>)
  {
    var base := SN.Readable(prog, strata, s, below);
    forall x: iset<Triple>, f | Within(base, x) && SN.ClosedBut(prog, strata, s, base, SN.Leftover(prog, strata, s, derived), x)
                                && f in model ::
      f in x || f in edb + derived
  }

  ghost predicate Above(prog: Program, strata: seq<nat>, a: nat, b: nat, facts: set<Triple>) {
    forall f | f in facts :: E.DefinedIn(prog, strata, a, b, f)
  }

  /** Facts that only higher strata define make no difference to what a stratum derives. */
  lemma HigherIsUnread(prog: Program, strata: seq<nat>, s: nat, n: nat, higher: set<Triple>, i: Inst, j: nat)
    requires ConstantPredicates(prog) && E.Stratified(prog, strata) && Above(prog, strata, s + 1, n, higher)
    requires InStratum(strata, s, i) && IsInst(prog, i) && j < |prog[i.rule].body|
    ensures Apply(prog[i.rule].body[j].atom, i.b) !in higher
  {
    if Apply(prog[i.rule].body[j].atom, i.b) in higher {
      E.SubgoalStratum(prog, strata, i, j, s + 1, n);
    }
  }

  lemma SameWithoutHigher(prog: Program, strata: seq<nat>, s: nat, n: nat, base: set<Triple>, higher: set<Triple>,
                          left: set<Triple>, x: iset<Triple>)
    requires ConstantPredicates(prog) && E.Stratified(prog, strata) && Above(prog, strata, s + 1, n, higher)
    requires SN.ClosedBut(prog, strata, s, base, left, x)
    ensures SN.ClosedBut(prog, strata, s, base + higher, left, x + AsIset(higher))
  {
    forall i: Inst | InStratum(strata, s, i) && IsInst(prog, i) && Within(PosFacts(prog, i), x + AsIset(higher))
                     && NegFacts(prog, i) !! base + higher
      ensures HeadOf(prog, i) in x || HeadOf(prog, i) in left
    {
      forall f | f in PosFacts(prog, i) ensures f in x {
        var j :| 0 <= j < |prog[i.rule].body| && f == Apply(prog[i.rule].body[j].atom, i.b);
        HigherIsUnread(prog, strata, s, n, higher, i, j);
      }
    }
  }

  /** A perfect chain only grows, each stratum by facts of its own predicates. */
  lemma ModelStep(prog: Program, strata: seq<nat>, s: nat, base: set<Triple>, m: set<Triple>)
    requires ConstantPredicates(prog) && E.Stratified(prog, strata) && LeastStratum(prog, strata, s, base, m)
    ensures base <= m && Above(prog, strata, s, s + 1, m - base)
  {
    var x := iset f | f in m && (f in base || E.DefinedIn(prog, strata, s, s + 1, f));
    forall i: Inst | InStratum(strata, s, i) && IsInst(prog, i) && Within(PosFacts(prog, i), x) && NegFacts(prog, i) !! base
      ensures HeadOf(prog, i) in x
    {
      assert PosFacts(prog, i) <= m;
      assert Holds(prog, i, m, base);
      SN.InstPreds(prog, i);
    }
    assert Closed(prog, strata, s, base, x) && Within(base, x);
    assert Within(m, x);
  }

  lemma {:induction false} ModelGrows(prog: Program, strata: seq<nat>, n: nat, edb: set<Triple>, c: seq<set<Triple>>,
                                      a: nat, b: nat)
    requires ConstantPredicates(prog) && E.Stratified(prog, strata) && PerfectChain(prog, strata, n, edb, c) && a <= b <= n
    ensures c[a] <= c[b] && Above(prog, strata, a, b, c[b] - c[a])
    decreases b - a
  {
    hide LeastStratum;
    if a < b {
      ModelGrows(prog, strata, n, edb, c, a, b - 1);
      ModelStep(prog, strata, b - 1, c[b - 1], c[b]);
      forall f | f in c[b] - c[a] ensures E.DefinedIn(prog, strata, a, b, f) {
        if f in c[b - 1] {
          E.DefinedWider(prog, strata, a, b - 1, a, b, f);
        } else {
          E.DefinedWider(prog, strata, b - 1, b, a, b, f);
        }
      }
    }
  }

  lemma OwnFacts(prog: Program, strata: seq<nat>, s: nat, visible: set<Triple>, derived: set<Triple>, after: set<Triple>,
                 fired: set<Inst>)
    requires ConstantPredicates(prog) && E.Stratified(prog, strata) && SN.Evaluates(prog, strata, s, visible, derived, after, fired)
    ensures derived <= after && Above(prog, strata, s, s + 1, after - derived)
  {
    forall f | f in after - derived ensures E.DefinedIn(prog, strata, s, s + 1, f) {
      assert f in Heads(prog, fired);
      var i :| i in fired && i.rule < |prog| && f == HeadOf(prog, i);
      SN.InstPreds(prog, i);
    }
  }

  lemma {:induction false} SupportGrows(prog: Program, strata: seq<nat>, n: nat, edb: set<Triple>, chain: seq<set<Triple>>,
                                        fired: set<Inst>, a: nat, b: nat)
    requires ConstantPredicates(prog) && E.Stratified(prog, strata) && E.Steps(prog, strata, n, edb, chain, fired) && a <= b <= n
    ensures chain[a] <= chain[b] && Above(prog, strata, a, b, chain[b] - chain[a])
    decreases b - a
  {
    hide SN.Evaluates;
    if a < b {
      SupportGrows(prog, strata, n, edb, chain, fired, a, b - 1);
      OwnFacts(prog, strata, b - 1, edb + chain[b - 1], chain[b - 1], chain[b], E.Part(strata, b - 1, fired));
      forall f | f in chain[b] - chain[a] ensures E.DefinedIn(prog, strata, a, b, f) {
        if f in chain[b - 1] {
          E.DefinedWider(prog, strata, a, b - 1, a, b, f);
        } else {
          E.DefinedWider(prog, strata, b - 1, b, a, b, f);
        }
      }
    }
  }

  lemma OneRange(prog: Program, strata: seq<nat>, a: nat, b: nat, c: nat, d: nat, f: Triple)
    requires E.Stratified(prog, strata) && E.DefinedIn(prog, strata, a, b, f) && b <= c
    ensures !E.DefinedIn(prog, strata, c, d, f)
  {
  }

  lemma OwnRange(prog: Program, strata: seq<nat>, s: nat, n: nat, f: Triple)
    requires E.Stratified(prog, strata)
    ensures f.p in SN.IdbPreds(prog, strata, s) <==> E.DefinedIn(prog, strata, s, s + 1, f)
    ensures E.DefinedIn(prog, strata, s, n, f) && f.p !in SN.IdbPreds(prog, strata, s) ==> E.DefinedIn(prog, strata, s + 1, n, f)
  {
    if E.DefinedIn(prog, strata, s, n, f) && f.p !in SN.IdbPreds(prog, strata, s) {
      var r :| 0 <= r < |prog| && s <= strata[r] < n && prog[r].head.p == f.p;
      assert strata[r] != s;
    }
  }

  /** The state before stratum `s`: the model of the lower strata and the facts supported from the start, `first`. */
  ghost predicate Agrees(prog: Program, strata: seq<nat>, s: nat, n: nat, edb: set<Triple>, first: set<Triple>,
                         derived: set<Triple>, below: set<Triple>)
  {
    && edb <= below && first <= derived && edb + derived == below + first
    && Above(prog, strata, 0, s, derived - first) && Above(prog, strata, s, n, first - below)
    && Above(prog, strata, 0, s, below - edb)
  }

  lemma ReadsModel(prog: Program, strata: seq<nat>, s: nat, n: nat, edb: set<Triple>, first: set<Triple>,
                   derived: set<Triple>, below: set<Triple>) returns (higher: set<Triple>)
    requires E.Stratified(prog, strata) && Agrees(prog, strata, s, n, edb, first, derived, below)
    ensures SN.Readable(prog, strata, s, edb + derived) == SN.Readable(prog, strata, s, below) + higher
    ensures Above(prog, strata, s + 1, n, higher)
    ensures SN.Leftover(prog, strata, s, derived) == SN.Leftover(prog, strata, s, first)
  {
    hide SN.IdbPreds, E.DefinedIn, E.Stratified;
    higher := SN.Readable(prog, strata, s, first - below);
    forall f | f in higher ensures E.DefinedIn(prog, strata, s + 1, n, f) {
      OwnRange(prog, strata, s, n, f);
    }
    forall f | f in derived - first ensures f.p !in SN.IdbPreds(prog, strata, s) {
      OwnRange(prog, strata, s, n, f);
      OneRange(prog, strata, 0, s, s, s + 1, f);
    }
  }

  /** What the stratum derives is in every closed set over the model of the lower strata alone. */
  lemma OwnIsLeast(prog: Program, strata: seq<nat>, s: nat, n: nat, edb: set<Triple>, first: set<Triple>, derived: set<Triple>,
                   below: set<Triple>, after: set<Triple>, fired: set<Inst>, x: iset<Triple>)
    requires ConstantPredicates(prog) && E.Stratified(prog, strata) && Agrees(prog, strata, s, n, edb, first, derived, below)
    requires SN.Evaluates(prog, strata, s, edb + derived, derived, after, fired)
    requires var base := SN.Readable(prog, strata, s, below);
             Within(base, x) && SN.ClosedBut(prog, strata, s, base, SN.Leftover(prog, strata, s, first), x)
    ensures Within(after - derived, x)
  {
    hide SN.Readable, SN.Leftover, SN.ClosedBut, Agrees, E.Stratified, E.DefinedIn;
    var base, left := SN.Readable(prog, strata, s, below), SN.Leftover(prog, strata, s, first);
    var higher := ReadsModel(prog, strata, s, n, edb, first, derived, below);
    SameWithoutHigher(prog, strata, s, n, base, higher, left, x);
    var y := x + AsIset(higher);
    assert Within(base + higher, y);
    OwnFacts(prog, strata, s, edb + derived, derived, after, fired);
    forall f | f in after - derived ensures f in x {
      assert f in base + higher + (after - derived);
      if f in higher { OneRange(prog, strata, s, s + 1, s + 1, n, f); }
    }
  }

  lemma OwnInModel(prog: Program, strata: seq<nat>, s: nat, n: nat, edb: set<Triple>, first: set<Triple>, derived: set<Triple>,
                   below: set<Triple>, after: set<Triple>, fired: set<Inst>, model: set<Triple>)
    requires E.SafeRules(prog) && E.Stratified(prog, strata) && Agrees(prog, strata, s, n, edb, first, derived, below)
    requires SN.Evaluates(prog, strata, s, edb + derived, derived, after, fired)
    requires LeastStratum(prog, strata, s, below, model)
    ensures after - derived <= model
  {
    hide SN.Evaluates, Agrees, SN.Leftover;
    var base, x := SN.Readable(prog, strata, s, below), AsIset(model);
    E.RulesAreReady(prog, strata, s);
    forall i: Inst | InStratum(strata, s, i) && IsInst(prog, i) && Within(PosFacts(prog, i), x) && NegFacts(prog, i) !! base
      ensures HeadOf(prog, i) in x
    {
      SN.NegativesAreLower(prog, strata, s, base, below, i);
      assert PosFacts(prog, i) <= model;
      assert Holds(prog, i, model, below);
    }
    assert SN.ClosedBut(prog, strata, s, base, SN.Leftover(prog, strata, s, first), x);
    OwnIsLeast(prog, strata, s, n, edb, first, derived, below, after, fired, x);
  }

  /** What the stratum reads and derives is such a set. */
  lemma OwnIsClosed(prog: Program, strata: seq<nat>, s: nat, n: nat, edb: set<Triple>, first: set<Triple>, derived: set<Triple>,
                    below: set<Triple>, after: set<Triple>, fired: set<Inst>)
    requires ConstantPredicates(prog) && E.Stratified(prog, strata) && Agrees(prog, strata, s, n, edb, first, derived, below)
    requires SN.Evaluates(prog, strata, s, edb + derived, derived, after, fired)
    ensures var base := SN.Readable(prog, strata, s, below);
            SN.ClosedBut(prog, strata, s, base, SN.Leftover(prog, strata, s, first), AsIset(base + (after - derived)))
  {
    hide SN.Readable, SN.Leftover, Agrees, E.Stratified, E.DefinedIn;
    var base, left, own := SN.Readable(prog, strata, s, below), SN.Leftover(prog, strata, s, first), after - derived;
    var higher := ReadsModel(prog, strata, s, n, edb, first, derived, below);
    forall i: Inst | InStratum(strata, s, i) && IsInst(prog, i) && Within(PosFacts(prog, i), AsIset(base + own))
                     && NegFacts(prog, i) !! base
      ensures HeadOf(prog, i) in base + own || HeadOf(prog, i) in left
    {
      forall f | f in NegFacts(prog, i) ensures f !in higher {
        var j :| 0 <= j < |prog[i.rule].body| && f == Apply(prog[i.rule].body[j].atom, i.b);
        HigherIsUnread(prog, strata, s, n, higher, i, j);
      }
      assert PosFacts(prog, i) <= base + higher + own;
      assert Holds(prog, i, base + higher + own, base + higher);
      HeadNotHigher(prog, strata, s, n, higher, i);
    }
  }

  lemma HeadNotHigher(prog: Program, strata: seq<nat>, s: nat, n: nat, higher: set<Triple>, i: Inst)
    requires ConstantPredicates(prog) && E.Stratified(prog, strata) && Above(prog, strata, s + 1, n, higher)
    requires InStratum(strata, s, i) && IsInst(prog, i)
    ensures HeadOf(prog, i) !in higher
  {
    SN.HeadIsIdb(prog, strata, s, i);
    OwnRange(prog, strata, s, n, HeadOf(prog, i));
    OneRange(prog, strata, s, s + 1, s + 1, n, HeadOf(prog, i));
  }

  /** The stratum reaches the next model exactly when it can recover it. */
  lemma StratumIff(prog: Program, strata: seq<nat>, s: nat, n: nat, edb: set<Triple>, first: set<Triple>, derived: set<Triple>,
                   below: set<Triple>, after: set<Triple>, fired: set<Inst>, model: set<Triple>)
    requires E.SafeRules(prog) && E.Stratified(prog, strata) && Agrees(prog, strata, s, n, edb, first, derived, below)
    requires SN.Evaluates(prog, strata, s, edb + derived, derived, after, fired)
    requires LeastStratum(prog, strata, s, below, model)
    ensures edb + after == model + first <==> Recoverable(prog, strata, s, edb, first, below, model)
  {
    hide SN.Evaluates, LeastStratum, E.Stratified, E.DefinedIn, SN.ClosedBut, SN.IdbPreds, SN.Leftover;
    OwnFacts(prog, strata, s, edb + derived, derived, after, fired);
    ModelStep(prog, strata, s, below, model);
    OwnInModel(prog, strata, s, n, edb, first, derived, below, after, fired, model);
    var base, left := SN.Readable(prog, strata, s, below), SN.Leftover(prog, strata, s, first);
    if Recoverable(prog, strata, s, edb, first, below, model) {
      OwnIsClosed(prog, strata, s, n, edb, first, derived, below, after, fired);
      assert forall f | f in model :: f in AsIset(base + (after - derived)) || f in edb + first;
    }
    if edb + after == model + first {
      forall x: iset<Triple>, f | Within(base, x) && SN.ClosedBut(prog, strata, s, base, left, x) && f in model
        ensures f in x || f in edb + first
      {
        OwnIsLeast(prog, strata, s, n, edb, first, derived, below, after, fired, x);
        if f in below && f !in edb && f !in base {
          OwnRange(prog, strata, s, n, f);
          OneRange(prog, strata, 0, s, s, s + 1, f);
        }
      }
    }
  }

  /** While the strata so far were recovered, or when the result is the model, the states agree. */
  lemma AgreesBelow(prog: Program, strata: seq<nat>, s: nat, n: nat, edb: set<Triple>, chain: seq<set<Triple>>,
                    fired: set<Inst>, c: seq<set<Triple>>)
    requires E.SafeRules(prog) && E.Stratified(prog, strata) && s <= n
    requires E.Steps(prog, strata, n, edb, chain, fired) && PerfectChain(prog, strata, n, edb, c) && chain[0] <= c[n]
    requires edb + chain[s] == c[s] + chain[0]
    ensures Agrees(prog, strata, s, n, edb, chain[0], chain[s], c[s])
  {
    hide SN.Evaluates, LeastStratum, E.DefinedIn, E.Stratified;
    SupportGrows(prog, strata, n, edb, chain, fired, 0, s);
    ModelGrows(prog, strata, n, edb, c, 0, s);
    ModelGrows(prog, strata, n, edb, c, s, n);
  }

  lemma AgreesAtEnd(prog: Program, strata: seq<nat>, s: nat, n: nat, edb: set<Triple>, chain: seq<set<Triple>>,
                    fired: set<Inst>, c: seq<set<Triple>>)
    requires E.SafeRules(prog) && E.Stratified(prog, strata) && s <= n
    requires E.Steps(prog, strata, n, edb, chain, fired) && PerfectChain(prog, strata, n, edb, c)
    requires edb + chain[n] == c[n]
    ensures chain[0] <= c[n] && edb + chain[s] == c[s] + chain[0]
  {
    hide SN.Evaluates, LeastStratum, E.DefinedIn, E.Stratified;
    SupportGrows(prog, strata, n, edb, chain, fired, 0, s);
    SupportGrows(prog, strata, n, edb, chain, fired, s, n);
    ModelGrows(prog, strata, n, edb, c, 0, s);
    ModelGrows(prog, strata, n, edb, c, s, n);
    forall f | f in edb + chain[s] ensures f in c[s] + chain[0] {
      if f in chain[s] - chain[0] { OneRange(prog, strata, 0, s, s, n, f); }
    }
    forall f | f in c[s] ensures f in edb + chain[s] {
      if f in c[s] - edb { OneRange(prog, strata, 0, s, s, n, f); }
    }
  }

  ghost predicate AllRecoverable(prog: Program, strata: seq<nat>, n: nat, edb: set<Triple>, derived: set<Triple>,
                                 c: seq<set<Triple>>)
    requires |c| == n + 1
  {
    forall s: nat | s < n :: Recoverable(prog, strata, s, edb, derived, c[s], c[s + 1])
  }

  lemma {:induction false} RecoveredSoFar(prog: Program, strata: seq<nat>, s: nat, n: nat, edb: set<Triple>,
                                          chain: seq<set<Triple>>, fired: set<Inst>, c: seq<set<Triple>>)
    requires E.SafeRules(prog) && E.Stratified(prog, strata) && s <= n
    requires E.Steps(prog, strata, n, edb, chain, fired) && PerfectChain(prog, strata, n, edb, c) && chain[0] <= c[n]
    requires AllRecoverable(prog, strata, n, edb, chain[0], c)
    ensures edb + chain[s] == c[s] + chain[0]
  {
    hide SN.Evaluates, LeastStratum, E.DefinedIn, E.Stratified, Agrees, Recoverable;
    if s > 0 {
      RecoveredSoFar(prog, strata, s - 1, n, edb, chain, fired, c);
      AgreesBelow(prog, strata, s - 1, n, edb, chain, fired, c);
      StratumIff(prog, strata, s - 1, n, edb, chain[0], chain[s - 1], c[s - 1], chain[s], E.Part(strata, s - 1, fired), c[s]);
    }
  }

  lemma StepsIff(prog: Program, strata: seq<nat>, n: nat, edb: set<Triple>, chain: seq<set<Triple>>, fired: set<Inst>,
                 c: seq<set<Triple>>)
    requires E.SafeRules(prog) && E.Stratified(prog, strata)
    requires E.Steps(prog, strata, n, edb, chain, fired) && PerfectChain(prog, strata, n, edb, c)
    ensures edb + chain[n] == c[n] <==> chain[0] <= c[n] && AllRecoverable(prog, strata, n, edb, chain[0], c)
  {
    hide SN.Evaluates, LeastStratum, E.DefinedIn, E.Stratified, Agrees, Recoverable;
    if chain[0] <= c[n] && AllRecoverable(prog, strata, n, edb, chain[0], c) {
      RecoveredSoFar(prog, strata, n, n, edb, chain, fired, c);
    }
    if edb + chain[n] == c[n] {
      AgreesAtEnd(prog, strata, 0, n, edb, chain, fired, c);
      forall s: nat | s < n ensures Recoverable(prog, strata, s, edb, chain[0], c[s], c[s + 1]) {
        AgreesAtEnd(prog, strata, s, n, edb, chain, fired, c);
        AgreesAtEnd(prog, strata, s + 1, n, edb, chain, fired, c);
        AgreesBelow(prog, strata, s, n, edb, chain, fired, c);
        StratumIff(prog, strata, s, n, edb, chain[0], chain[s], c[s], chain[s + 1], E.Part(strata, s, fired), c[s + 1]);
      }
    }
  }

  /** The strata of a program are unique. */
  lemma OneStrata(prog: Program, a: S.Strata, b: S.Strata)
    requires E.LeastStrata(prog, a) && E.LeastStrata(prog, b)
    ensures a == b
  {
    hide S.LeastLevels;
    var la :| S.LeastLevels(prog, la) && S.StrataOf(prog, la, a);
    var lb :| S.LeastLevels(prog, lb) && S.StrataOf(prog, lb, b);
    forall r | 0 <= r < |prog| ensures a.rules[r] == b.rules[r] {
      LevelBelow(prog, la, lb, r);
      LevelBelow(prog, lb, la, r);
    }
    assert a.rules == b.rules;
  }

  lemma LevelBelow(prog: Program, a: map<Symbol, nat>, b: map<Symbol, nat>, r: nat)
    requires S.LeastLevels(prog, a) && S.LeastLevels(prog, b) && r < |prog|
    ensures S.RuleLevel(prog, a, r) <= S.RuleLevel(prog, b, r)
  {
    var p := prog[r].head.p;
    if p in a && p !in b {
      assert S.LevelsOk(prog, a[p := 0]);
    }
  }

  /** Evaluation over any asserted and derived facts computes the perfect model of the asserted ones exactly when it
      need not remove a derived fact and can recover every stratum. */
  lemma PerfectIff(prog: Program, edb: set<Triple>, derived: set<Triple>, after: set<Triple>, fired: set<Inst>,
                   strata: S.Strata, c: seq<set<Triple>>)
    requires E.SafeRules(prog) && E.EvaluatedFrom(prog, edb, derived, after, fired)
    requires E.LeastStrata(prog, strata) && PerfectChain(prog, strata.rules, strata.count, edb, c)
    ensures edb + after == c[strata.count] <==>
            derived <= c[strata.count] && AllRecoverable(prog, strata.rules, strata.count, edb, derived, c)
  {
    hide SN.Evaluates, LeastStratum, S.LeastLevels, S.StrataOf, Recoverable;
    var other, chain :|
      && E.LeastStrata(prog, other) && E.Steps(prog, other.rules, other.count, edb, chain, fired)
      && chain[0] == derived && chain[other.count] == after;
    OneStrata(prog, strata, other);
    var level :| S.LeastLevels(prog, level) && S.StrataOf(prog, level, strata);
    E.LevelsStratify(prog, level, strata);
    StepsIff(prog, strata.rules, strata.count, edb, chain, fired, c);
  }

  // ---- a second evaluation that derives too little ----

  function Ground(p: string): Triple {
    Triple(Constant("a"), Constant(p), Constant("true"))
  }

  function Positive(p: string): Subgoal {
    Subgoal(Ground(p), false)
  }

  /** p :- e.  q :- p, f. */
  function Late(): Program {
    [Rule(Ground("p"), [Positive("e")]), Rule(Ground("q"), [Positive("p"), Positive("f")])]
  }

  lemma LateRules()
    ensures E.SafeRules(Late()) && !Negated(Late()) && HeadPreds(Late()) == {Constant("p"), Constant("q")}
    ensures SN.IdbPreds(Late(), [0, 0], 0) == {Constant("p"), Constant("q")}
  {
    var prog := Late();
    assert prog[0].head.p == Constant("p") && prog[1].head.p == Constant("q");
    assert prog[0] in prog && prog[1] in prog;
    var idb := SN.IdbPreds(prog, [0, 0], 0);
    assert [0, 0][0] == 0 && [0, 0][1] == 0;
  }

  lemma LateInst(i: Inst)
    ensures |Late()| == 2 && (IsInst(Late(), i) <==> i == Inst(0, map[]) || i == Inst(1, map[]))
    ensures HeadOf(Late(), Inst(0, map[])) == Ground("p") && PosFacts(Late(), Inst(0, map[])) == {Ground("e")}
    ensures HeadOf(Late(), Inst(1, map[])) == Ground("q") && PosFacts(Late(), Inst(1, map[])) == {Ground("p"), Ground("f")}
    ensures NegFacts(Late(), Inst(0, map[])) == {} && NegFacts(Late(), Inst(1, map[])) == {}
  {
    var prog := Late();
    assert prog[0].body[0] == Positive("e") && prog[1].body[0] == Positive("p") && prog[1].body[1] == Positive("f");
    assert PosVars(prog[0].body) == {} && PosVars(prog[1].body) == {};
    if i.rule < 2 && i.b.Keys == {} { assert i.b == map[]; }
    assert Apply(prog[0].body[0].atom, map[]) == Ground("e");
    assert Apply(prog[1].body[0].atom, map[]) == Ground("p") && Apply(prog[1].body[1].atom, map[]) == Ground("f");
  }

  /** What the program derives: q only in the same run as p. */
  function LateFacts(visible: set<Triple>, derived: set<Triple>): set<Triple> {
    if Ground("e") !in visible || Ground("p") in derived then {}
    else {Ground("p")} + if Ground("f") in visible then {Ground("q")} - derived else {}
  }

  lemma LateStratum(edb: set<Triple>, derived: set<Triple>, after: set<Triple>, fired: set<Inst>)
    requires E.EvaluatedFrom(Late(), edb, derived, after, fired)
    ensures exists more :: SN.Evaluates(Late(), [0, 0], 0, edb + derived, derived, after, more)
  {
    hide SN.Evaluates, S.LeastLevels, S.StrataOf, Late;
    var strata, chain :|
      && E.LeastStrata(Late(), strata) && E.Steps(Late(), strata.rules, strata.count, edb, chain, fired)
      && chain[0] == derived && chain[strata.count] == after;
    var level :| S.LeastLevels(Late(), level) && S.StrataOf(Late(), level, strata);
    LateRules();
    S.OneStratum(Late(), level, strata);
    LateStrata(level, strata);
  }

  lemma LateStrata(level: map<Symbol, nat>, strata: S.Strata)
    requires S.StrataOf(Late(), level, strata) && forall r | 0 <= r < |Late()| :: strata.rules[r] == 0
    ensures strata.rules == [0, 0]
  {
  }

  lemma LateClosedBut(visible: set<Triple>, derived: set<Triple>)
    ensures var base := SN.Readable(Late(), [0, 0], 0, visible);
            SN.ClosedBut(Late(), [0, 0], 0, base, SN.Leftover(Late(), [0, 0], 0, derived),
                         AsIset(base + LateFacts(visible, derived)))
  {
    hide Late, SN.IdbPreds, HeadOf, PosFacts, NegFacts, IsInst;
    LateRules();
    forall i { LateInst(i); }
    LateInst(Inst(0, map[]));
    LateInst(Inst(1, map[]));
  }

  lemma LateAtMost(visible: set<Triple>, derived: set<Triple>, after: set<Triple>, more: set<Inst>)
    requires SN.Evaluates(Late(), [0, 0], 0, visible, derived, after, more)
    ensures after - derived <= LateFacts(visible, derived)
  {
    hide Late, LateFacts, SN.IdbPreds, SN.ClosedBut;
    LateRules();
    LateClosedBut(visible, derived);
    OwnFacts(Late(), [0, 0], 0, visible, derived, after, more) by { LateStratified(); }
    forall f | f in after - derived ensures f in LateFacts(visible, derived) {
      OwnRange(Late(), [0, 0], 0, 1, f) by { LateStratified(); }
    }
  }

  lemma LateStratified()
    ensures E.Stratified(Late(), [0, 0])
  {
  }

  lemma LateAtLeast(visible: set<Triple>, derived: set<Triple>, after: set<Triple>, more: set<Inst>)
    requires SN.Evaluates(Late(), [0, 0], 0, visible, derived, after, more)
    ensures LateFacts(visible, derived) <= after
  {
    hide Late, SN.IdbPreds, HeadOf, PosFacts, NegFacts, IsInst;
    LateRules();
    LateInst(Inst(0, map[]));
    LateInst(Inst(1, map[]));
    var base, own := SN.Readable(Late(), [0, 0], 0, visible), after - derived;
    if Ground("e") in visible && Ground("p") !in derived {
      assert Holds(Late(), Inst(0, map[]), base + own, base);
      assert Ground("p") in own;
      if Ground("f") in visible { assert Holds(Late(), Inst(1, map[]), base + own, base); }
    }
  }

  lemma LateDerives(edb: set<Triple>, derived: set<Triple>, after: set<Triple>, fired: set<Inst>)
    requires E.EvaluatedFrom(Late(), edb, derived, after, fired)
    ensures after == derived + LateFacts(edb + derived, derived)
  {
    hide Late, LateFacts, E.EvaluatedFrom, SN.LeastBut;
    LateStratum(edb, derived, after, fired);
    var more :| SN.Evaluates(Late(), [0, 0], 0, edb + derived, derived, after, more);
    LateAtMost(edb + derived, derived, after, more);
    LateAtLeast(edb + derived, derived, after, more);
  }

  lemma LateModel()
    ensures LeastModel(Late(), {Ground("e"), Ground("f")}, AsIset({Ground("e"), Ground("f"), Ground("p"), Ground("q")}))
    ensures LeastModel(Late(), {Ground("p"), Ground("f")}, AsIset({Ground("p"), Ground("f"), Ground("q")}))
  {
    forall x { LateClosed(x); }
  }

  lemma LateClosed(x: iset<Triple>)
    ensures ClosedUnder(Late(), x) <==>
              (Ground("e") in x ==> Ground("p") in x) && (Ground("p") in x && Ground("f") in x ==> Ground("q") in x)
  {
    hide Late, HeadOf, PosFacts, IsInst;
    forall i { LateInst(i); }
    LateInst(Inst(0, map[]));
    LateInst(Inst(1, map[]));
    if ClosedUnder(Late(), x) {
      assert IsInst(Late(), Inst(0, map[])) && IsInst(Late(), Inst(1, map[]));
    }
  }

  /** Evaluate, assert one more fact, evaluate again: a fact of the least model is missed, because the rule that gives
      it reads a fact that the first evaluation derived. */
  lemma SecondRunMisses(first: set<Triple>, fired: set<Inst>, second: set<Triple>, more: set<Inst>)
    requires E.EvaluatedFrom(Late(), {Ground("e")}, {}, first, fired)
    requires E.EvaluatedFrom(Late(), {Ground("e"), Ground("f")}, first, second, more)
    ensures first == second == {Ground("p")}
    ensures LeastModel(Late(), {Ground("e"), Ground("f")}, AsIset({Ground("e"), Ground("f"), Ground("p"), Ground("q")}))
  {
    hide Late, E.EvaluatedFrom, LeastModel;
    LateDerives({Ground("e")}, {}, first, fired);
    LateDerives({Ground("e"), Ground("f")}, first, second, more);
    LateModel();
  }

  /** A fact that is asserted for a predicate with rules is not read by the rules of its stratum. */
  lemma AssertedIsNotRead(after: set<Triple>, fired: set<Inst>)
    requires E.EvaluatedFrom(Late(), {Ground("p"), Ground("f")}, {}, after, fired)
    ensures after == {}
    ensures LeastModel(Late(), {Ground("p"), Ground("f")}, AsIset({Ground("p"), Ground("f"), Ground("q")}))
  {
    hide Late, E.EvaluatedFrom, LeastModel;
    LateDerives({Ground("p"), Ground("f")}, {}, after, fired);
    LateModel();
  }

  /** Such a history exists. */
  method EvaluateTwice() returns (main: Facts)
    ensures main.asserted == {Ground("e"), Ground("f")} && main.derived == {Ground("p")}
    ensures LeastModel(Late(), main.asserted, AsIset(main.Visible() + {Ground("q")}))
  {
    hide LeastModel, E.Evaluated, E.EvaluatedFrom, E.CannotEvaluate;
    var prog := Late();
    var none := new JustificationGraph(false);
    LateCanEvaluate();
    main := new Facts({Ground("e")});
    var result, first := E.Eval(prog, main, none);
    ghost var derived := main.derived;
    main.asserted := main.asserted + {Ground("f")};
    assert main.asserted == {Ground("e"), Ground("f")};
    var again, second := E.Eval(prog, main, none);
    SecondRunMisses(derived, first, main.derived, second);
    assert main.Visible() + {Ground("q")} == {Ground("e"), Ground("f"), Ground("p"), Ground("q")};
  }

  lemma LateCanEvaluate()
    ensures E.SafeRules(Late()) && !E.CannotEvaluate(Late())
  {
    LateRules();
    S.NoNegCycle(Late());
    forall r | r in Late() ensures HasPositive(r) {
      assert !r.body[0].negated;
    }
  }
}
