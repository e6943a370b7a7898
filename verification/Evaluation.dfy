/** Evaluation of a whole program and attachment of a reactive one
    (facts_datalog_eval in lib/eval.c, facts_attach_program in lib/facts.c). */
module Evaluation {
  import opened Collections
  import opened Datalog
  import opened JustificationGraphs
  import opened RuleEval
  import S = Stratify
  import SN = SemiNaive

  ghost predicate SafeRules(prog: Program) {
    ConstantPredicates(prog) && forall r | r in prog :: Safe(r)
  }

  /** No fact of a predicate that the rules define is asserted. */
  ghost predicate WellFormed(prog: Program, edb: set<Triple>) {
    SafeRules(prog) && forall f | f in edb :: f.p !in HeadPreds(prog)
  }

  /** The stratum of the rules that define a fact's predicate lies in [a, b). */
  ghost predicate DefinedIn(prog: Program, strata: seq<nat>, a: nat, b: nat, f: Triple) {
    exists r :: 0 <= r < |prog| && r < |strata| && a <= strata[r] < b && prog[r].head.p == f.p
  }

  /** Rules with one head predicate share a stratum, and subgoals respect the order of strata. */
  ghost predicate Stratified(prog: Program, strata: seq<nat>) {
    && |strata| == |prog|
    && (forall q, r | 0 <= q < |prog| && 0 <= r < |prog| && prog[q].head.p == prog[r].head.p :: strata[q] == strata[r])
    && forall q, r, j | 0 <= q < |prog| && 0 <= r < |prog| && 0 <= j < |prog[r].body|
                        && prog[r].body[j].atom.p == prog[q].head.p ::
         strata[q] <= strata[r] && (prog[r].body[j].negated ==> strata[q] < strata[r])
  }

  lemma LevelsStratify(prog: Program, level: map<Symbol, nat>, s: S.Strata)
    requires ConstantPredicates(prog) && S.LeastLevels(prog, level) && S.StrataOf(prog, level, s)
    ensures Stratified(prog, s.rules)
  {
    forall q, r, j | 0 <= q < |prog| && 0 <= r < |prog| && 0 <= j < |prog[r].body|
                     && prog[r].body[j].atom.p == prog[q].head.p
      ensures s.rules[q] <= s.rules[r] && (prog[r].body[j].negated ==> s.rules[q] < s.rules[r])
    {
      assert prog[q] in prog && prog[r] in prog;
      S.StratifiedRules(prog, level, s, q, r, j);
    }
  }

  /** A stratum can be evaluated once the derived facts all come from lower strata. */
  lemma ReadyForStratum(prog: Program, strata: seq<nat>, s: nat, edb: set<Triple>, derived: set<Triple>)
    requires WellFormed(prog, edb) && Stratified(prog, strata)
    requires forall f | f in derived :: DefinedIn(prog, strata, 0, s, f)
    ensures SN.StratumReady(prog, strata, s, edb + derived)
  {
    forall f | f in edb + derived ensures f.p !in SN.IdbPreds(prog, strata, s) {
      if f in edb {
        assert forall r | 0 <= r < |prog| :: prog[r] in prog;
      }
    }
  }

  lemma HeadsDefined(prog: Program, strata: seq<nat>, s: nat, fired: set<Inst>)
    requires ConstantPredicates(prog) && |strata| == |prog|
    requires forall i | i in fired :: InStratum(strata, s, i) && IsInst(prog, i)
    ensures forall f | f in Heads(prog, fired) :: DefinedIn(prog, strata, s, s + 1, f)
  {
    forall f | f in Heads(prog, fired) ensures DefinedIn(prog, strata, s, s + 1, f) {
      var i :| i in fired && i.rule < |prog| && f == HeadOf(prog, i);
      SN.InstPreds(prog, i);
    }
  }

  lemma DefinedWider(prog: Program, strata: seq<nat>, a: nat, b: nat, c: nat, d: nat, f: Triple)
    requires DefinedIn(prog, strata, a, b, f) && c <= a && b <= d
    ensures DefinedIn(prog, strata, c, d, f)
  {
  }

  /** A subgoal's fact comes from a stratum at most its rule's, and below it if the subgoal is negated. */
  lemma SubgoalStratum(prog: Program, strata: seq<nat>, i: Inst, j: nat, a: nat, b: nat)
    requires ConstantPredicates(prog) && Stratified(prog, strata) && IsInst(prog, i) && j < |prog[i.rule].body|
    requires DefinedIn(prog, strata, a, b, Apply(prog[i.rule].body[j].atom, i.b))
    ensures a <= strata[i.rule] && (prog[i.rule].body[j].negated ==> a < strata[i.rule])
  {
    SN.InstPreds(prog, i);
    var q :| 0 <= q < |prog| && a <= strata[q] < b && prog[q].head.p == Apply(prog[i.rule].body[j].atom, i.b).p;
  }

  /** A stratum's applications stay true, and no other becomes true, as the higher strata are added. */
  lemma ApplicationStable(prog: Program, strata: seq<nat>, s: nat, n: nat, below: set<Triple>, own: set<Triple>,
                          model: set<Triple>, i: Inst)
    requires ConstantPredicates(prog) && Stratified(prog, strata) && InStratum(strata, s, i)
    requires below <= own <= model
    requires forall f | f in own - below :: DefinedIn(prog, strata, s, s + 1, f)
    requires forall f | f in model - own :: DefinedIn(prog, strata, s + 1, n, f)
    ensures Holds(prog, i, own, below) <==> Holds(prog, i, model, model)
  {
    if IsInst(prog, i) {
      var body := prog[i.rule].body;
      forall j | 0 <= j < |body| && !body[j].negated && Apply(body[j].atom, i.b) in model
        ensures Apply(body[j].atom, i.b) in own
      {
        if Apply(body[j].atom, i.b) !in own {
          assert Apply(body[j].atom, i.b) in model - own;
          SubgoalStratum(prog, strata, i, j, s + 1, n);
        }
      }
      forall j | 0 <= j < |body| && body[j].negated && Apply(body[j].atom, i.b) in model
        ensures Apply(body[j].atom, i.b) in below
      {
        if Apply(body[j].atom, i.b) !in own {
          assert Apply(body[j].atom, i.b) in model - own;
          SubgoalStratum(prog, strata, i, j, s + 1, n);
        } else if Apply(body[j].atom, i.b) !in below {
          assert Apply(body[j].atom, i.b) in own - below;
          SubgoalStratum(prog, strata, i, j, s, s + 1);
        }
      }
      assert PosFacts(prog, i) <= model ==> PosFacts(prog, i) <= own;
      assert NegFacts(prog, i) !! below ==> NegFacts(prog, i) !! model;
    }
  }

  /** The completed strata: a perfect chain whose facts above the base are derived, each by its own stratum. */
  ghost predicate Done(prog: Program, strata: seq<nat>, s: nat, edb: set<Triple>, derived: set<Triple>,
                       chain: seq<set<Triple>>, fired: set<Inst>)
  {
    && PerfectChain(prog, strata, s, edb, chain)
    && chain[s] == edb + derived && derived !! edb
    && (forall f | f in derived :: DefinedIn(prog, strata, 0, s, f))
    && (forall i :: i in fired <==> i.rule < |strata| && strata[i.rule] < s && Holds(prog, i, chain[s], chain[s]))
    && derived == Heads(prog, fired)
  }

  /** One more stratum: what fired below it is unaffected, and its own applications are added. */
  lemma NextDone(prog: Program, strata: seq<nat>, s: nat, edb: set<Triple>, derived: set<Triple>,
                 chain: seq<set<Triple>>, fired: set<Inst>, after: set<Triple>, more: set<Inst>)
    requires WellFormed(prog, edb) && Stratified(prog, strata) && Done(prog, strata, s, edb, derived, chain, fired)
    requires LeastStratum(prog, strata, s, edb + derived, edb + after)
    requires forall i :: i in more <==> InStratum(strata, s, i) && Holds(prog, i, edb + after, edb + derived)
    requires after == derived + Heads(prog, more)
    ensures Done(prog, strata, s + 1, edb, after, chain + [edb + after], fired + more)
  {
    hide LeastStratum;
    HeadsDefined(prog, strata, s, more);
    NewFacts(prog, strata, s, edb, derived, after, more);
    var model := edb + after;
    forall i: Inst
      ensures i in fired + more <==> i.rule < |strata| && strata[i.rule] < s + 1 && Holds(prog, i, model, model)
    {
      if i.rule < |strata| && strata[i.rule] == s {
        ApplicationStable(prog, strata, s, s + 1, edb + derived, model, model, i);
      } else if i.rule < |strata| && strata[i.rule] < s {
        ApplicationStable(prog, strata, strata[i.rule], s + 1, edb + derived, edb + derived, model, i);
      }
    }
    ImagesOfUnion(prog, fired, more);
    ExtendChain(prog, strata, s, edb, chain, model);
  }

  lemma NewFacts(prog: Program, strata: seq<nat>, s: nat, edb: set<Triple>, derived: set<Triple>, after: set<Triple>,
                 more: set<Inst>)
    requires WellFormed(prog, edb) && after == derived + Heads(prog, more) && derived !! edb
    requires forall f | f in derived :: DefinedIn(prog, strata, 0, s, f)
    requires forall f | f in Heads(prog, more) :: DefinedIn(prog, strata, s, s + 1, f)
    ensures after !! edb && (forall f | f in after :: DefinedIn(prog, strata, 0, s + 1, f))
    ensures forall f | f in (edb + after) - (edb + derived) :: DefinedIn(prog, strata, s, s + 1, f)
  {
    forall f | f in after ensures DefinedIn(prog, strata, 0, s + 1, f) && f !in edb {
      if f in derived {
        DefinedWider(prog, strata, 0, s, 0, s + 1, f);
      } else {
        DefinedWider(prog, strata, s, s + 1, 0, s + 1, f);
      }
      var r :| 0 <= r < |prog| && r < |strata| && prog[r].head.p == f.p;
      assert prog[r] in prog;
    }
  }

  lemma ExtendChain(prog: Program, strata: seq<nat>, s: nat, edb: set<Triple>, chain: seq<set<Triple>>, m: set<Triple>)
    requires PerfectChain(prog, strata, s, edb, chain) && LeastStratum(prog, strata, s, chain[s], m)
    ensures PerfectChain(prog, strata, s + 1, edb, chain + [m])
  {
    hide LeastStratum;
    var longer := chain + [m];
    forall k: nat | k < s + 1 ensures LeastStratum(prog, strata, k, longer[k], longer[k + 1]) {
      assert longer[k] == chain[k];
    }
  }

  // ---- one stratum after the other, over any derived support ----

  function Part(strata: seq<nat>, s: nat, fired: set<Inst>): set<Inst> {
    set i | i in fired && InStratum(strata, s, i)
  }

  /** `chain[s]` is the derived support before stratum `s`, and `fired` what the strata below `n` have applied. */
  ghost predicate Steps(prog: Program, strata: seq<nat>, n: nat, edb: set<Triple>, chain: seq<set<Triple>>, fired: set<Inst>) {
    && |chain| == n + 1
    && (forall s: nat | s < n ::
          SN.Evaluates(prog, strata, s, edb + chain[s], chain[s], chain[s + 1], Part(strata, s, fired)))
    && forall i | i in fired :: i.rule < |strata| && strata[i.rule] < n
  }

  lemma NextSteps(prog: Program, strata: seq<nat>, n: nat, edb: set<Triple>, chain: seq<set<Triple>>, fired: set<Inst>,
                  after: set<Triple>, more: set<Inst>)
    requires Steps(prog, strata, n, edb, chain, fired)
    requires SN.Evaluates(prog, strata, n, edb + chain[n], chain[n], after, more)
    ensures Steps(prog, strata, n + 1, edb, chain + [after], fired + more)
  {
    var longer := chain + [after];
    forall i | i in more ensures InStratum(strata, n, i) {
    }
    hide SN.Evaluates;
    assert Part(strata, n, fired + more) == more;
    forall s: nat | s < n + 1
      ensures SN.Evaluates(prog, strata, s, edb + longer[s], longer[s], longer[s + 1], Part(strata, s, fired + more))
    {
      if s < n { assert Part(strata, s, fired + more) == Part(strata, s, fired); }
    }
  }

  lemma PreviousSteps(prog: Program, strata: seq<nat>, n: nat, edb: set<Triple>, chain: seq<set<Triple>>, fired: set<Inst>)
    returns (lower: set<Inst>)
    requires 0 < n && Steps(prog, strata, n, edb, chain, fired)
    ensures Steps(prog, strata, n - 1, edb, chain[..n], lower) && fired == lower + Part(strata, n - 1, fired)
  {
    hide SN.Evaluates;
    lower := set i | i in fired && i.rule < |strata| && strata[i.rule] < n - 1;
    forall s: nat | s < n - 1
      ensures SN.Evaluates(prog, strata, s, edb + chain[s], chain[s], chain[s + 1], Part(strata, s, lower))
    {
      assert Part(strata, s, lower) == Part(strata, s, fired);
    }
  }

  lemma RulesAreReady(prog: Program, strata: seq<nat>, s: nat)
    requires SafeRules(prog) && Stratified(prog, strata)
    ensures SN.RulesReady(prog, strata, s)
  {
  }

  lemma NoRules(prog: Program, strata: seq<nat>, s: nat)
    requires |strata| == |prog| && SN.IdbPreds(prog, strata, s) == {}
    ensures forall r | 0 <= r < |prog| :: strata[r] != s
  {
    hide SN.IdbPreds;
    forall r | 0 <= r < |prog| ensures strata[r] != s {
      if strata[r] == s { RuleInStratum(prog, strata, s, r); }
    }
  }

  lemma EmptyStratum(prog: Program, strata: seq<nat>, s: nat, visible: set<Triple>, derived: set<Triple>)
    requires |strata| == |prog| && SN.IdbPreds(prog, strata, s) == {}
    ensures SN.Evaluates(prog, strata, s, visible, derived, derived, {})
    ensures forall r | 0 <= r < |prog| :: strata[r] != s
  {
    NoRules(prog, strata, s);
    assert forall i: Inst :: !(InStratum(strata, s, i) && IsInst(prog, i));
    var base := SN.Readable(prog, strata, s, visible);
    assert base + (derived - derived) == base;
    assert Heads(prog, {}) == {};
  }

  lemma RuleInStratum(prog: Program, strata: seq<nat>, s: nat, r: nat)
    requires r < |prog| && r < |strata| && strata[r] == s
    ensures prog[r].head.p in SN.IdbPreds(prog, strata, s)
  {
  }

  /** Evaluate the strata in order; the result is false when some rule has no positive subgoal. */
  method EvalStrata(prog: Program, strata: seq<nat>, n: nat, main: Facts, staging: JustificationGraph)
    returns (ok: bool, count: nat, ghost chain: seq<set<Triple>>, ghost fired: set<Inst>)
    requires SafeRules(prog) && Stratified(prog, strata)
    requires forall r | 0 <= r < |strata| :: strata[r] < n
    requires Stageable(staging)
    modifies main`derived, staging
    ensures ok <==> forall r | r in prog :: HasPositive(r)
    ensures ok ==> Steps(prog, strata, n, main.asserted, chain, fired)
    ensures ok ==> chain[0] == old(main.derived) && chain[n] == main.derived
    ensures ok ==> count == |main.derived| - |old(main.derived)|
    ensures ok ==> Staged(staging, old(GraphItems(staging)), prog, fired)
  {
    hide Holds, Heads, Justs, SN.RulesReady, SN.Evaluates;
    ok, count, chain, fired := true, 0, [main.derived], {};
    StagedNothing(staging, prog);
    for s := 0 to n
      invariant Steps(prog, strata, s, main.asserted, chain, fired)
      invariant chain[0] == old(main.derived) && chain[s] == main.derived && count == |main.derived| - |old(main.derived)|
      invariant Staged(staging, old(GraphItems(staging)), prog, fired)
      invariant forall r | 0 <= r < |prog| && strata[r] < s :: HasPositive(prog[r])
    {
      ghost var derived, items, more: set<Inst> := main.derived, GraphItems(staging), {};
      if SN.IdbPreds(prog, strata, s) == {} {
        EmptyStratum(prog, strata, s, main.asserted + derived, derived);
        NextSteps(prog, strata, s, main.asserted, chain, fired, derived, {});
        assert fired + {} == fired;
        chain := chain + [derived];
        continue;
      }
      RulesAreReady(prog, strata, s);
      var c;
      ok, c, more := SN.EvalStratum(prog, strata, s, main, staging);
      if !ok { return; }
      NextSteps(prog, strata, s, main.asserted, chain, fired, main.derived, more);
      AccumulateGraph(staging, old(GraphItems(staging)), items, prog, fired, more);
      chain, fired := chain + [main.derived], fired + more;
      count := count + c;
    }
    assert forall r | r in prog :: HasPositive(r) by {
      forall r | r in prog ensures HasPositive(r) {
        var q :| 0 <= q < |prog| && prog[q] == r;
      }
    }
  }

  lemma StagedNothing(staging: JustificationGraph, prog: Program)
    requires Stageable(staging)
    ensures Staged(staging, GraphItems(staging), prog, {})
  {
    assert Justs(prog, {}) == {};
  }

  /** A stratum evaluated over what the lower strata have derived reaches its least fixpoint. */
  lemma EvaluatesCleanly(prog: Program, strata: seq<nat>, s: nat, edb: set<Triple>, derived: set<Triple>, after: set<Triple>,
                         fired: set<Inst>)
    requires SN.StratumReady(prog, strata, s, edb + derived) && SN.Evaluates(prog, strata, s, edb + derived, derived, after, fired)
    ensures LeastStratum(prog, strata, s, edb + derived, edb + after)
    ensures forall i :: i in fired <==> InStratum(strata, s, i) && Holds(prog, i, edb + after, edb + derived)
    ensures after == derived + Heads(prog, fired)
  {
    hide LeastStratum, SN.LeastBut, Holds, Heads;
    var base := edb + derived;
    assert SN.Readable(prog, strata, s, base) == base && SN.Leftover(prog, strata, s, derived) == {};
    assert base + (after - derived) == edb + after;
    SN.LeastButNothing(prog, strata, s, base, edb + after);
  }

  /** From no derived support the strata build up the perfect model. */
  lemma {:induction false} StepsFromNothing(prog: Program, strata: seq<nat>, n: nat, edb: set<Triple>,
                                            chain: seq<set<Triple>>, fired: set<Inst>)
    returns (models: seq<set<Triple>>)
    requires WellFormed(prog, edb) && Stratified(prog, strata) && Steps(prog, strata, n, edb, chain, fired) && chain[0] == {}
    ensures Done(prog, strata, n, edb, chain[n], models, fired)
  {
    hide LeastStratum, Holds, Heads, Done, SN.Evaluates, SN.StratumReady;
    if n == 0 {
      assert fired == {};
      DoneAtStart(prog, strata, edb);
      models := [edb];
    } else {
      var derived := chain[n - 1];
      var lower := PreviousSteps(prog, strata, n, edb, chain, fired);
      models := StepsFromNothing(prog, strata, n - 1, edb, chain[..n], lower);
      ReadyWhenDone(prog, strata, n - 1, edb, derived, models, lower);
      var more := Part(strata, n - 1, fired);
      EvaluatesCleanly(prog, strata, n - 1, edb, derived, chain[n], more);
      NextDone(prog, strata, n - 1, edb, derived, models, lower, chain[n], more);
      models := models + [edb + chain[n]];
    }
  }

  lemma DoneAtStart(prog: Program, strata: seq<nat>, edb: set<Triple>)
    ensures Done(prog, strata, 0, edb, {}, [edb], {})
  {
    assert Heads(prog, {}) == {};
  }

  lemma ReadyWhenDone(prog: Program, strata: seq<nat>, s: nat, edb: set<Triple>, derived: set<Triple>,
                      chain: seq<set<Triple>>, fired: set<Inst>)
    requires WellFormed(prog, edb) && Stratified(prog, strata) && Done(prog, strata, s, edb, derived, chain, fired)
    ensures SN.StratumReady(prog, strata, s, edb + derived)
  {
    ReadyForStratum(prog, strata, s, edb, derived);
  }

  /** The strata are those of the least level assignment. */
  ghost predicate LeastStrata(prog: Program, strata: S.Strata) {
    exists level :: S.LeastLevels(prog, level) && S.StrataOf(prog, level, strata)
  }

  /** `derived` is what the perfect model of the program adds to the asserted facts. */
  ghost predicate Evaluated(prog: Program, edb: set<Triple>, derived: set<Triple>) {
    && edb !! derived
    && exists strata :: LeastStrata(prog, strata) && PerfectModel(prog, strata.rules, strata.count, edb, edb + derived)
  }

  ghost predicate CannotEvaluate(prog: Program) {
    prog != [] && (S.NegCycle(prog) || exists r :: r in prog && !HasPositive(r))
  }

  /** `fired` are the applications true in the model. */
  ghost predicate TrueApplications(prog: Program, model: set<Triple>, fired: set<Inst>) {
    forall i :: i in fired <==> Holds(prog, i, model, model)
  }

  /** What evaluation makes of the derived support it finds. */
  ghost predicate EvaluatedFrom(prog: Program, edb: set<Triple>, derived: set<Triple>, after: set<Triple>, fired: set<Inst>) {
    exists strata, chain ::
      && LeastStrata(prog, strata) && Steps(prog, strata.rules, strata.count, edb, chain, fired)
      && chain[0] == derived && chain[strata.count] == after
  }

  lemma EmptyProgram(prog: Program, edb: set<Triple>, derived: set<Triple>)
    requires prog == []
    ensures EvaluatedFrom(prog, edb, derived, derived, {})
  {
    var strata := S.Strata([], 1);
    assert S.LeastLevels(prog, map[]) && S.StrataOf(prog, map[], strata);
    EmptyStratum(prog, [], 0, edb + derived, derived);
    assert Part([], 0, {}) == {};
    var chain := [derived, derived];
    assert LeastStrata(prog, strata) && Steps(prog, strata.rules, strata.count, edb, chain, {});
    assert chain[0] == derived && chain[strata.count] == derived;
  }

  lemma StrataDone(prog: Program, level: map<Symbol, nat>, strata: S.Strata, edb: set<Triple>, derived: set<Triple>,
                   chain: seq<set<Triple>>, fired: set<Inst>)
    requires S.LeastLevels(prog, level) && S.StrataOf(prog, level, strata)
    requires Done(prog, strata.rules, strata.count, edb, derived, chain, fired)
    ensures Evaluated(prog, edb, derived) && TrueApplications(prog, edb + derived, fired)
    ensures derived == Heads(prog, fired)
  {
    hide Holds, S.LeastLevels, LeastStratum;
    assert LeastStrata(prog, strata);
    forall i ensures i in fired <==> Holds(prog, i, edb + derived, edb + derived) {
      if i.rule >= |prog| { NotAnInst(prog, i, edb + derived); }
    }
  }

  lemma NotAnInst(prog: Program, i: Inst, model: set<Triple>)
    requires i.rule >= |prog|
    ensures !Holds(prog, i, model, model)
  {
  }

  /** Without derived support to start from, evaluation computes the perfect model. */
  lemma FromNothing(prog: Program, edb: set<Triple>, after: set<Triple>, fired: set<Inst>)
    requires WellFormed(prog, edb) && EvaluatedFrom(prog, edb, {}, after, fired)
    ensures Evaluated(prog, edb, after) && TrueApplications(prog, edb + after, fired) && after == Heads(prog, fired)
  {
    hide S.LeastLevels, S.StrataOf, Done, Evaluated, TrueApplications, Heads, SN.Evaluates;
    var strata, chain :|
      && LeastStrata(prog, strata) && Steps(prog, strata.rules, strata.count, edb, chain, fired)
      && chain[0] == {} && chain[strata.count] == after;
    var level :| S.LeastLevels(prog, level) && S.StrataOf(prog, level, strata);
    LevelsStratify(prog, level, strata);
    var models := StepsFromNothing(prog, strata.rules, strata.count, edb, chain, fired);
    StrataDone(prog, level, strata, edb, after, models, fired);
  }

  /** facts_datalog_eval_locked: -1 when the program cannot be stratified or a rule has no positive subgoal,
      otherwise the number of facts that gained derived support. */
  method EvalLocked(prog: Program, main: Facts, staging: JustificationGraph) returns (result: int, ghost fired: set<Inst>)
    requires SafeRules(prog)
    requires Stageable(staging)
    modifies main`derived, staging
    ensures result >= -1 && (result == -1 <==> CannotEvaluate(prog))
    ensures result != -1 ==> result == |main.derived| - |old(main.derived)|
    ensures result != -1 ==> EvaluatedFrom(prog, main.asserted, old(main.derived), main.derived, fired)
    ensures result != -1 && old(main.derived) == {} && WellFormed(prog, main.asserted) ==>
              && Evaluated(prog, main.asserted, main.derived)
              && TrueApplications(prog, main.Visible(), fired) && main.derived == Heads(prog, fired)
    ensures result != -1 ==> Staged(staging, old(GraphItems(staging)), prog, fired)
  {
    hide LeastStratum, Holds, Heads, Justs, Steps, Evaluated, S.LeastLevels, S.NegCycle;
    fired := {};
    if prog == [] {
      EmptyProgram(prog, main.asserted, main.derived);
      if main.derived == {} && WellFormed(prog, main.asserted) { FromNothing(prog, main.asserted, {}, {}); }
      StagedNothing(staging, prog);
      return 0, fired;
    }
    var strata, level := S.Stratify(prog);
    SomeConstant(prog);
    if strata.None? { return -1, fired; }
    LevelsStratify(prog, level, strata.value);
    var ok, count;
    ghost var chain;
    ok, count, chain, fired := EvalStrata(prog, strata.value.rules, strata.value.count, main, staging);
    if !ok { return -1, fired; }
    assert LeastStrata(prog, strata.value);
    if old(main.derived) == {} && WellFormed(prog, main.asserted) { FromNothing(prog, main.asserted, main.derived, fired); }
    result := count;
  }

  lemma SomeConstant(prog: Program)
    requires prog != [] && ConstantPredicates(prog)
    ensures S.HasConstantPredicate(prog)
  {
    assert prog[0] in prog;
    assert S.Occurs(prog, |prog|, prog[0].head.p);
  }

  /** facts_datalog_eval: as above, inside one transaction that is rolled back on failure. */
  method Eval(prog: Program, main: Facts, staging: JustificationGraph) returns (result: int, ghost fired: set<Inst>)
    requires SafeRules(prog)
    requires Stageable(staging)
    modifies main`derived, staging
    ensures result >= -1 && (result == -1 <==> CannotEvaluate(prog))
    ensures result == -1 ==> main.derived == old(main.derived)
    ensures result != -1 ==> result == |main.derived| - |old(main.derived)|
    ensures result != -1 ==> EvaluatedFrom(prog, main.asserted, old(main.derived), main.derived, fired)
    ensures result != -1 && old(main.derived) == {} && WellFormed(prog, main.asserted) ==>
              && Evaluated(prog, main.asserted, main.derived)
              && TrueApplications(prog, main.Visible(), fired) && main.derived == Heads(prog, fired)
    ensures result != -1 ==> Staged(staging, old(GraphItems(staging)), prog, fired)
  {
    hide EvaluatedFrom, Evaluated, TrueApplications, CannotEvaluate;
    var saved := main.derived;
    result, fired := EvalLocked(prog, main, staging);
    if result < 0 { main.derived := saved; }
  }

  /** The recorded proofs are, once each, the grounded rule applications true in the model. */
  ghost predicate ExactProofs(prog: Program, model: set<Triple>, items: seq<Justification>) {
    && NoDup(items)
    && forall j :: j in items <==> exists i :: Holds(prog, i, model, model) && j == Just(prog, i)
  }

  /** The same without saying how a proof is put together: each item records a true application, and each true
      application is recorded. */
  ghost predicate RecordsExactly(prog: Program, model: set<Triple>, items: seq<Justification>) {
    && NoDup(items)
    && (forall j | j in items :: exists i :: Holds(prog, i, model, model) && Records(prog, i, j))
    && forall i, j | Holds(prog, i, model, model) && Records(prog, i, j) :: j in items
  }

  lemma ExactIsRecorded(prog: Program, model: set<Triple>, items: seq<Justification>)
    ensures ExactProofs(prog, model, items) <==> RecordsExactly(prog, model, items)
  {
    hide Records, Just;
    forall i, j | Holds(prog, i, model, model) ensures Records(prog, i, j) <==> j == Just(prog, i) {
      JustRecords(prog, i, j);
    }
    if RecordsExactly(prog, model, items) {
      forall i | Holds(prog, i, model, model) ensures Just(prog, i) in items {
        assert Records(prog, i, Just(prog, i));
      }
    }
    if ExactProofs(prog, model, items) {
      forall j | j in items ensures exists i :: Holds(prog, i, model, model) && Records(prog, i, j) {
        var i :| Holds(prog, i, model, model) && j == Just(prog, i);
        assert Records(prog, i, j);
      }
    }
  }

  /** What forgetting a support reports. */
  ghost predicate Reports(items: seq<Justification>, f: Triple, negated: bool, c: Triple) {
    exists j :: j in items && Uses(j, f, negated) && j.head == c
  }

  /** A true application with this conclusion needs the fact present or, negated, absent. */
  ghost predicate NeedsFact(prog: Program, model: set<Triple>, f: Triple, negated: bool, c: Triple) {
    exists i :: Holds(prog, i, model, model) && HeadOf(prog, i) == c
                && f in if negated then NegFacts(prog, i) else PosFacts(prog, i)
  }

  /** Forgetting a support reports the conclusions of the true applications that need the fact present, or, for
      a negated support, absent. */
  lemma SupportReported(prog: Program, model: set<Triple>, items: seq<Justification>, f: Triple, negated: bool, c: Triple)
    requires RecordsExactly(prog, model, items)
    ensures Reports(items, f, negated, c) <==> NeedsFact(prog, model, f, negated, c)
  {
    hide NegFacts, PosFacts, Uses;
    if j :| j in items && Uses(j, f, negated) && j.head == c {
      var i :| Holds(prog, i, model, model) && Records(prog, i, j);
      RecordedSupports(prog, i, j);
    }
    if i :| Holds(prog, i, model, model) && HeadOf(prog, i) == c && f in if negated then NegFacts(prog, i) else PosFacts(prog, i) {
      JustRecords(prog, i, Just(prog, i));
      RecordedSupports(prog, i, Just(prog, i));
    }
  }

  lemma AllReported(prog: Program, model: set<Triple>, items: seq<Justification>)
    requires RecordsExactly(prog, model, items)
    ensures forall f, negated, c :: Reports(items, f, negated, c) <==> NeedsFact(prog, model, f, negated, c)
  {
    hide RecordsExactly, Reports, NeedsFact;
    forall f, negated, c ensures Reports(items, f, negated, c) <==> NeedsFact(prog, model, f, negated, c) {
      SupportReported(prog, model, items, f, negated, c);
    }
  }

  lemma ExactFromFired(prog: Program, model: set<Triple>, items: seq<Justification>, fired: set<Inst>)
    requires TrueApplications(prog, model, fired) && NoDup(items) && Elems(items) == Justs(prog, fired)
    ensures ExactProofs(prog, model, items)
  {
    forall j ensures j in items <==> exists i :: Holds(prog, i, model, model) && j == Just(prog, i) {
      assert j in items <==> j in Elems(items);
    }
  }

  /** A fact has a recorded proof exactly when it is the head of a true application. */
  lemma ProvedIsDerived(prog: Program, model: set<Triple>, items: seq<Justification>, fired: set<Inst>, f: Triple)
    requires TrueApplications(prog, model, fired) && ExactProofs(prog, model, items)
    ensures CountOf(items, f) > 0 <==> f in Heads(prog, fired)
  {
    CountPositive(items, f);
    if f in Heads(prog, fired) {
      var i :| i in fired && i.rule < |prog| && f == HeadOf(prog, i);
      assert Just(prog, i) in items;
    }
  }

  /** facts_attach_program: drop all derived support, evaluate into a fresh graph, and keep both or neither. */
  method Attach(prog: Program, main: Facts, graph: JustificationGraph)
    returns (ok: bool, current: JustificationGraph, ghost fired: set<Inst>)
    requires SafeRules(prog)
    modifies main`derived
    ensures ok <==> !CannotEvaluate(prog)
    ensures !ok ==> main.derived == old(main.derived) && current == graph
    ensures ok ==> EvaluatedFrom(prog, main.asserted, {}, main.derived, fired)
    ensures ok ==> NoDup(current.items) && Elems(current.items) == Justs(prog, fired)
    ensures ok && WellFormed(prog, main.asserted) ==>
              && Evaluated(prog, main.asserted, main.derived) && RecordsExactly(prog, main.Visible(), current.items)
              && forall f :: CountOf(current.items, f) > 0 <==> f in main.derived
    ensures ok && WellFormed(prog, main.asserted) ==>
              forall f, negated, c :: Reports(current.items, f, negated, c) <==> NeedsFact(prog, main.Visible(), f, negated, c)
  {
    hide Holds, Heads, Justs, Evaluated, EvaluatedFrom, CannotEvaluate, RecordsExactly, Reports, NeedsFact;
    var saved := main.derived;
    var staging := new JustificationGraph(true);
    main.derived := {};
    ghost var none := GraphItems(staging);
    var result;
    result, fired := Eval(prog, main, staging);
    if result < 0 {
      main.derived := saved;
      return false, graph, fired;
    }
    assert none == {} && Elems(staging.items) == Justs(prog, fired);
    if WellFormed(prog, main.asserted) {
      ExactFromFired(prog, main.Visible(), staging.items, fired);
      forall f { ProvedIsDerived(prog, main.Visible(), staging.items, fired, f); }
      ExactIsRecorded(prog, main.Visible(), staging.items);
      AllReported(prog, main.Visible(), staging.items);
    }
    return true, staging, fired;
  }

  // ---- what the perfect model is ----

  lemma LeastStratumUnique(prog: Program, strata: seq<nat>, s: nat, base: set<Triple>, a: set<Triple>, b: set<Triple>)
    requires LeastStratum(prog, strata, s, base, a) && LeastStratum(prog, strata, s, base, b)
    ensures a == b
  {
    LeastBelow(prog, strata, s, base, a, b);
    LeastBelow(prog, strata, s, base, b, a);
  }

  lemma LeastBelow(prog: Program, strata: seq<nat>, s: nat, base: set<Triple>, a: set<Triple>, b: set<Triple>)
    requires LeastStratum(prog, strata, s, base, a) && LeastStratum(prog, strata, s, base, b)
    ensures a <= b
  {
    var x := AsIset(b);
    forall i: Inst | InStratum(strata, s, i) && IsInst(prog, i) && Within(PosFacts(prog, i), x) && NegFacts(prog, i) !! base
      ensures HeadOf(prog, i) in x
    {
      assert PosFacts(prog, i) <= b;
      assert Holds(prog, i, b, base);
    }
    assert Closed(prog, strata, s, base, x);
    assert Within(a, x);
  }

  /** There is one perfect model. */
  lemma {:induction false} PerfectModelUnique(prog: Program, strata: seq<nat>, n: nat, edb: set<Triple>,
                                              c: seq<set<Triple>>, d: seq<set<Triple>>)
    requires PerfectChain(prog, strata, n, edb, c) && PerfectChain(prog, strata, n, edb, d)
    ensures c[n] == d[n]
  {
    hide LeastStratum;
    if n > 0 {
      assert PerfectChain(prog, strata, n - 1, edb, c[..n]) && PerfectChain(prog, strata, n - 1, edb, d[..n]);
      PerfectModelUnique(prog, strata, n - 1, edb, c[..n], d[..n]);
      LeastStratumUnique(prog, strata, n - 1, c[n - 1], c[n], d[n]);
    }
  }

  /** Without negation the perfect model is the least model. */
  lemma PerfectIsLeast(prog: Program, strata: S.Strata, edb: set<Triple>, m: set<Triple>)
    requires LeastStrata(prog, strata) && PerfectModel(prog, strata.rules, strata.count, edb, m) && !Negated(prog)
    ensures LeastModel(prog, edb, AsIset(m))
  {
    var level :| S.LeastLevels(prog, level) && S.StrataOf(prog, level, strata);
    S.OneStratum(prog, level, strata);
    var chain :| PerfectChain(prog, strata.rules, 1, edb, chain) && chain[1] == m;
    assert LeastStratum(prog, strata.rules, 0, chain[0], chain[1]);
    forall i: Inst | IsInst(prog, i)
      ensures NegFacts(prog, i) == {} && InStratum(strata.rules, 0, i)
    {
    }
    forall i: Inst | IsInst(prog, i) && Within(PosFacts(prog, i), AsIset(m)) ensures HeadOf(prog, i) in m {
      assert Holds(prog, i, m, edb);
    }
    forall x: iset<Triple> | Within(edb, x) && ClosedUnder(prog, x) ensures AsIset(m) <= x {
      assert Closed(prog, strata.rules, 0, edb, x);
      assert Within(m, x);
    }
  }
}
