/** Rules over triples, grounded rule applications and the models they define.
    A symbol whose text begins with '?' is a variable (lib/rule.c:135-138); every other one is a constant. */
module Datalog {
  datatype Symbol = Variable(name: string) | Constant(name: string)

  type Bindings = map<Symbol, Symbol>

  datatype Triple = Triple(s: Symbol, p: Symbol, o: Symbol)
  datatype Subgoal = Subgoal(atom: Triple, negated: bool)
  datatype Rule = Rule(head: Triple, body: seq<Subgoal>)
  type Program = seq<Rule>

  /** A rule together with a value for each variable of its positive subgoals. */
  datatype Inst = Inst(rule: nat, b: Bindings)

  datatype Support = Support(fact: Triple, negated: bool)
  datatype Justification = Justification(head: Triple, rule: nat, supports: seq<Support>)

  predicate IsVar(t: Symbol) {
    t.Variable?
  }

  function Terms(t: Triple): set<Symbol> {
    {t.s, t.p, t.o}
  }

  function VarOf(t: Symbol): set<Symbol> {
    if IsVar(t) then {t} else {}
  }

  function Vars(t: Triple): set<Symbol> {
    VarOf(t.s) + VarOf(t.p) + VarOf(t.o)
  }

  function Value(x: Symbol, b: Bindings): Symbol {
    if x in b then b[x] else x
  }

  function Apply(t: Triple, b: Bindings): Triple {
    Triple(Value(t.s, b), Value(t.p, b), Value(t.o, b))
  }

  function PosVars(body: seq<Subgoal>): set<Symbol> {
    set j, x | 0 <= j < |body| && !body[j].negated && x in Vars(body[j].atom) :: x
  }

  /** What datalog_rule_validate checks. */
  predicate Safe(r: Rule) {
    && Vars(r.head) <= PosVars(r.body)
    && forall j | 0 <= j < |r.body| && r.body[j].negated :: Vars(r.body[j].atom) <= PosVars(r.body)
  }

  predicate HasPositive(r: Rule) {
    exists j :: 0 <= j < |r.body| && !r.body[j].negated
  }

  predicate ConstantPredicates(prog: Program) {
    forall r | r in prog ::
      !IsVar(r.head.p) && forall j | 0 <= j < |r.body| :: !IsVar(r.body[j].atom.p)
  }

  predicate Negated(prog: Program) {
    exists r, j :: 0 <= r < |prog| && 0 <= j < |prog[r].body| && prog[r].body[j].negated
  }

  function HeadPreds(prog: Program): set<Symbol> {
    set r | r in prog :: r.head.p
  }

  predicate IsInst(prog: Program, i: Inst) {
    i.rule < |prog| && i.b.Keys == PosVars(prog[i.rule].body)
  }

  function HeadOf(prog: Program, i: Inst): Triple
    requires i.rule < |prog|
  {
    Apply(prog[i.rule].head, i.b)
  }

  function PosFacts(prog: Program, i: Inst): set<Triple>
    requires i.rule < |prog|
  {
    var body := prog[i.rule].body;
    set j | 0 <= j < |body| && !body[j].negated :: Apply(body[j].atom, i.b)
  }

  function NegFacts(prog: Program, i: Inst): set<Triple>
    requires i.rule < |prog|
  {
    var body := prog[i.rule].body;
    set j | 0 <= j < |body| && body[j].negated :: Apply(body[j].atom, i.b)
  }

  /** The proof recorded for a grounded rule application: one support for each subgoal, in order. */
  function Just(prog: Program, i: Inst): Justification
    requires i.rule < |prog|
  {
    var body := prog[i.rule].body;
    Justification(HeadOf(prog, i), i.rule,
                  seq(|body|, j requires 0 <= j < |body| => Support(Apply(body[j].atom, i.b), body[j].negated)))
  }

  ghost predicate Within(facts: set<Triple>, x: iset<Triple>) {
    forall f | f in facts :: f in x
  }

  /** The application is true when its positive subgoals are in `pos` and its negated ones are not in `neg`. */
  predicate Holds(prog: Program, i: Inst, pos: set<Triple>, neg: set<Triple>) {
    IsInst(prog, i) && PosFacts(prog, i) <= pos && NegFacts(prog, i) !! neg
  }

  predicate InStratum(strata: seq<nat>, s: nat, i: Inst) {
    i.rule < |strata| && strata[i.rule] == s
  }

  /** `x` is closed under the rules of stratum `s`, negation being read from `neg`. */
  ghost predicate Closed(prog: Program, strata: seq<nat>, s: nat, neg: set<Triple>, x: iset<Triple>) {
    forall i: Inst | InStratum(strata, s, i) && IsInst(prog, i) ::
      Within(PosFacts(prog, i), x) && NegFacts(prog, i) !! neg ==> HeadOf(prog, i) in x
  }

  /** `m` is the least set that holds `base` and is closed under the rules of stratum `s`, where a
      negated subgoal is read from `base`, the completed lower strata. */
  ghost predicate LeastStratum(prog: Program, strata: seq<nat>, s: nat, base: set<Triple>, m: set<Triple>) {
    && base <= m
    && (forall i: Inst | InStratum(strata, s, i) && Holds(prog, i, m, base) :: HeadOf(prog, i) in m)
    && (forall x: iset<Triple> | Within(base, x) && Closed(prog, strata, s, base, x) :: Within(m, x))
  }

  /** `chain[s]` is the model of the strata below `s`: the least fixpoint of each stratum in turn. */
  ghost predicate PerfectChain(prog: Program, strata: seq<nat>, n: nat, edb: set<Triple>, chain: seq<set<Triple>>) {
    && |chain| == n + 1
    && chain[0] == edb
    && forall s: nat | s < n :: LeastStratum(prog, strata, s, chain[s], chain[s + 1])
  }

  ghost predicate PerfectModel(prog: Program, strata: seq<nat>, n: nat, edb: set<Triple>, m: set<Triple>) {
    exists chain :: PerfectChain(prog, strata, n, edb, chain) && chain[n] == m
  }

  /** The least model of a program whose negated subgoals, if any, are ignored: used for negation-free ones. */
  ghost predicate ClosedUnder(prog: Program, x: iset<Triple>) {
    forall i: Inst | IsInst(prog, i) && Within(PosFacts(prog, i), x) :: HeadOf(prog, i) in x
  }

  ghost predicate LeastModel(prog: Program, edb: set<Triple>, m: iset<Triple>) {
    && Within(edb, m)
    && ClosedUnder(prog, m)
    && forall x: iset<Triple> | Within(edb, x) && ClosedUnder(prog, x) :: m <= x
  }

  ghost function AsIset(m: set<Triple>): (x: iset<Triple>)
    ensures forall f :: f in x <==> f in m
  {
    iset f | f in m
  }
}
