/** What the magic facts are (lib/magic.c): the calls that left-to-right evaluation makes from the goal. */
module MagicCalls {
  import opened Collections
  import opened Datalog
  import opened Magic
  import opened MagicAnswers

  /** A call of a predicate: a value for each argument that is known. */
  datatype Query = Query(name: string, s: Option<Symbol>, o: Option<Symbol>)

  function AdOf(q: Query): Adornment {
    Adornment(q.s.Some?, q.o.Some?)
  }

  function KnownIf(known: bool, x: Symbol): Option<Symbol> {
    if known then Some(x) else None
  }

  /** A fact asked for with these arguments known. */
  function QueryOf(f: Triple, ad: Adornment): Query {
    Query(f.p.name, KnownIf(ad.s, f.s), KnownIf(ad.o, f.o))
  }

  /** Evaluating rule `r` for the query, its subgoals before `j` being true in the model, calls subgoal `j` with the
      values that are determined by then. */
  ghost predicate Calls(prog: Program, m: iset<Triple>, q: Query, r: nat, b: Bindings, j: nat, next: Query) {
    && r < |prog| && j < |prog[r].body| && b.Keys == PosVars(prog[r].body)
    && prog[r].head.p == Constant(q.name) && IsIdb(prog, prog[r].body[j].atom.p)
    && (q.s.Some? ==> Value(prog[r].head.s, b) == q.s.value) && (q.o.Some? ==> Value(prog[r].head.o, b) == q.o.value)
    && (forall k: nat | k < j :: Apply(prog[r].body[k].atom, b) in m)
    && var t := prog[r].body[j].atom;
       && next.name == t.p.name
       && next.s == KnownIf(Determined(prog[r], AdOf(q), j, t.s), Value(t.s, b))
       && next.o == KnownIf(Determined(prog[r], AdOf(q), j, t.o), Value(t.o, b))
  }

  /** Calls in a row, the latest outermost. */
  datatype Way = First(q: Query) | Then(prev: Way, r: nat, b: Bindings, j: nat, q: Query)

  ghost predicate IsWay(prog: Program, m: iset<Triple>, w: Way) {
    w.Then? ==> IsWay(prog, m, w.prev) && Calls(prog, m, w.prev.q, w.r, w.b, w.j, w.q)
  }

  function Start(w: Way): Query {
    if w.First? then w.q else Start(w.prev)
  }

  function GoalQuery(goal: Triple): Query {
    QueryOf(goal, GoalAd(goal))
  }

  /** The goal makes the call. */
  ghost predicate AskedByGoal(prog: Program, goal: Triple, m: iset<Triple>, q: Query) {
    exists w :: IsWay(prog, m, w) && Start(w) == GoalQuery(goal) && w.q == q
  }

  /** Or a predicate makes it that the goal may call with nothing known: the rewrite puts no guard on its rules. */
  ghost predicate Asked(prog: Program, goal: Triple, m: iset<Triple>, q: Query) {
    exists w :: IsWay(prog, m, w) && w.q == q
                && (Start(w) == GoalQuery(goal)
                    || (AdOf(Start(w)) == FREE && CalledFrom(prog, goal, Adorned(Start(w).name, FREE))))
  }

  /** The magic fact of a call. */
  function MagicOf(q: Query): Triple
    requires AdOf(q) != FREE
  {
    var p := Constant(MagicName(Adorned(q.name, AdOf(q))));
    if q.s.Some? && q.o.Some? then Triple(q.s.value, p, q.o.value)
    else Triple(if q.s.Some? then q.s.value else q.o.value, p, Constant("true"))
  }

  lemma MagicOfFact(f: Triple, ad: Adornment)
    requires ad != FREE
    ensures AdOf(QueryOf(f, ad)) == ad && MagicAtom(f, ad) == MagicOf(QueryOf(f, ad))
  {
    assert Adornment(ad.s, ad.o) == ad;
  }

  lemma MagicOfDiffers(q: Query, k: Query)
    requires AdOf(q) != FREE && AdOf(k) != FREE && MagicOf(q) == MagicOf(k)
    ensures q == k
  {
    NamesDiffer(Adorned(q.name, AdOf(q)), Adorned(k.name, AdOf(k)));
    hide MagicName;
    assert q == Query(q.name, q.s, q.o) && k == Query(k.name, k.s, k.o);
  }

  // ---- every call has its magic fact ----

  lemma FollowsCall(prog: Program, edb: set<Triple>, goal: Triple, queue: seq<Adorned>, m: iset<Triple>, mm: iset<Triple>,
                    e: nat, q: Query, r: nat, b: Bindings, j: nat, next: Query)
    requires Rewritable(prog, edb) && Worklist(prog, goal, queue) && !IsVar(goal.p) && IsIdb(prog, goal.p)
    requires LeastModel(prog, edb, m) && LeastModel(Output(prog, queue, |queue|), edb + Seed(goal), mm)
    requires Calls(prog, m, q, r, b, j, next) && e < |queue| && queue[e] == Adorned(q.name, AdOf(q))
    requires AdOf(q) != FREE ==> MagicOf(q) in mm
    ensures Following(prog, edb, queue, m, mm, e, Inst(r, b), j)
  {
    hide Rewritable, Output, Answered, Successors, Determined, NoDup;
    PlainRule(prog, edb, r);
    PosVarsAreVars(prog[r].body);
    AllAnswered(prog, edb, goal, queue, m, mm);
    var h := HeadOf(prog, Inst(r, b));
    if AdOf(q) != FREE {
      MagicOfFact(h, AdOf(q));
      HeadAsked(prog[r].head, b, q);
    }
    forall k: nat | k < j ensures var f := Apply(prog[r].body[k].atom, b); f in edb || IsIdb(prog, f.p) {
      PlainConstant(prog, edb);
      ModelFacts(prog, edb, m, Apply(prog[r].body[k].atom, b));
    }
    assert Within(edb, mm);
  }

  lemma PlainConstant(prog: Program, edb: set<Triple>)
    requires Rewritable(prog, edb)
    ensures ConstantPredicates(prog)
  {
  }

  lemma HeadAsked(head: Triple, b: Bindings, q: Query)
    requires !IsVar(head.p) && head.p == Constant(q.name) && (forall x | x in b :: IsVar(x))
    requires (q.s.Some? ==> Value(head.s, b) == q.s.value) && (q.o.Some? ==> Value(head.o, b) == q.o.value)
    ensures QueryOf(Apply(head, b), AdOf(q)) == q
  {
  }

  lemma CallIsMagic(prog: Program, edb: set<Triple>, goal: Triple, queue: seq<Adorned>, m: iset<Triple>, mm: iset<Triple>,
                    q: Query, r: nat, b: Bindings, j: nat, next: Query)
    requires Rewritable(prog, edb) && Worklist(prog, goal, queue) && !IsVar(goal.p) && IsIdb(prog, goal.p)
    requires LeastModel(prog, edb, m) && LeastModel(Output(prog, queue, |queue|), edb + Seed(goal), mm)
    requires Calls(prog, m, q, r, b, j, next) && Adorned(q.name, AdOf(q)) in queue
    requires AdOf(q) != FREE ==> MagicOf(q) in mm
    ensures Adorned(next.name, AdOf(next)) in queue && (AdOf(next) != FREE ==> MagicOf(next) in mm)
  {
    var e: nat :| e < |queue| && queue[e] == Adorned(q.name, AdOf(q));
    FollowsCall(prog, edb, goal, queue, m, mm, e, q, r, b, j, next);
    hide Output, Answered, Successors, Determined, NoDup, Rewritable, LeastModel, Following, MagicAtom, SubAd;
    var rule, ad := prog[r], AdOf(q);
    var t, sub := rule.body[j].atom, SubAd(rule, ad, j);
    SubAdDetermined(rule, ad, j);
    PlainRule(prog, edb, r);
    PosVarsAreVars(rule.body);
    ApplyAtoms(t, sub, b);
    NextIs(t, b, sub, next);
    CalledIsSuccessor(prog, queue[e], r, j);
    assert Entry(t.p, sub) in Elems(queue);
    BodyAnswered(prog, edb, queue, m, mm, e, Inst(r, b), j);
    if sub != FREE {
      NewRuleFires(prog, edb, queue, m, mm, e, Inst(r, b), j, j, MagicRule(prog, rule, ad, j));
      MagicOfFact(Apply(t, b), sub);
    }
  }

  lemma NextIs(t: Triple, b: Bindings, sub: Adornment, next: Query)
    requires !IsVar(t.p) && (forall x | x in b :: IsVar(x)) && next.name == t.p.name
    requires next.s == KnownIf(sub.s, Value(t.s, b)) && next.o == KnownIf(sub.o, Value(t.o, b))
    ensures next == QueryOf(Apply(t, b), sub) && AdOf(next) == sub && Adorned(next.name, AdOf(next)) == Entry(t.p, sub)
  {
    assert Adornment(sub.s, sub.o) == sub;
    assert next == Query(next.name, next.s, next.o);
  }

  lemma {:induction false} WayIsMagic(prog: Program, edb: set<Triple>, goal: Triple, queue: seq<Adorned>, m: iset<Triple>,
                                      mm: iset<Triple>, w: Way)
    requires Rewritable(prog, edb) && Worklist(prog, goal, queue) && !IsVar(goal.p) && IsIdb(prog, goal.p)
    requires LeastModel(prog, edb, m) && LeastModel(Output(prog, queue, |queue|), edb + Seed(goal), mm)
    requires IsWay(prog, m, w)
    requires Start(w) == GoalQuery(goal) || (AdOf(Start(w)) == FREE && CalledFrom(prog, goal, Adorned(Start(w).name, FREE)))
    ensures Adorned(w.q.name, AdOf(w.q)) in queue && (AdOf(w.q) != FREE ==> MagicOf(w.q) in mm)
  {
    hide Rewritable, Output, Worklist, Calls, CalledFrom;
    if w.First? {
      QueueIsCalled(prog, goal, queue);
      if w.q == GoalQuery(goal) {
        GoalIsFirst(prog, goal, queue);
        if GoalAd(goal) != FREE {
          MagicOfFact(goal, GoalAd(goal));
          assert MagicOf(w.q) in Seed(goal);
          assert Within(edb + Seed(goal), mm);
        }
      }
    } else {
      WayIsMagic(prog, edb, goal, queue, m, mm, w.prev);
      hide LeastModel;
      CallIsMagic(prog, edb, goal, queue, m, mm, w.prev.q, w.r, w.b, w.j, w.q);
    }
  }

  lemma GoalIsFirst(prog: Program, goal: Triple, queue: seq<Adorned>)
    requires Worklist(prog, goal, queue)
    ensures Adorned(goal.p.name, GoalAd(goal)) in queue && AdOf(GoalQuery(goal)) == GoalAd(goal)
  {
    assert queue[0] == GoalEntry(goal);
  }

  // ---- every magic fact is a call ----

  ghost predicate Relevant(prog: Program, goal: Triple, m: iset<Triple>, g: Triple) {
    exists q :: AdOf(q) != FREE && IsIdb(prog, Constant(q.name)) && Asked(prog, goal, m, q) && g == MagicOf(q)
  }

  ghost predicate NamedMagic(prog: Program, g: Triple) {
    exists a :: Derived(prog, a) && g.p == Constant(MagicName(a))
  }

  /** What the rewritten program may derive. */
  ghost predicate Justified(prog: Program, goal: Triple, m: iset<Triple>, g: Triple) {
    Relevant(prog, goal, m, g) || (Sound(prog, m, g) && !NamedMagic(prog, g))
  }

  lemma JustifiedIsSound(prog: Program, goal: Triple, m: iset<Triple>, g: Triple)
    requires Justified(prog, goal, m, g)
    ensures Sound(prog, m, g)
  {
    if Relevant(prog, goal, m, g) {
      var q :| AdOf(q) != FREE && IsIdb(prog, Constant(q.name)) && Asked(prog, goal, m, q) && g == MagicOf(q);
      assert Derived(prog, Adorned(q.name, AdOf(q)));
    }
  }

  /** A magic fact that is justified is called. */
  lemma JustifiedIsAsked(prog: Program, goal: Triple, m: iset<Triple>, f: Triple, ad: Adornment)
    requires ad != FREE && IsIdb(prog, f.p) && !IsVar(f.p) && Justified(prog, goal, m, MagicAtom(f, ad))
    ensures Asked(prog, goal, m, QueryOf(f, ad))
  {
    hide Sound, Asked, MagicName;
    assert Derived(prog, Entry(f.p, ad)) && MagicAtom(f, ad).p == Constant(MagicName(Entry(f.p, ad)));
    assert NamedMagic(prog, MagicAtom(f, ad));
    var q :| AdOf(q) != FREE && IsIdb(prog, Constant(q.name)) && Asked(prog, goal, m, q) && MagicAtom(f, ad) == MagicOf(q);
    MagicOfFact(f, ad);
    MagicOfDiffers(q, QueryOf(f, ad));
  }

  function Extended(b: Bindings, vars: set<Symbol>): Bindings {
    map x | x in vars :: if x in b then b[x] else Constant("a")
  }

  lemma ExtendedSame(t: Symbol, b: Bindings, vars: set<Symbol>)
    requires (IsVar(t) ==> t in b) && b.Keys <= vars && forall x | x in vars :: IsVar(x)
    ensures Value(t, Extended(b, vars)) == Value(t, b)
  {
  }

  /** Values for the rest of the rule's variables change nothing that a magic rule looks at. */
  lemma TermKept(prog: Program, r: Rule, ad: Adornment, j: nat, n: nat, b: Bindings, t: Symbol)
    requires Plain(r) && n <= j <= |r.body| && b.Keys == PosVars(NewBody(prog, r, ad, j)) && IsBound(t, BoundBefore(r, ad, n))
    ensures Value(t, Extended(b, PosVars(r.body))) == Value(t, b)
  {
    hide NewBody, PosVars, BoundBefore, Extended, Plain;
    PosVarsAreVars(r.body);
    NewVarsKnown(prog, r, ad, j);
    BoundInBody(prog, r, ad, n, j);
    ExtendedSame(t, b, PosVars(r.body));
  }

  lemma SubgoalKept(prog: Program, r: Rule, ad: Adornment, j: nat, k: nat, b: Bindings)
    requires Plain(r) && k < j <= |r.body| && b.Keys == PosVars(NewBody(prog, r, ad, j))
    ensures Apply(r.body[k].atom, Extended(b, PosVars(r.body))) == Apply(r.body[k].atom, b)
  {
    hide NewBody, BoundBefore, Extended, PosVars;
    var t := r.body[k].atom;
    EarlierAreBound(r, ad, j, k);
    TermKept(prog, r, ad, j, j, b, t.s);
    TermKept(prog, r, ad, j, j, b, t.o);
    TermKept(prog, r, ad, j, j, b, t.p);
  }

  lemma EndsKept(prog: Program, r: Rule, ad: Adornment, j: nat, b: Bindings)
    requires Plain(r) && j < |r.body| && b.Keys == PosVars(NewBody(prog, r, ad, j))
    ensures var (t, sub, c) := (r.body[j].atom, SubAd(r, ad, j), Extended(b, PosVars(r.body)));
            && (sub.s ==> Value(t.s, c) == Value(t.s, b)) && (sub.o ==> Value(t.o, c) == Value(t.o, b))
            && (ad.s ==> Value(r.head.s, c) == Value(r.head.s, b)) && (ad.o ==> Value(r.head.o, c) == Value(r.head.o, b))
  {
    hide NewBody, Extended, PosVars, Plain;
    var t, sub := r.body[j].atom, SubAd(r, ad, j);
    if sub.s { TermKept(prog, r, ad, j, j, b, t.s); }
    if sub.o { TermKept(prog, r, ad, j, j, b, t.o); }
    if ad.s { TermKept(prog, r, ad, j, 0, b, r.head.s); }
    if ad.o { TermKept(prog, r, ad, j, 0, b, r.head.o); }
  }

  lemma ThisCalls(prog: Program, m: iset<Triple>, r: nat, ad: Adornment, j: nat, b0: Bindings, b: Bindings)
    requires r < |prog| && j < |prog[r].body| && b.Keys == PosVars(prog[r].body) && IsIdb(prog, prog[r].body[j].atom.p)
    requires prog[r].head.p.Constant? && !IsVar(prog[r].body[j].atom.p) && forall x | x in b0 :: IsVar(x)
    requires forall k: nat | k < j :: Apply(prog[r].body[k].atom, b) in m
    requires var (t, h, sub) := (prog[r].body[j].atom, prog[r].head, SubAd(prog[r], ad, j));
             && (sub.s ==> Value(t.s, b) == Value(t.s, b0)) && (sub.o ==> Value(t.o, b) == Value(t.o, b0))
             && (ad.s ==> Value(h.s, b) == Value(h.s, b0)) && (ad.o ==> Value(h.o, b) == Value(h.o, b0))
    ensures Calls(prog, m, QueryOf(Apply(prog[r].head, b0), ad), r, b, j,
                  QueryOf(Apply(prog[r].body[j].atom, b0), SubAd(prog[r], ad, j)))
  {
    hide PosVars, Determined, IsIdb;
    SubAdDetermined(prog[r], ad, j);
    hide SubAd;
    assert Adornment(ad.s, ad.o) == ad;
  }

  /** What a magic rule fires on, seen as a call in the original program. */
  lemma CallOfMagicRule(prog: Program, m: iset<Triple>, r: nat, ad: Adornment, j: nat, b0: Bindings) returns (b: Bindings)
    requires r < |prog| && Plain(prog[r]) && Demands(prog, prog[r], ad, j) && b0.Keys == PosVars(NewBody(prog, prog[r], ad, j))
    requires forall k: nat | k < j :: Apply(prog[r].body[k].atom, b0) in m
    ensures Calls(prog, m, QueryOf(Apply(prog[r].head, b0), ad), r, b, j,
                  QueryOf(Apply(prog[r].body[j].atom, b0), SubAd(prog[r], ad, j)))
  {
    var rule := prog[r];
    b := Extended(b0, PosVars(rule.body));
    PosVarsAreVars(NewBody(prog, rule, ad, j));
    hide NewBody, Determined, PosVars, SubAd, Calls, Apply, QueryOf;
    EndsKept(prog, rule, ad, j, b0);
    forall k: nat | k < j ensures Apply(rule.body[k].atom, b) in m { SubgoalKept(prog, rule, ad, j, k, b0); }
    ThisCalls(prog, m, r, ad, j, b0, b);
  }

  lemma {:induction false} EarlierAreBound(r: Rule, ad: Adornment, j: nat, k: nat)
    requires k < j <= |r.body|
    ensures EndVars(r.body[k].atom) <= BoundBefore(r, ad, j)
  {
    if k < j - 1 { EarlierAreBound(r, ad, j - 1, k); }
  }

  lemma AskedNext(prog: Program, goal: Triple, m: iset<Triple>, q: Query, r: nat, b: Bindings, j: nat, next: Query)
    requires Asked(prog, goal, m, q) && Calls(prog, m, q, r, b, j, next)
    ensures Asked(prog, goal, m, next)
  {
    hide Calls, CalledFrom;
    var w :| IsWay(prog, m, w) && w.q == q
             && (Start(w) == GoalQuery(goal)
                 || (AdOf(Start(w)) == FREE && CalledFrom(prog, goal, Adorned(Start(w).name, FREE))));
    var longer := Then(w, r, b, j, next);
    assert IsWay(prog, m, longer) && Start(longer) == Start(w);
  }

  lemma FreeIsAsked(prog: Program, goal: Triple, m: iset<Triple>, q: Query)
    requires AdOf(q) == FREE && CalledFrom(prog, goal, Adorned(q.name, FREE))
    ensures Asked(prog, goal, m, q)
  {
    hide CalledFrom;
    var w := First(q);
    assert IsWay(prog, m, w) && Start(w) == q && w.q == q;
  }

  /** The head of a magic rule that fires on justified facts is a call. */
  lemma MagicRuleJustified(prog: Program, edb: set<Triple>, goal: Triple, queue: seq<Adorned>, m: iset<Triple>, i: Inst,
                           e: nat, r: nat, j: nat)
    requires Rewritable(prog, edb) && Worklist(prog, goal, queue) && LeastModel(prog, edb, m)
    requires var out := Output(prog, queue, |queue|);
             IsInst(out, i) && r < |prog| && j < |prog[r].body| && From(prog, queue, e, r, j, out[i.rule])
             && forall g | g in PosFacts(out, i) :: Justified(prog, goal, m, g)
    ensures Justified(prog, goal, m, HeadOf(Output(prog, queue, |queue|), i))
  {
    hide Output, LeastModel, UsedPreds, Sound, NewBody, PosVars, Justified, Worklist, Calls, Asked, Determined, SubAd, Rewritable;
    var out, rule, ad := Output(prog, queue, |queue|), prog[r], queue[e].ad;
    PlainRule(prog, edb, r);
    NewRuleIsSafe(prog, queue, e, r, j, out[i.rule]);
    PosVarsAreVars(NewBody(prog, rule, ad, j));
    forall k: nat | k < j ensures Apply(rule.body[k].atom, i.b) in m {
      NewFacts(out, i, prog, rule, ad, j, Apply(NewAtom(prog, rule, ad, k), i.b));
      JustifiedIsSound(prog, goal, m, Apply(NewAtom(prog, rule, ad, k), i.b));
      SubgoalUsed(prog, edb, r, k);
      SoundSubgoal(prog, edb, m, rule, ad, k, i.b);
    }
    var b := CallOfMagicRule(prog, m, r, ad, j, i.b);
    var q := QueryOf(Apply(rule.head, i.b), ad);
    RuleIsAsked(prog, edb, goal, queue, m, i, e, r, j);
    var t, sub := rule.body[j].atom, SubAd(rule, ad, j);
    var next := QueryOf(Apply(t, i.b), sub);
    AskedNext(prog, goal, m, q, r, b, j, next);
    ApplyAtoms(t, sub, i.b);
    MagicOfFact(Apply(t, i.b), sub);
    AskedIsJustified(prog, goal, m, next, HeadOf(out, i));
  }

  lemma AskedIsJustified(prog: Program, goal: Triple, m: iset<Triple>, q: Query, g: Triple)
    requires AdOf(q) != FREE && IsIdb(prog, Constant(q.name)) && Asked(prog, goal, m, q) && g == MagicOf(q)
    ensures Justified(prog, goal, m, g)
  {
  }

  /** Its guard, or for a free entry the entry itself, says that the rule is called. */
  lemma RuleIsAsked(prog: Program, edb: set<Triple>, goal: Triple, queue: seq<Adorned>, m: iset<Triple>, i: Inst,
                    e: nat, r: nat, j: nat)
    requires Rewritable(prog, edb) && Worklist(prog, goal, queue)
    requires var out := Output(prog, queue, |queue|);
             IsInst(out, i) && r < |prog| && j <= |prog[r].body| && From(prog, queue, e, r, j, out[i.rule])
             && forall g | g in PosFacts(out, i) :: Justified(prog, goal, m, g)
    ensures Asked(prog, goal, m, QueryOf(Apply(prog[r].head, i.b), queue[e].ad))
  {
    hide Output, UsedPreds, Sound, NewBody, PosVars, Justified, Worklist, Asked, SubAd, Rewritable, CalledFrom, MagicAtom;
    var out, rule, ad := Output(prog, queue, |queue|), prog[r], queue[e].ad;
    PlainRule(prog, edb, r);
    NewRuleIsSafe(prog, queue, e, r, j, out[i.rule]);
    PosVarsAreVars(NewBody(prog, rule, ad, j));
    ApplyAtoms(rule.head, ad, i.b);
    var h := Apply(rule.head, i.b);
    if ad == FREE {
      QueueIsCalled(prog, goal, queue);
      assert queue[e] in queue && queue[e] == Adorned(QueryOf(h, ad).name, FREE);
      FreeIsAsked(prog, goal, m, QueryOf(h, ad));
    } else {
      NewFacts(out, i, prog, rule, ad, j, Apply(MagicAtom(rule.head, ad), i.b));
      JustifiedIsAsked(prog, goal, m, h, ad);
    }
  }

  lemma AdornedIsNotMagic(prog: Program, edb: set<Triple>, t: Triple, ad: Adornment)
    requires Rewritable(prog, edb) && IsIdb(prog, t.p) && !IsVar(t.p)
    ensures !NamedMagic(prog, AdornAtom(t, ad))
  {
    hide AdornedName, MagicName, UsedPreds, IsIdb;
    if a :| Derived(prog, a) && AdornAtom(t, ad).p == Constant(MagicName(a)) {
      NamesDiffer(Entry(t.p, ad), a);
    }
  }

  lemma JustifiedClosed(prog: Program, edb: set<Triple>, goal: Triple, queue: seq<Adorned>, m: iset<Triple>)
    requires Rewritable(prog, edb) && Worklist(prog, goal, queue) && LeastModel(prog, edb, m)
    ensures ClosedUnder(Output(prog, queue, |queue|), iset g | Justified(prog, goal, m, g))
  {
    hide Output, Sound, LeastModel, PosFacts, Justified, Worklist, Rewritable, AdornAtom, NamedMagic;
    var out, x := Output(prog, queue, |queue|), iset g | Justified(prog, goal, m, g);
    forall i: Inst | IsInst(out, i) && Within(PosFacts(out, i), x) ensures HeadOf(out, i) in x {
      var e, r, j := Origin(prog, queue, out[i.rule]);
      forall g | g in PosFacts(out, i) ensures Justified(prog, goal, m, g) { assert g in x; }
      if j < |prog[r].body| {
        MagicRuleJustified(prog, edb, goal, queue, m, i, e, r, j);
      } else {
        forall g | g in PosFacts(out, i) ensures Sound(prog, m, g) { JustifiedIsSound(prog, goal, m, g); }
        SoundFires(prog, edb, queue, m, i, e, r);
        PlainRule(prog, edb, r);
        PosVarsAreVars(out[i.rule].body);
        ApplyAtoms(prog[r].head, queue[e].ad, i.b);
        AdornedIsNotMagic(prog, edb, Apply(prog[r].head, i.b), queue[e].ad);
        SoundIsJustified(prog, goal, m, HeadOf(out, i));
      }
    }
  }

  lemma SoundIsJustified(prog: Program, goal: Triple, m: iset<Triple>, g: Triple)
    requires Sound(prog, m, g) && !NamedMagic(prog, g)
    ensures Justified(prog, goal, m, g)
  {
  }

  lemma UsedIsNotMagic(prog: Program, edb: set<Triple>, g: Triple)
    requires Rewritable(prog, edb) && g in edb
    ensures !NamedMagic(prog, g)
  {
    hide MagicName;
  }

  /** The magic facts of the rewritten program are the calls that left-to-right evaluation makes over the original model,
      from the goal and from the predicates that the goal may call with nothing known. */
  lemma MagicIsAsked(prog: Program, edb: set<Triple>, goal: Triple, out: Program, m: iset<Triple>, mm: iset<Triple>,
                     f: Triple, ad: Adornment)
    requires Rewritable(prog, edb) && IsIdb(prog, goal.p) && IsRewrite(prog, goal, out)
    requires LeastModel(prog, edb, m) && LeastModel(out, edb + Seed(goal), mm)
    requires ad != FREE && IsIdb(prog, f.p)
    ensures MagicAtom(f, ad) in mm <==> Asked(prog, goal, m, QueryOf(f, ad))
  {
    hide Rewritable, Output, Worklist, Justified, MagicAtom, CalledFrom, Sound;
    var queue :| Worklist(prog, goal, queue) && out == Output(prog, queue, |queue|);
    GoalConstant(prog, edb, goal.p);
    GoalConstant(prog, edb, f.p);
    MagicOfFact(f, ad);
    if MagicAtom(f, ad) in mm {
      MagicIsJustified(prog, edb, goal, queue, m, mm, MagicAtom(f, ad));
      JustifiedIsAsked(prog, goal, m, f, ad);
    }
    if Asked(prog, goal, m, QueryOf(f, ad)) {
      var w :| IsWay(prog, m, w) && w.q == QueryOf(f, ad)
               && (Start(w) == GoalQuery(goal)
                   || (AdOf(Start(w)) == FREE && CalledFrom(prog, goal, Adorned(Start(w).name, FREE))));
      WayIsMagic(prog, edb, goal, queue, m, mm, w);
    }
  }

  lemma MagicIsJustified(prog: Program, edb: set<Triple>, goal: Triple, queue: seq<Adorned>, m: iset<Triple>, mm: iset<Triple>,
                         g: Triple)
    requires Rewritable(prog, edb) && Worklist(prog, goal, queue) && IsIdb(prog, goal.p) && !IsVar(goal.p)
    requires LeastModel(prog, edb, m) && LeastModel(Output(prog, queue, |queue|), edb + Seed(goal), mm) && g in mm
    ensures Justified(prog, goal, m, g)
  {
    hide Rewritable, Output, Worklist, Justified, MagicAtom, NamedMagic, Sound;
    var x := iset h | Justified(prog, goal, m, h);
    JustifiedClosed(prog, edb, goal, queue, m);
    forall h | h in edb + Seed(goal) ensures h in x {
      if h in edb {
        SoundFact(prog, m, h);
        UsedIsNotMagic(prog, edb, h);
        SoundIsJustified(prog, goal, m, h);
      } else {
        MagicOfFact(goal, GoalAd(goal));
        GoalIsAsked(prog, goal, m);
        AskedIsJustified(prog, goal, m, GoalQuery(goal), h);
      }
    }
    assert Within(edb + Seed(goal), x);
  }

  lemma GoalIsAsked(prog: Program, goal: Triple, m: iset<Triple>)
    ensures Asked(prog, goal, m, GoalQuery(goal))
  {
    hide CalledFrom;
    var w := First(GoalQuery(goal));
    assert IsWay(prog, m, w) && Start(w) == GoalQuery(goal) && w.q == GoalQuery(goal);
  }

  /** If the goal leads to no call with nothing known, they are exactly the goal's calls. */
  lemma MagicIsAskedByGoal(prog: Program, edb: set<Triple>, goal: Triple, out: Program, m: iset<Triple>, mm: iset<Triple>,
                           f: Triple, ad: Adornment)
    requires Rewritable(prog, edb) && IsIdb(prog, goal.p) && IsRewrite(prog, goal, out)
    requires LeastModel(prog, edb, m) && LeastModel(out, edb + Seed(goal), mm)
    requires ad != FREE && IsIdb(prog, f.p)
    requires forall a | CalledFrom(prog, goal, a) && a.ad == FREE :: a == GoalEntry(goal)
    ensures MagicAtom(f, ad) in mm <==> AskedByGoal(prog, goal, m, QueryOf(f, ad))
  {
    hide Rewritable, IsRewrite, LeastModel, MagicAtom, CalledFrom, IsIdb;
    MagicIsAsked(prog, edb, goal, out, m, mm, f, ad);
    if Asked(prog, goal, m, QueryOf(f, ad)) {
      var w :| IsWay(prog, m, w) && w.q == QueryOf(f, ad)
               && (Start(w) == GoalQuery(goal)
                   || (AdOf(Start(w)) == FREE && CalledFrom(prog, goal, Adorned(Start(w).name, FREE))));
      assert Start(w) == GoalQuery(goal) by {
        if Start(w) != GoalQuery(goal) { FreeGoal(goal, Start(w)); }
      }
    }
  }

  lemma FreeGoal(goal: Triple, q: Query)
    requires AdOf(q) == FREE && Adorned(q.name, FREE) == GoalEntry(goal)
    ensures q == GoalQuery(goal)
  {
    assert q == Query(q.name, None, None);
  }

  // ---- what is answered ----

  /** An adorned fact may be derived only for a call. */
  ghost predicate AnswersCall(prog: Program, goal: Triple, m: iset<Triple>, g: Triple) {
    forall t: Triple, ad | IsIdb(prog, t.p) && !IsVar(t.p) && g == AdornAtom(t, ad) :: Asked(prog, goal, m, QueryOf(t, ad))
  }

  lemma AdornedIsNew(prog: Program, edb: set<Triple>, t: Triple, ad: Adornment)
    requires Rewritable(prog, edb) && IsIdb(prog, t.p) && !IsVar(t.p)
    ensures AdornAtom(t, ad) !in edb
  {
    hide AdornedName, MagicName, IsIdb;
    assert Derived(prog, Entry(t.p, ad));
  }

  lemma MagicAnswersNothing(prog: Program, edb: set<Triple>, goal: Triple, m: iset<Triple>, g: Triple)
    requires Rewritable(prog, edb) && (g in edb || NamedMagic(prog, g))
    ensures AnswersCall(prog, goal, m, g)
  {
    hide Rewritable, AdornAtom, IsIdb, Asked, NamedMagic;
    forall t: Triple, ad | IsIdb(prog, t.p) && !IsVar(t.p) && g == AdornAtom(t, ad) ensures false {
      if g in edb { AdornedIsNew(prog, edb, t, ad); } else { AdornedIsNotMagic(prog, edb, t, ad); }
    }
  }

  lemma HeadAnswersCall(prog: Program, goal: Triple, m: iset<Triple>, h: Triple, ad: Adornment)
    requires !IsVar(h.p) && Asked(prog, goal, m, QueryOf(h, ad))
    ensures AnswersCall(prog, goal, m, AdornAtom(h, ad))
  {
    hide AdornedName, Asked, IsIdb;
    forall t: Triple, sub | IsIdb(prog, t.p) && !IsVar(t.p) && AdornAtom(h, ad) == AdornAtom(t, sub) ensures Asked(prog, goal, m, QueryOf(t, sub)) {
      NamesDiffer(Entry(h.p, ad), Entry(t.p, sub));
      assert h == t;
    }
  }

  lemma AnswersClosed(prog: Program, edb: set<Triple>, goal: Triple, queue: seq<Adorned>, m: iset<Triple>, mm: iset<Triple>)
    requires Rewritable(prog, edb) && Worklist(prog, goal, queue) && IsIdb(prog, goal.p) && !IsVar(goal.p)
    requires LeastModel(prog, edb, m) && LeastModel(Output(prog, queue, |queue|), edb + Seed(goal), mm)
    ensures ClosedUnder(Output(prog, queue, |queue|), iset g | g in mm && AnswersCall(prog, goal, m, g))
  {
    hide Output, PosFacts, Justified, Worklist, Rewritable, AdornAtom, MagicAtom, NamedMagic, AnswersCall, Asked, SubAd;
    var out, x := Output(prog, queue, |queue|), iset g | g in mm && AnswersCall(prog, goal, m, g);
    forall i: Inst | IsInst(out, i) && Within(PosFacts(out, i), x) ensures HeadOf(out, i) in x {
      assert Within(PosFacts(out, i), mm);
      var e, r, j := Origin(prog, queue, out[i.rule]);
      forall g | g in PosFacts(out, i) ensures Justified(prog, goal, m, g) {
        MagicIsJustified(prog, edb, goal, queue, m, mm, g);
      }
      PlainRule(prog, edb, r);
      PosVarsAreVars(out[i.rule].body);
      if j < |prog[r].body| {
        var t, sub := prog[r].body[j].atom, SubAd(prog[r], queue[e].ad, j);
        ApplyAtoms(t, sub, i.b);
        HeadIsMagic(prog, Apply(t, i.b), sub);
        MagicAnswersNothing(prog, edb, goal, m, HeadOf(out, i));
      } else {
        RuleIsAsked(prog, edb, goal, queue, m, i, e, r, j);
        ApplyAtoms(prog[r].head, queue[e].ad, i.b);
        HeadAnswersCall(prog, goal, m, Apply(prog[r].head, i.b), queue[e].ad);
      }
    }
  }

  lemma HeadIsMagic(prog: Program, t: Triple, ad: Adornment)
    requires ad != FREE && IsIdb(prog, t.p) && !IsVar(t.p)
    ensures NamedMagic(prog, MagicAtom(t, ad))
  {
    assert Derived(prog, Entry(t.p, ad));
  }

  lemma AnsweredIsAsked(prog: Program, edb: set<Triple>, goal: Triple, queue: seq<Adorned>, m: iset<Triple>, mm: iset<Triple>,
                        g: Triple)
    requires Rewritable(prog, edb) && Worklist(prog, goal, queue) && IsIdb(prog, goal.p) && !IsVar(goal.p)
    requires LeastModel(prog, edb, m) && LeastModel(Output(prog, queue, |queue|), edb + Seed(goal), mm) && g in mm
    ensures AnswersCall(prog, goal, m, g)
  {
    hide Rewritable, Output, Worklist, AnswersCall, MagicAtom, NamedMagic;
    var x := iset h | h in mm && AnswersCall(prog, goal, m, h);
    AnswersClosed(prog, edb, goal, queue, m, mm);
    forall h | h in edb + Seed(goal) ensures h in x {
      if h !in edb { HeadIsMagic(prog, goal, GoalAd(goal)); }
      MagicAnswersNothing(prog, edb, goal, m, h);
    }
    assert Within(edb + Seed(goal), x);
  }

  /** The rewritten program derives a fact under an adorned name exactly when it is true and called: it computes no answer
      that nobody asks for. */
  lemma AnsweredExactly(prog: Program, edb: set<Triple>, goal: Triple, out: Program, m: iset<Triple>, mm: iset<Triple>,
                        f: Triple, ad: Adornment)
    requires Rewritable(prog, edb) && IsIdb(prog, goal.p) && IsRewrite(prog, goal, out)
    requires LeastModel(prog, edb, m) && LeastModel(out, edb + Seed(goal), mm)
    requires IsIdb(prog, f.p)
    ensures AdornAtom(f, ad) in mm <==> f in m && Asked(prog, goal, m, QueryOf(f, ad))
  {
    hide Rewritable, Output, Worklist, Justified, MagicAtom, AdornAtom, CalledFrom, Sound, LeastModel, Answered, Asked;
    var queue :| Worklist(prog, goal, queue) && out == Output(prog, queue, |queue|);
    GoalConstant(prog, edb, goal.p);
    GoalConstant(prog, edb, f.p);
    if AdornAtom(f, ad) in mm {
      MagicIsJustified(prog, edb, goal, queue, m, mm, AdornAtom(f, ad));
      JustifiedIsSound(prog, goal, m, AdornAtom(f, ad));
      SoundAdorned(prog, edb, m, f, ad);
      AnsweredIsAsked(prog, edb, goal, queue, m, mm, AdornAtom(f, ad));
    }
    if f in m && Asked(prog, goal, m, QueryOf(f, ad)) { CalledIsAnswered(prog, edb, goal, queue, m, mm, f, ad); }
  }

  lemma CalledIsAnswered(prog: Program, edb: set<Triple>, goal: Triple, queue: seq<Adorned>, m: iset<Triple>, mm: iset<Triple>,
                         f: Triple, ad: Adornment)
    requires Rewritable(prog, edb) && Worklist(prog, goal, queue) && IsIdb(prog, goal.p) && !IsVar(goal.p) && !IsVar(f.p)
    requires LeastModel(prog, edb, m) && LeastModel(Output(prog, queue, |queue|), edb + Seed(goal), mm)
    requires f in m && Asked(prog, goal, m, QueryOf(f, ad))
    ensures AdornAtom(f, ad) in mm
  {
    hide Rewritable, Output, Worklist, MagicAtom, AdornAtom, CalledFrom, LeastModel, MagicOf;
    var q := QueryOf(f, ad);
    var w :| IsWay(prog, m, w) && w.q == q
             && (Start(w) == GoalQuery(goal)
                 || (AdOf(Start(w)) == FREE && CalledFrom(prog, goal, Adorned(Start(w).name, FREE))));
    WayIsMagic(prog, edb, goal, queue, m, mm, w);
    assert AdOf(q) == ad by { assert Adornment(ad.s, ad.o) == ad; }
    if ad != FREE { MagicOfFact(f, ad); }
    AllAnswered(prog, edb, goal, queue, m, mm);
    assert Answered(queue, mm, f) && Demanded(mm, f, ad);
    assert f.p == Constant(f.p.name);
  }

  // ---- how a caller seeds the program and reads the answers ----

  /** The seed of a goal on predicate `p`, and the predicate of its answers, as texts. */
  lemma SeedIs(p: string, a: string, b: string, x: string, y: string)
    ensures Seed(Triple(Constant(a), Constant(p), Variable(y))) ==
            {Triple(Constant(a), Constant("magic_" + (p + "_bf")), Constant("true"))}
    ensures Seed(Triple(Variable(x), Constant(p), Constant(b))) ==
            {Triple(Constant(b), Constant("magic_" + (p + "_fb")), Constant("true"))}
    ensures Seed(Triple(Constant(a), Constant(p), Constant(b))) ==
            {Triple(Constant(a), Constant("magic_" + (p + "_bb")), Constant(b))}
    ensures Seed(Triple(Variable(x), Constant(p), Variable(y))) == {}
    ensures var goal := Triple(Constant(a), Constant(p), Variable(y));
            AdornAtom(Triple(Constant(a), Constant(p), Constant(b)), GoalAd(goal)) == Triple(Constant(a), Constant(p + "_bf"), Constant(b))
  {
    NamesAre(p);
    hide AdornedName, MagicName;
  }

  // ---- a call that the goal does not make ----

  /** p(?x, ?y) if e(?x, ?y) and q(?u, ?v).  q(?u, ?v) if d(?u, ?v) and t(?u, ?v).  t(?u, ?v) if d(?u, ?v). */
  function FreeCall(): Program {
    [Rule(Atom("?x", "p", "?y"), Positive([Atom("?x", "e", "?y"), Atom("?u", "q", "?v")])),
     Rule(Atom("?u", "q", "?v"), Positive([Atom("?u", "d", "?v"), Atom("?u", "t", "?v")])),
     Rule(Atom("?u", "t", "?v"), Positive([Atom("?u", "d", "?v")]))]
  }

  lemma FreeCallShape()
    ensures |FreeCall()| == 3 && HeadPreds(FreeCall()) == {Constant("p"), Constant("q"), Constant("t")}
    ensures FreeCall()[0].head.p == Constant("p") && FreeCall()[1].head.p == Constant("q") && FreeCall()[2].head.p == Constant("t")
    ensures FreeCall()[0].body == [Subgoal(Atom("?x", "e", "?y"), false), Subgoal(Atom("?u", "q", "?v"), false)]
    ensures FreeCall()[1].body == [Subgoal(Atom("?u", "d", "?v"), false), Subgoal(Atom("?u", "t", "?v"), false)]
    ensures FreeCall()[2].body == [Subgoal(Atom("?u", "d", "?v"), false)]
    ensures forall r | r in FreeCall() :: r == FreeCall()[0] || r == FreeCall()[1] || r == FreeCall()[2]
  {
    var prog := FreeCall();
    assert prog[0] in prog && prog[1] in prog && prog[2] in prog;
    assert forall r | r in prog :: r == prog[0] || r == prog[1] || r == prog[2];
  }

  lemma FreeCallConstant()
    ensures ConstantPredicates(FreeCall()) && !Negated(FreeCall())
  {
  }

  lemma CoveredIsSafe(r: Rule)
    requires r.body != [] && Vars(r.head) <= Vars(r.body[0].atom) && forall j | 0 <= j < |r.body| :: !r.body[j].negated
    ensures Safe(r)
  {
    hide Vars;
    assert Vars(r.body[0].atom) <= PosVars(r.body);
  }

  lemma FreeCallIsSafe()
    ensures forall r | r in FreeCall() :: Safe(r)
  {
    FreeCallShape();
    FreeCallHeads();
    hide FreeCall, Safe;
    forall r | r in FreeCall() ensures Safe(r) { CoveredIsSafe(r); }
  }

  lemma FreeCallHeads()
    ensures FreeCall()[0].head == Atom("?x", "p", "?y") && FreeCall()[1].head == Atom("?u", "q", "?v") && FreeCall()[2].head == Atom("?u", "t", "?v")
  {
  }

  lemma FreeCallRewritable(edb: set<Triple>)
    requires forall f | f in edb :: f.p == Constant("d")
    ensures Rewritable(FreeCall(), edb)
  {
    hide FreeCall, Safe, HeadPreds, Atom, AdornedName, MagicName, UsedPreds, ConstantPredicates, Negated;
    FreeCallShape();
    FreeCallConstant();
    FreeCallIsSafe();
    OneLetter(edb);
    forall a | Derived(FreeCall(), a)
      ensures Constant(AdornedName(a)) !in UsedPreds(FreeCall(), edb) && Constant(MagicName(a)) !in UsedPreds(FreeCall(), edb)
      ensures !IsIdb(FreeCall(), Constant("magic_" + a.name))
    {
      LongNames(a);
    }
  }

  lemma OneLetter(edb: set<Triple>)
    requires forall f | f in edb :: f.p == Constant("d")
    ensures forall x | x in UsedPreds(FreeCall(), edb) :: |x.name| == 1
  {
    hide Vars, HeadPreds;
    FreeCallShape();
  }

  lemma GoalCallsFree()
    ensures CalledFrom(FreeCall(), Atom("a", "p", "?y"), Adorned("q", FREE))
  {
    FreeCallShape();
    var prog, goal := FreeCall(), Atom("a", "p", "?y");
    var bound := BoundBefore(prog[0], GoalAd(goal), 1);
    assert bound <= {Variable("?x"), Variable("?y")};
    assert SubAd(prog[0], GoalAd(goal), 1) == FREE;
    assert Adorned("q", FREE) in Called(prog, prog[0], GoalAd(goal), 2);
    assert Adorned("q", FREE) in Successors(prog, GoalEntry(goal), 3);
    var c := Chain.Calls(Goal, Adorned("q", FREE));
    assert IsChain(prog, goal, c) && Last(goal, c) == Adorned("q", FREE);
  }

  lemma FreeCalls(m: iset<Triple>)
    requires Atom("1", "d", "2") in m
    ensures Calls(FreeCall(), m, Query("q", None, None), 1, map[Variable("?u") := Constant("1"), Variable("?v") := Constant("2")], 1,
                  Query("t", Some(Constant("1")), Some(Constant("2"))))
  {
    FreeCallShape();
    var rule := FreeCall()[1];
    SubAdDetermined(rule, FREE, 1);
    assert BoundBefore(rule, FREE, 1) == BoundBefore(rule, FREE, 0) + EndVars(rule.body[0].atom);
    assert SubAd(rule, FREE, 1) == Adornment(true, true);
    hide Determined;
    assert PosVars(rule.body) == {Variable("?u"), Variable("?v")} by {
      assert Vars(rule.body[0].atom) == Vars(rule.body[1].atom) == {Variable("?u"), Variable("?v")};
    }
  }

  lemma {:induction false} GoalCallsNothing(m: iset<Triple>, w: Way)
    requires (forall f | f in m :: f.p != Constant("e")) && IsWay(FreeCall(), m, w) && Start(w) == GoalQuery(Atom("a", "p", "?y"))
    ensures w.q == GoalQuery(Atom("a", "p", "?y"))
  {
    hide Determined;
    FreeCallShape();
    if w.Then? {
      GoalCallsNothing(m, w.prev);
      assert w.r == 0;
      assert w.j == 1;
      var f := Apply(FreeCall()[0].body[0].atom, w.b);
      assert f in m;
      PosVarsAreVars(FreeCall()[0].body);
    }
  }

  /** With one fact, d(1, 2), the goal p(a, ?y) asks for no t, but the rewritten program demands t(1, 2): q stands in a
      rule of p with nothing known, and its rules run whether or not they are called. */
  lemma DemandedUnasked(out: Program, m: iset<Triple>, mm: iset<Triple>)
    requires var (edb, goal) := ({Atom("1", "d", "2")}, Atom("a", "p", "?y"));
             IsRewrite(FreeCall(), goal, out) && LeastModel(FreeCall(), edb, m) && LeastModel(out, edb + Seed(goal), mm)
    ensures MagicAtom(Atom("1", "t", "2"), Adornment(true, true)) in mm
    ensures !AskedByGoal(FreeCall(), Atom("a", "p", "?y"), m, QueryOf(Atom("1", "t", "2"), Adornment(true, true)))
  {
    hide IsRewrite, LeastModel, Rewritable, MagicAtom, CalledFrom, Calls, FreeCall;
    var prog, edb, goal := FreeCall(), {Atom("1", "d", "2")}, Atom("a", "p", "?y");
    FreeCallShape();
    GoalCallsFree();
    FreeCallRewritable(edb);
    Asserted(prog, edb, m);
    FreeCalls(m);
    FreeIsAsked(prog, goal, m, Query("q", None, None));
    var b: Bindings := map[Variable("?u") := Constant("1"), Variable("?v") := Constant("2")];
    AskedNext(prog, goal, m, Query("q", None, None), 1, b, 1, Query("t", Some(Constant("1")), Some(Constant("2"))));
    MagicIsAsked(prog, edb, goal, out, m, mm, Atom("1", "t", "2"), Adornment(true, true));
    if w :| IsWay(prog, m, w) && Start(w) == GoalQuery(goal) && w.q == QueryOf(Atom("1", "t", "2"), Adornment(true, true)) {
      GoalCallsNothing(m, w);
    }
  }

  lemma Asserted(prog: Program, edb: set<Triple>, m: iset<Triple>)
    requires Rewritable(prog, edb) && LeastModel(prog, edb, m)
    ensures forall f | f in edb :: f in m
    ensures forall f | f in m :: f in edb || IsIdb(prog, f.p)
  {
    PlainConstant(prog, edb);
    forall f | f in m ensures f in edb || IsIdb(prog, f.p) { ModelFacts(prog, edb, m, f); }
  }

  // ---- the rewrite of transitive closure ----

  /** path(?x, ?y) if edge(?x, ?y); and path(?x, ?y) if edge(?x, ?z) and path(?z, ?y). */
  function Paths(): Program {
    [Rule(Atom("?x", "path", "?y"), [Subgoal(Atom("?x", "edge", "?y"), false)]),
     Rule(Atom("?x", "path", "?y"), [Subgoal(Atom("?x", "edge", "?z"), false), Subgoal(Atom("?z", "path", "?y"), false)])]
  }

  lemma PathsHeads()
    ensures HeadPreds(Paths()) == {Constant("path")}
  {
    assert Paths()[0] in Paths();
    assert forall r | r in Paths() :: r == Paths()[0] || r == Paths()[1];
  }

  lemma PathsShape()
    ensures |Paths()| == 2 && GoalEntry(Atom("alice", "path", "?y")) == Adorned("path", Adornment(true, false))
  {
  }

  lemma PathsBound()
    ensures var ad := Adornment(true, false);
            && SubAd(Paths()[0], ad, 0) == Adornment(true, false) && SubAd(Paths()[1], ad, 0) == Adornment(true, false)
            && SubAd(Paths()[1], ad, 1) == Adornment(true, false)
  {
    var ad, r := Adornment(true, false), Paths()[1];
    assert BoundBefore(r, ad, 0) == {Variable("?x")};
    assert BoundBefore(r, ad, 1) == {Variable("?x"), Variable("?z")};
    assert BoundBefore(Paths()[0], ad, 0) == {Variable("?x")};
  }

  lemma SecondIsCalled(prog: Program, goal: Triple, queue: seq<Adorned>)
    requires Worklist(prog, goal, queue)
    ensures |queue| > 1 ==> queue[1] != queue[0] && queue[1] in Successors(prog, queue[0], |prog|)
  {
    hide Successors;
    if |queue| > 1 {
      assert Reached(prog, queue, 1, 1);
      var e: nat :| e < 1 && queue[1] in Successors(prog, queue[e], |prog|);
    }
  }

  lemma PathsQueue(queue: seq<Adorned>)
    requires Worklist(Paths(), Atom("alice", "path", "?y"), queue)
    ensures queue == [Adorned("path", Adornment(true, false))]
  {
    var a := Adorned("path", Adornment(true, false));
    PathsHeads();
    PathsBound();
    hide SubAd, HeadPreds, Paths;
    PathsSuccessors();
    PathsShape();
    SecondIsCalled(Paths(), Atom("alice", "path", "?y"), queue);
  }

  lemma PathsSuccessors()
    ensures Successors(Paths(), Adorned("path", Adornment(true, false)), 2) <= {Adorned("path", Adornment(true, false))}
  {
    var prog, a := Paths(), Adorned("path", Adornment(true, false));
    PathsHeads();
    PathsBound();
    hide SubAd, HeadPreds;
    forall b | b in Successors(prog, a, 2) ensures b == a {
      var r :| 0 <= r < 2 && b in Called(prog, prog[r], a.ad, |prog[r].body|);
      var j :| 0 <= j < |prog[r].body| && IsIdb(prog, prog[r].body[j].atom.p) && b == Entry(prog[r].body[j].atom.p, SubAd(prog[r], a.ad, j));
      assert r == 1 && j == 1;
    }
  }

  lemma PathsNames()
    ensures var (t, ad) := (Atom("?z", "path", "?y"), Adornment(true, false));
            MagicAtom(t, ad) == Atom("?z", "magic_path_bf", "true") && AdornAtom(t, ad) == Atom("?z", "path_bf", "?y")
    ensures var (t, ad) := (Atom("?x", "path", "?y"), Adornment(true, false));
            MagicAtom(t, ad) == Atom("?x", "magic_path_bf", "true") && AdornAtom(t, ad) == Atom("?x", "path_bf", "?y")
  {
    NamesAre("path");
    assert "path" + "_bf" == "path_bf" && "magic_" + "path_bf" == "magic_path_bf";
    hide AdornedName, MagicName;
  }

  lemma PathsRules()
    ensures var (prog, ad) := (Paths(), Adornment(true, false));
            && RuleOutput(prog, prog[0], ad)
               == [Rule(Atom("?x", "path_bf", "?y"), Positive([Atom("?x", "magic_path_bf", "true"), Atom("?x", "edge", "?y")]))]
            && RuleOutput(prog, prog[1], ad)
               == [Rule(Atom("?z", "magic_path_bf", "true"), Positive([Atom("?x", "magic_path_bf", "true"), Atom("?x", "edge", "?z")])),
                   Rule(Atom("?x", "path_bf", "?y"),
                        Positive([Atom("?x", "magic_path_bf", "true"), Atom("?x", "edge", "?z"), Atom("?z", "path_bf", "?y")]))]
  {
    var prog, ad := Paths(), Adornment(true, false);
    PathsHeads();
    PathsBound();
    PathsNames();
    hide SubAd, HeadPreds, MagicAtom, AdornAtom;
    var g := Subgoal(Atom("?x", "magic_path_bf", "true"), false);
    assert AdornedBody(prog, prog[0], ad, 1) == [Subgoal(Atom("?x", "edge", "?y"), false)];
    assert AdornedBody(prog, prog[1], ad, 1) == [Subgoal(Atom("?x", "edge", "?z"), false)];
    assert AdornedBody(prog, prog[1], ad, 2) == [Subgoal(Atom("?x", "edge", "?z"), false), Subgoal(Atom("?z", "path_bf", "?y"), false)];
    assert !Demands(prog, prog[0], ad, 0) && !Demands(prog, prog[1], ad, 0) && Demands(prog, prog[1], ad, 1);
    assert MagicRules(prog, prog[0], ad, 0) == [] && MagicRules(prog, prog[0], ad, 1) == [];
    assert MagicRules(prog, prog[1], ad, 0) == [] && MagicRules(prog, prog[1], ad, 1) == [];
    assert MagicRules(prog, prog[1], ad, 2) == [MagicRule(prog, prog[1], ad, 1)];
    assert Positive([g.atom, Atom("?x", "edge", "?y")]) == [g] + AdornedBody(prog, prog[0], ad, 1);
    assert Positive([g.atom, Atom("?x", "edge", "?z")]) == [g] + AdornedBody(prog, prog[1], ad, 1);
    assert Positive([g.atom, Atom("?x", "edge", "?z"), Atom("?z", "path_bf", "?y")]) == [g] + AdornedBody(prog, prog[1], ad, 2);
  }

  /** For the goal path(alice, ?y), what start bound stays bound on the way: three rules, none of which computes more
      than the paths from alice. */
  lemma PathsRewritten(out: Program)
    requires IsRewrite(Paths(), Atom("alice", "path", "?y"), out)
    ensures out ==
      [Rule(Atom("?x", "path_bf", "?y"), Positive([Atom("?x", "magic_path_bf", "true"), Atom("?x", "edge", "?y")])),
       Rule(Atom("?z", "magic_path_bf", "true"), Positive([Atom("?x", "magic_path_bf", "true"), Atom("?x", "edge", "?z")])),
       Rule(Atom("?x", "path_bf", "?y"),
            Positive([Atom("?x", "magic_path_bf", "true"), Atom("?x", "edge", "?z"), Atom("?z", "path_bf", "?y")]))]
  {
    hide Worklist, RuleOutput, Positive;
    var prog, ad := Paths(), Adornment(true, false);
    var queue :| Worklist(prog, Atom("alice", "path", "?y"), queue) && out == Output(prog, queue, |queue|);
    PathsQueue(queue);
    PathsRules();
    assert EntryOutput(prog, queue[0], 0) == [];
    assert EntryOutput(prog, queue[0], 1) == RuleOutput(prog, prog[0], ad);
    assert EntryOutput(prog, queue[0], 2) == RuleOutput(prog, prog[0], ad) + RuleOutput(prog, prog[1], ad);
    assert Output(prog, queue, 0) == [];
  }
}
