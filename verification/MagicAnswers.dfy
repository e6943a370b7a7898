/** The magic-sets rewrite keeps a goal's answers (lib/magic.c). */
module MagicAnswers {
  import opened Collections
  import opened Datalog
  import opened JustificationGraphs
  import opened Magic

  /** The predicates in use before the rewrite. */
  function UsedPreds(prog: Program, edb: set<Triple>): set<Symbol> {
    HeadPreds(prog) + (set r, j | r in prog && 0 <= j < |r.body| :: r.body[j].atom.p) + (set f | f in edb :: f.p)
  }

  predicate Derived(prog: Program, a: Adorned) {
    IsIdb(prog, Constant(a.name))
  }

  /** No name the rewrite can generate is in use already, nor can two of them meet. */
  ghost predicate NoCollision(prog: Program, edb: set<Triple>) {
    forall a | Derived(prog, a) ::
      && Constant(AdornedName(a)) !in UsedPreds(prog, edb) && Constant(MagicName(a)) !in UsedPreds(prog, edb)
      && !IsIdb(prog, Constant("magic_" + a.name))
  }

  ghost predicate Rewritable(prog: Program, edb: set<Triple>) {
    && ConstantPredicates(prog) && !Negated(prog) && NoCollision(prog, edb)
    && (forall r | r in prog :: Safe(r))
    && forall f | f in edb :: f.p !in HeadPreds(prog)
  }

  /** A rule as the hypotheses give it. */
  ghost predicate Plain(r: Rule) {
    && !IsVar(r.head.p) && Safe(r)
    && forall j | 0 <= j < |r.body| :: !IsVar(r.body[j].atom.p) && !r.body[j].negated
  }

  lemma PlainRule(prog: Program, edb: set<Triple>, r: nat)
    requires Rewritable(prog, edb) && r < |prog|
    ensures Plain(prog[r]) && IsIdb(prog, prog[r].head.p)
  {
    assert prog[r] in prog;
  }

  ghost predicate Grounds(b: Bindings) {
    forall x | x in b :: IsVar(x)
  }

  // ---- where a rule of the output comes from ----

  /** Rule `r` under the adornment of entry `e` gives `rule`: the demand for subgoal `j`, or the rewritten rule. */
  ghost predicate From(prog: Program, queue: seq<Adorned>, e: nat, r: nat, j: nat, rule: Rule) {
    && e < |queue| && r < |prog| && prog[r].head.p == Constant(queue[e].name)
    && if j < |prog[r].body| then Demands(prog, prog[r], queue[e].ad, j) && rule == MagicRule(prog, prog[r], queue[e].ad, j)
       else j == |prog[r].body| && rule == Rewritten(prog, prog[r], queue[e].ad)
  }

  lemma {:induction false} InMagicRules(prog: Program, r: Rule, ad: Adornment, n: nat, rule: Rule)
    requires n <= |r.body|
    ensures rule in MagicRules(prog, r, ad, n) <==> exists j: nat :: j < n && Demands(prog, r, ad, j) && rule == MagicRule(prog, r, ad, j)
  {
    hide MagicRule, Demands;
    if n > 0 {
      InMagicRules(prog, r, ad, n - 1, rule);
      if Demands(prog, r, ad, n - 1) {
        assert MagicRules(prog, r, ad, n) == MagicRules(prog, r, ad, n - 1) + [MagicRule(prog, r, ad, n - 1)];
      } else {
        assert MagicRules(prog, r, ad, n) == MagicRules(prog, r, ad, n - 1) + [];
      }
    }
  }

  lemma {:induction false} InEntryOutput(prog: Program, a: Adorned, n: nat, rule: Rule)
    requires n <= |prog|
    ensures rule in EntryOutput(prog, a, n) <==>
            exists r: nat :: r < n && prog[r].head.p == Constant(a.name) && rule in RuleOutput(prog, prog[r], a.ad)
  {
    hide RuleOutput;
    if n > 0 { InEntryOutput(prog, a, n - 1, rule); }
  }

  lemma {:induction false} InOutput(prog: Program, queue: seq<Adorned>, n: nat, rule: Rule)
    requires n <= |queue|
    ensures rule in Output(prog, queue, n) <==> exists e: nat :: e < n && rule in EntryOutput(prog, queue[e], |prog|)
  {
    hide EntryOutput;
    if n > 0 { InOutput(prog, queue, n - 1, rule); }
  }

  lemma Origin(prog: Program, queue: seq<Adorned>, rule: Rule) returns (e: nat, r: nat, j: nat)
    requires rule in Output(prog, queue, |queue|)
    ensures From(prog, queue, e, r, j, rule)
  {
    hide Output, EntryOutput, MagicRules;
    InOutput(prog, queue, |queue|, rule);
    e :| e < |queue| && rule in EntryOutput(prog, queue[e], |prog|);
    InEntryOutput(prog, queue[e], |prog|, rule);
    r :| r < |prog| && prog[r].head.p == Constant(queue[e].name) && rule in RuleOutput(prog, prog[r], queue[e].ad);
    InMagicRules(prog, prog[r], queue[e].ad, |prog[r].body|, rule);
    if rule in MagicRules(prog, prog[r], queue[e].ad, |prog[r].body|) {
      j :| j < |prog[r].body| && Demands(prog, prog[r], queue[e].ad, j) && rule == MagicRule(prog, prog[r], queue[e].ad, j);
    } else {
      j := |prog[r].body|;
    }
  }

  lemma IsOutput(prog: Program, queue: seq<Adorned>, e: nat, r: nat, j: nat, rule: Rule) returns (at: nat)
    requires From(prog, queue, e, r, j, rule)
    ensures at < |Output(prog, queue, |queue|)| && Output(prog, queue, |queue|)[at] == rule
  {
    hide Output, EntryOutput, MagicRules;
    InMagicRules(prog, prog[r], queue[e].ad, |prog[r].body|, rule);
    InEntryOutput(prog, queue[e], |prog|, rule);
    InOutput(prog, queue, |queue|, rule);
    assert rule in Output(prog, queue, |queue|);
    at :| at < |Output(prog, queue, |queue|)| && Output(prog, queue, |queue|)[at] == rule;
  }

  // ---- variables and facts of a rewritten body ----

  function NewBody(prog: Program, r: Rule, ad: Adornment, n: nat): seq<Subgoal>
    requires n <= |r.body|
  {
    Guard(r, ad) + AdornedBody(prog, r, ad, n)
  }

  function NewAtom(prog: Program, r: Rule, ad: Adornment, k: nat): Triple
    requires k < |r.body|
  {
    AdornSubgoal(prog, r.body[k], SubAd(r, ad, k)).atom
  }

  /** The subgoals of a rewritten body, as one list. */
  lemma NewSubgoals(prog: Program, r: Rule, ad: Adornment, n: nat, g: Subgoal)
    requires n <= |r.body| && Plain(r)
    ensures g in NewBody(prog, r, ad, n) <==>
            !g.negated && ((ad != FREE && g.atom == MagicAtom(r.head, ad)) || exists k: nat :: k < n && g.atom == NewAtom(prog, r, ad, k))
  {
    hide SubAd, MagicAtom, AdornAtom, Safe, IsIdb;
    if g in AdornedBody(prog, r, ad, n) {
      var k :| 0 <= k < n && AdornedBody(prog, r, ad, n)[k] == g;
      assert g == AdornSubgoal(prog, r.body[k], SubAd(r, ad, k));
      assert g.atom == NewAtom(prog, r, ad, k);
    }
    if k: nat :| k < n && !g.negated && g.atom == NewAtom(prog, r, ad, k) {
      assert AdornedBody(prog, r, ad, n)[k] == AdornSubgoal(prog, r.body[k], SubAd(r, ad, k)) == g;
      assert g in AdornedBody(prog, r, ad, n);
    }
    if ad != FREE && !g.negated && g.atom == MagicAtom(r.head, ad) {
      assert g == Guard(r, ad)[0];
      assert g == NewBody(prog, r, ad, n)[0];
    }
    assert g in NewBody(prog, r, ad, n) <==> g in Guard(r, ad) || g in AdornedBody(prog, r, ad, n);
  }

  lemma InPosVars(body: seq<Subgoal>, g: Subgoal)
    requires g in body && !g.negated
    ensures Vars(g.atom) <= PosVars(body)
  {
    var j :| 0 <= j < |body| && body[j] == g;
  }

  /** What the head and the earlier subgoals bind is bound in the rewritten body. */
  lemma {:induction false} BoundInBody(prog: Program, r: Rule, ad: Adornment, n: nat, m: nat)
    requires n <= m <= |r.body| && Plain(r)
    ensures BoundBefore(r, ad, n) <= PosVars(NewBody(prog, r, ad, m))
  {
    hide Safe, SubAd, PosVars;
    if n == 0 {
      if ad != FREE {
        var g := Subgoal(MagicAtom(r.head, ad), false);
        NewSubgoals(prog, r, ad, m, g);
        InPosVars(NewBody(prog, r, ad, m), g);
      }
    } else {
      BoundInBody(prog, r, ad, n - 1, m);
      var g := Subgoal(NewAtom(prog, r, ad, n - 1), false);
      NewSubgoals(prog, r, ad, m, g);
      InPosVars(NewBody(prog, r, ad, m), g);
    }
  }

  /** A rewritten rule has exactly the variables of its original. */
  lemma NewBodyVars(prog: Program, r: Rule, ad: Adornment)
    requires Plain(r)
    ensures PosVars(NewBody(prog, r, ad, |r.body|)) == PosVars(r.body)
  {
    hide NewBody, Plain;
    var body := NewBody(prog, r, ad, |r.body|);
    forall x | x in PosVars(body) ensures x in PosVars(r.body) {
      var j :| 0 <= j < |body| && !body[j].negated && x in Vars(body[j].atom);
      NewSubgoals(prog, r, ad, |r.body|, body[j]);
      NewAtomVars(prog, r, ad, body[j].atom);
    }
    forall x | x in PosVars(r.body) ensures x in PosVars(body) {
      var k :| 0 <= k < |r.body| && !r.body[k].negated && x in Vars(r.body[k].atom);
      var g := Subgoal(NewAtom(prog, r, ad, k), false);
      NewSubgoals(prog, r, ad, |r.body|, g);
      AtomVars(prog, r, ad, k);
      InPosVars(body, g);
    }
  }

  lemma AtomVars(prog: Program, r: Rule, ad: Adornment, k: nat)
    requires k < |r.body| && Plain(r)
    ensures Vars(NewAtom(prog, r, ad, k)) == Vars(r.body[k].atom)
  {
  }

  lemma NewAtomVars(prog: Program, r: Rule, ad: Adornment, t: Triple)
    requires Plain(r)
    requires (ad != FREE && t == MagicAtom(r.head, ad)) || exists k: nat :: k < |r.body| && t == NewAtom(prog, r, ad, k)
    ensures Vars(t) <= PosVars(r.body)
  {
    if k: nat :| k < |r.body| && t == NewAtom(prog, r, ad, k) {
      AtomVars(prog, r, ad, k);
      InPosVars(r.body, r.body[k]);
    }
  }

  /** The rewritten program passes datalog_rule_validate, and its predicates are constants. */
  lemma OutputIsSafe(prog: Program, edb: set<Triple>, queue: seq<Adorned>)
    requires Rewritable(prog, edb)
    ensures forall rule | rule in Output(prog, queue, |queue|) :: Safe(rule)
    ensures ConstantPredicates(Output(prog, queue, |queue|)) && !Negated(Output(prog, queue, |queue|))
  {
    var out := Output(prog, queue, |queue|);
    hide Output, Rewritable, NewBody;
    forall rule | rule in out
      ensures Safe(rule) && !IsVar(rule.head.p)
      ensures forall k | 0 <= k < |rule.body| :: !IsVar(rule.body[k].atom.p) && !rule.body[k].negated
    {
      var e, r, j := Origin(prog, queue, rule);
      PlainRule(prog, edb, r);
      NewRuleIsSafe(prog, queue, e, r, j, rule);
    }
  }

  lemma NewRuleIsSafe(prog: Program, queue: seq<Adorned>, e: nat, r: nat, j: nat, rule: Rule)
    requires From(prog, queue, e, r, j, rule) && Plain(prog[r])
    ensures Safe(rule) && !IsVar(rule.head.p)
    ensures forall k | 0 <= k < |rule.body| :: !IsVar(rule.body[k].atom.p) && !rule.body[k].negated
    ensures rule.body == NewBody(prog, prog[r], queue[e].ad, j)
  {
    hide PosVars, BoundBefore;
    forall k | 0 <= k < |rule.body| ensures !IsVar(rule.body[k].atom.p) && !rule.body[k].negated {
      NewSubgoals(prog, prog[r], queue[e].ad, j, rule.body[k]);
    }
    if j < |prog[r].body| {
      BoundInBody(prog, prog[r], queue[e].ad, j, j);
    } else {
      NewBodyVars(prog, prog[r], queue[e].ad);
    }
  }

  // ---- applying bindings ----

  lemma ApplyAtoms(t: Triple, ad: Adornment, b: Bindings)
    requires Grounds(b) && !IsVar(t.p)
    ensures Apply(t, b).p == t.p
    ensures Apply(AdornAtom(t, ad), b) == AdornAtom(Apply(t, b), ad)
    ensures ad != FREE ==> Apply(MagicAtom(t, ad), b) == MagicAtom(Apply(t, b), ad)
  {
    assert Constant("true") !in b;
  }

  function Restrict(b: Bindings, vars: set<Symbol>): Bindings {
    map x | x in b && x in vars :: b[x]
  }

  lemma ApplyRestricted(t: Triple, b: Bindings, vars: set<Symbol>)
    requires Grounds(b) && Vars(t) <= vars
    ensures Apply(t, Restrict(b, vars)) == Apply(t, b)
  {
  }

  lemma PosVarsAreVars(body: seq<Subgoal>)
    ensures forall x | x in PosVars(body) :: IsVar(x)
  {
  }

  /** The facts a rewritten rule reads. */
  lemma NewFacts(out: Program, i: Inst, prog: Program, r: Rule, ad: Adornment, n: nat, f: Triple)
    requires i.rule < |out| && n <= |r.body| && Plain(r) && out[i.rule].body == NewBody(prog, r, ad, n)
    ensures f in PosFacts(out, i) <==>
            (ad != FREE && f == Apply(MagicAtom(r.head, ad), i.b)) || exists k: nat :: k < n && f == Apply(NewAtom(prog, r, ad, k), i.b)
  {
    hide NewBody, NewAtom, MagicAtom, Plain, Apply;
    var body := out[i.rule].body;
    if f in PosFacts(out, i) {
      var j :| 0 <= j < |body| && !body[j].negated && f == Apply(body[j].atom, i.b);
      NewSubgoals(prog, r, ad, n, body[j]);
    }
    if ad != FREE && f == Apply(MagicAtom(r.head, ad), i.b) {
      NewSubgoals(prog, r, ad, n, Subgoal(MagicAtom(r.head, ad), false));
      IsPosFact(out, i, Subgoal(MagicAtom(r.head, ad), false));
    }
    if k: nat :| k < n && f == Apply(NewAtom(prog, r, ad, k), i.b) {
      NewSubgoals(prog, r, ad, n, Subgoal(NewAtom(prog, r, ad, k), false));
      IsPosFact(out, i, Subgoal(NewAtom(prog, r, ad, k), false));
    }
  }

  lemma IsPosFact(out: Program, i: Inst, g: Subgoal)
    requires i.rule < |out| && g in out[i.rule].body && !g.negated
    ensures Apply(g.atom, i.b) in PosFacts(out, i)
  {
    var j :| 0 <= j < |out[i.rule].body| && out[i.rule].body[j] == g;
  }

  // ---- every adorned fact stands for a fact of the original model ----

  ghost predicate Sound(prog: Program, m: iset<Triple>, f: Triple) {
    || (exists a :: Derived(prog, a) && f.p == Constant(MagicName(a)))
    || (exists a :: Derived(prog, a) && f.p == Constant(AdornedName(a)) && Triple(f.s, Constant(a.name), f.o) in m)
    || f in m
  }

  lemma ModelFacts(prog: Program, edb: set<Triple>, m: iset<Triple>, f: Triple)
    requires ConstantPredicates(prog) && LeastModel(prog, edb, m) && f in m
    ensures f in edb || IsIdb(prog, f.p)
  {
    var x := iset g | g in m && (g in edb || IsIdb(prog, g.p));
    forall i: Inst | IsInst(prog, i) && Within(PosFacts(prog, i), x) ensures HeadOf(prog, i) in x {
      assert Within(PosFacts(prog, i), m);
      PosVarsAreVars(prog[i.rule].body);
      assert prog[i.rule] in prog;
      assert HeadOf(prog, i).p == prog[i.rule].head.p;
    }
    assert Within(edb, x) && ClosedUnder(prog, x);
  }

  lemma ModelPreds(prog: Program, edb: set<Triple>, m: iset<Triple>, f: Triple)
    requires ConstantPredicates(prog) && LeastModel(prog, edb, m) && f in m
    ensures f.p in UsedPreds(prog, edb)
  {
    ModelFacts(prog, edb, m, f);
  }

  lemma SoundAdorned(prog: Program, edb: set<Triple>, m: iset<Triple>, t: Triple, ad: Adornment)
    requires Rewritable(prog, edb) && LeastModel(prog, edb, m) && IsIdb(prog, t.p) && !IsVar(t.p)
    requires Sound(prog, m, AdornAtom(t, ad))
    ensures t in m
  {
    hide LeastModel, AdornedName, MagicName, UsedPreds, IsIdb;
    var a, f := Entry(t.p, ad), AdornAtom(t, ad);
    assert Constant(a.name) == t.p;
    if f in m { ModelPreds(prog, edb, m, f); }
    if c :| Derived(prog, c) && f.p == Constant(MagicName(c)) { NamesDiffer(a, c); }
    if c :| Derived(prog, c) && f.p == Constant(AdornedName(c)) && Triple(f.s, Constant(c.name), f.o) in m {
      NamesDiffer(a, c);
    }
  }

  lemma SoundUsed(prog: Program, edb: set<Triple>, m: iset<Triple>, f: Triple)
    requires Rewritable(prog, edb) && f.p in UsedPreds(prog, edb) && Sound(prog, m, f)
    ensures f in m
  {
    hide UsedPreds;
  }

  lemma SubgoalUsed(prog: Program, edb: set<Triple>, r: nat, k: nat)
    requires r < |prog| && k < |prog[r].body|
    ensures prog[r].body[k].atom.p in UsedPreds(prog, edb)
  {
    assert prog[r] in prog;
  }

  lemma SoundFires(prog: Program, edb: set<Triple>, queue: seq<Adorned>, m: iset<Triple>, i: Inst, e: nat, r: nat)
    requires Rewritable(prog, edb) && LeastModel(prog, edb, m)
    requires var out := Output(prog, queue, |queue|);
             IsInst(out, i) && r < |prog| && From(prog, queue, e, r, |prog[r].body|, out[i.rule])
             && forall f | f in PosFacts(out, i) :: Sound(prog, m, f)
    ensures Sound(prog, m, HeadOf(Output(prog, queue, |queue|), i))
  {
    hide Output, LeastModel, UsedPreds, Sound, NewBody, PosVars;
    var out, rule, ad := Output(prog, queue, |queue|), prog[r], queue[e].ad;
    PlainRule(prog, edb, r);
    NewRuleIsSafe(prog, queue, e, r, |rule.body|, out[i.rule]);
    NewBodyVars(prog, rule, ad);
    PosVarsAreVars(rule.body);
    var i0 := Inst(r, i.b);
    assert IsInst(prog, i0);
    forall k: nat | k < |rule.body| ensures Apply(rule.body[k].atom, i.b) in m {
      NewFacts(out, i, prog, rule, ad, |rule.body|, Apply(NewAtom(prog, rule, ad, k), i.b));
      ApplyAtoms(rule.body[k].atom, SubAd(rule, ad, k), i.b);
      SubgoalUsed(prog, edb, r, k);
      SoundSubgoal(prog, edb, m, rule, ad, k, i.b);
    }
    HeadInModel(prog, edb, m, i0);
    ApplyAtoms(rule.head, ad, i.b);
    SoundHead(prog, m, Apply(rule.head, i.b), ad);
  }

  lemma SoundSubgoal(prog: Program, edb: set<Triple>, m: iset<Triple>, r: Rule, ad: Adornment, k: nat, b: Bindings)
    requires Rewritable(prog, edb) && LeastModel(prog, edb, m) && Plain(r) && k < |r.body| && Grounds(b)
    requires r.body[k].atom.p in UsedPreds(prog, edb)
    requires Sound(prog, m, Apply(NewAtom(prog, r, ad, k), b))
    ensures Apply(r.body[k].atom, b) in m
  {
    hide LeastModel, UsedPreds, Sound, SubAd, AdornAtom, Rewritable;
    ApplyAtoms(r.body[k].atom, SubAd(r, ad, k), b);
    var f := Apply(r.body[k].atom, b);
    if IsIdb(prog, r.body[k].atom.p) {
      SoundAdorned(prog, edb, m, f, SubAd(r, ad, k));
    } else {
      SoundUsed(prog, edb, m, f);
    }
  }

  lemma HeadInModel(prog: Program, edb: set<Triple>, m: iset<Triple>, i: Inst)
    requires LeastModel(prog, edb, m) && IsInst(prog, i)
    requires forall k: nat | k < |prog[i.rule].body| :: Apply(prog[i.rule].body[k].atom, i.b) in m
    ensures HeadOf(prog, i) in m
  {
    assert Within(PosFacts(prog, i), m);
  }

  lemma SoundHead(prog: Program, m: iset<Triple>, h: Triple, ad: Adornment)
    requires h in m && IsIdb(prog, h.p) && !IsVar(h.p)
    ensures Sound(prog, m, AdornAtom(h, ad))
  {
    assert Derived(prog, Entry(h.p, ad));
    assert h == Triple(h.s, Constant(Entry(h.p, ad).name), h.o);
  }

  lemma SoundMagic(prog: Program, t: Triple, ad: Adornment, m: iset<Triple>)
    requires ad != FREE && IsIdb(prog, t.p) && !IsVar(t.p)
    ensures Sound(prog, m, MagicAtom(t, ad))
  {
    assert Derived(prog, Entry(t.p, ad));
  }

  lemma SoundClosed(prog: Program, edb: set<Triple>, queue: seq<Adorned>, m: iset<Triple>)
    requires Rewritable(prog, edb) && LeastModel(prog, edb, m)
    ensures ClosedUnder(Output(prog, queue, |queue|), iset f | Sound(prog, m, f))
  {
    hide Output, Sound, LeastModel, PosFacts;
    var out, x := Output(prog, queue, |queue|), iset f | Sound(prog, m, f);
    forall i: Inst | IsInst(out, i) && Within(PosFacts(out, i), x) ensures HeadOf(out, i) in x {
      var e, r, j := Origin(prog, queue, out[i.rule]);
      forall f | f in PosFacts(out, i) ensures Sound(prog, m, f) {
        assert f in x;
      }
      if j < |prog[r].body| {
        PlainRule(prog, edb, r);
        PosVarsAreVars(out[i.rule].body);
        ApplyAtoms(prog[r].body[j].atom, SubAd(prog[r], queue[e].ad, j), i.b);
        SoundMagic(prog, Apply(prog[r].body[j].atom, i.b), SubAd(prog[r], queue[e].ad, j), m);
      } else {
        SoundFires(prog, edb, queue, m, i, e, r);
      }
    }
  }

  // ---- every demanded fact of the original model is answered ----

  ghost predicate Demanded(mm: iset<Triple>, f: Triple, ad: Adornment) {
    ad == FREE || MagicAtom(f, ad) in mm
  }

  ghost predicate Answered(queue: seq<Adorned>, mm: iset<Triple>, f: Triple) {
    forall a | a in queue && f.p == Constant(a.name) && Demanded(mm, f, a.ad) :: AdornAtom(f, a.ad) in mm
  }

  /** What is known while a grounded rule is followed through its first `n` subgoals under entry `e`. */
  ghost predicate Following(prog: Program, edb: set<Triple>, queue: seq<Adorned>, m: iset<Triple>, mm: iset<Triple>,
                            e: nat, i: Inst, n: nat)
  {
    && Rewritable(prog, edb) && e < |queue| && IsInst(prog, i) && prog[i.rule].head.p == Constant(queue[e].name)
    && Successors(prog, queue[e], |prog|) <= Elems(queue)
    && Within(edb, mm) && ClosedUnder(Output(prog, queue, |queue|), mm)
    && Demanded(mm, HeadOf(prog, i), queue[e].ad)
    && n <= |prog[i.rule].body|
    && forall k: nat | k < n ::
         var f := Apply(prog[i.rule].body[k].atom, i.b);
         (f in edb || IsIdb(prog, f.p)) && Answered(queue, mm, f)
  }

  /** The rules of the output fire on facts that hold. */
  lemma NewRuleFires(prog: Program, edb: set<Triple>, queue: seq<Adorned>, m: iset<Triple>, mm: iset<Triple>, e: nat,
                     i: Inst, n: nat, j: nat, rule: Rule)
    requires Following(prog, edb, queue, m, mm, e, i, n) && From(prog, queue, e, i.rule, j, rule)
    requires forall k: nat | k < j :: Apply(NewAtom(prog, prog[i.rule], queue[e].ad, k), i.b) in mm
    ensures Apply(rule.head, i.b) in mm
  {
    hide Output, NewBody, PosVars, Answered, NewAtom, MagicAtom, AdornAtom, Successors, Rewritable;
    var out, r, ad := Output(prog, queue, |queue|), prog[i.rule], queue[e].ad;
    PlainRule(prog, edb, i.rule);
    PosVarsAreVars(r.body);
    var at := IsOutput(prog, queue, e, i.rule, j, rule);
    NewRuleIsSafe(prog, queue, e, i.rule, j, rule);
    NewVarsKnown(prog, r, ad, j);
    var i1 := Inst(at, Restrict(i.b, PosVars(rule.body)));
    assert i1.b.Keys == PosVars(rule.body);
    assert IsInst(out, i1);
    forall f | f in PosFacts(out, i1) ensures f in mm {
      NewFacts(out, i1, prog, r, ad, j, f);
      if ad != FREE && f == Apply(MagicAtom(r.head, ad), i1.b) {
        RestrictGuard(prog, r, ad, j, i.b);
        ApplyAtoms(r.head, ad, i.b);
      } else {
        var k: nat :| k < j && f == Apply(NewAtom(prog, r, ad, k), i1.b);
        RestrictSubgoal(prog, r, ad, j, i.b, k);
      }
    }
    assert Within(PosFacts(out, i1), mm);
    assert HeadOf(out, i1) in mm;
    ApplyRestricted(rule.head, i.b, PosVars(rule.body));
  }

  lemma RestrictGuard(prog: Program, r: Rule, ad: Adornment, j: nat, b: Bindings)
    requires Plain(r) && j <= |r.body| && Grounds(b) && ad != FREE
    ensures Apply(MagicAtom(r.head, ad), Restrict(b, PosVars(NewBody(prog, r, ad, j)))) == Apply(MagicAtom(r.head, ad), b)
  {
    hide NewBody, PosVars, MagicAtom, Plain, Restrict, Apply;
    var g := Subgoal(MagicAtom(r.head, ad), false);
    NewSubgoals(prog, r, ad, j, g);
    InPosVars(NewBody(prog, r, ad, j), g);
    ApplyRestricted(g.atom, b, PosVars(NewBody(prog, r, ad, j)));
  }

  lemma RestrictSubgoal(prog: Program, r: Rule, ad: Adornment, j: nat, b: Bindings, k: nat)
    requires Plain(r) && k < j <= |r.body| && Grounds(b)
    ensures Apply(NewAtom(prog, r, ad, k), Restrict(b, PosVars(NewBody(prog, r, ad, j)))) == Apply(NewAtom(prog, r, ad, k), b)
  {
    hide NewBody, PosVars, NewAtom, Plain, Restrict, Apply;
    var g := Subgoal(NewAtom(prog, r, ad, k), false);
    NewSubgoals(prog, r, ad, j, g);
    InPosVars(NewBody(prog, r, ad, j), g);
    ApplyRestricted(g.atom, b, PosVars(NewBody(prog, r, ad, j)));
  }

  /** The variables of a rewritten body are among those of the original body. */
  lemma NewVarsKnown(prog: Program, r: Rule, ad: Adornment, n: nat)
    requires Plain(r) && n <= |r.body|
    ensures PosVars(NewBody(prog, r, ad, n)) <= PosVars(r.body)
  {
    hide NewBody, Plain;
    var body := NewBody(prog, r, ad, n);
    forall x | x in PosVars(body) ensures x in PosVars(r.body) {
      var j :| 0 <= j < |body| && !body[j].negated && x in Vars(body[j].atom);
      NewSubgoals(prog, r, ad, n, body[j]);
      NewAtomVars(prog, r, ad, body[j].atom);
    }
  }

  /** Going through the body, each subgoal is demanded once the earlier ones hold, and so it holds too. */
  lemma {:induction false} BodyAnswered(prog: Program, edb: set<Triple>, queue: seq<Adorned>, m: iset<Triple>,
                                        mm: iset<Triple>, e: nat, i: Inst, n: nat)
    requires Following(prog, edb, queue, m, mm, e, i, n)
    ensures forall k: nat | k < n :: Apply(NewAtom(prog, prog[i.rule], queue[e].ad, k), i.b) in mm
  {
    hide NewAtom, Answered, Rewritable, Successors, Output, ClosedUnder, Following, Apply;
    FollowingRule(prog, edb, queue, m, mm, e, i, n);
    if n > 0 {
      FollowingLess(prog, edb, queue, m, mm, e, i, n);
      BodyAnswered(prog, edb, queue, m, mm, e, i, n - 1);
      SubgoalAnswered(prog, edb, queue, m, mm, e, i, n, n - 1);
    }
  }

  lemma FollowingLess(prog: Program, edb: set<Triple>, queue: seq<Adorned>, m: iset<Triple>, mm: iset<Triple>, e: nat,
                      i: Inst, n: nat)
    requires Following(prog, edb, queue, m, mm, e, i, n) && n > 0
    ensures Following(prog, edb, queue, m, mm, e, i, n - 1)
  {
    hide Answered, Rewritable, Successors, Output, ClosedUnder;
  }

  lemma SubgoalAnswered(prog: Program, edb: set<Triple>, queue: seq<Adorned>, m: iset<Triple>,
                        mm: iset<Triple>, e: nat, i: Inst, n: nat, j: nat)
    requires Following(prog, edb, queue, m, mm, e, i, n) && j < n
    requires forall k: nat | k < j :: Apply(NewAtom(prog, prog[i.rule], queue[e].ad, k), i.b) in mm
    ensures Apply(NewAtom(prog, prog[i.rule], queue[e].ad, j), i.b) in mm
  {
    hide ClosedUnder, Rewritable, Successors, SubAd, MagicAtom, AdornAtom, PosVars;
    var r, ad := prog[i.rule], queue[e].ad;
    var t, sub := r.body[j].atom, SubAd(r, ad, j);
    var f := Apply(t, i.b);
    PlainRule(prog, edb, i.rule);
    PosVarsAreVars(r.body);
    ApplyAtoms(t, sub, i.b);
    if IsIdb(prog, t.p) {
      CalledIsSuccessor(prog, queue[e], i.rule, j);
      if sub != FREE {
        NewRuleFires(prog, edb, queue, m, mm, e, i, n, j, MagicRule(prog, r, ad, j));
      }
      assert Demanded(mm, f, sub);
      assert Entry(t.p, sub) in queue;
      assert Answered(queue, mm, f);
    } else {
      assert f in edb;
    }
  }

  lemma CalledIsSuccessor(prog: Program, a: Adorned, r: nat, j: nat)
    requires r < |prog| && prog[r].head.p == Constant(a.name) && j < |prog[r].body| && IsIdb(prog, prog[r].body[j].atom.p)
    ensures Entry(prog[r].body[j].atom.p, SubAd(prog[r], a.ad, j)) in Successors(prog, a, |prog|)
  {
    hide SubAd;
    assert Entry(prog[r].body[j].atom.p, SubAd(prog[r], a.ad, j)) in Called(prog, prog[r], a.ad, |prog[r].body|);
  }

  lemma HeadAnswered(prog: Program, edb: set<Triple>, queue: seq<Adorned>, m: iset<Triple>, mm: iset<Triple>, e: nat, i: Inst)
    requires i.rule < |prog| && e < |queue|
    requires Following(prog, edb, queue, m, mm, e, i, |prog[i.rule].body|)
    ensures AdornAtom(HeadOf(prog, i), queue[e].ad) in mm
  {
    hide Following, Rewritable;
    FollowingRule(prog, edb, queue, m, mm, e, i, |prog[i.rule].body|);
    PosVarsAreVars(prog[i.rule].body);
    BodyAnswered(prog, edb, queue, m, mm, e, i, |prog[i.rule].body|);
    NewRuleFires(prog, edb, queue, m, mm, e, i, |prog[i.rule].body|, |prog[i.rule].body|, Rewritten(prog, prog[i.rule], queue[e].ad));
    ApplyAtoms(prog[i.rule].head, queue[e].ad, i.b);
  }

  lemma FollowingRule(prog: Program, edb: set<Triple>, queue: seq<Adorned>, m: iset<Triple>, mm: iset<Triple>, e: nat,
                      i: Inst, n: nat)
    requires Following(prog, edb, queue, m, mm, e, i, n)
    ensures e < |queue| && IsInst(prog, i) && prog[i.rule].head.p == Constant(queue[e].name)
  {
  }

  lemma AnsweredClosed(prog: Program, edb: set<Triple>, goal: Triple, queue: seq<Adorned>, m: iset<Triple>, mm: iset<Triple>)
    requires Rewritable(prog, edb) && LeastModel(prog, edb, m) && Worklist(prog, goal, queue)
    requires Within(edb, mm) && ClosedUnder(Output(prog, queue, |queue|), mm)
    ensures ClosedUnder(prog, iset f | f in m && Answered(queue, mm, f))
  {
    hide Output, Answered, Successors, NoCollision;
    var x := iset f | f in m && Answered(queue, mm, f);
    forall i: Inst | IsInst(prog, i) && Within(PosFacts(prog, i), x) ensures HeadOf(prog, i) in x {
      assert Within(PosFacts(prog, i), m);
      var h := HeadOf(prog, i);
      HeadIsAnswered(prog, edb, goal, queue, m, mm, i, h, x);
    }
  }

  lemma HeadIsAnswered(prog: Program, edb: set<Triple>, goal: Triple, queue: seq<Adorned>, m: iset<Triple>,
                       mm: iset<Triple>, i: Inst, h: Triple, x: iset<Triple>)
    requires Rewritable(prog, edb) && LeastModel(prog, edb, m) && Worklist(prog, goal, queue)
    requires Within(edb, mm) && ClosedUnder(Output(prog, queue, |queue|), mm)
    requires x == iset f | f in m && Answered(queue, mm, f)
    requires IsInst(prog, i) && Within(PosFacts(prog, i), x) && h == HeadOf(prog, i)
    ensures Answered(queue, mm, h)
  {
    hide Output, Successors, NoCollision, LeastModel, ClosedUnder;
    PlainRule(prog, edb, i.rule);
    PosVarsAreVars(prog[i.rule].body);
    forall a | a in queue && h.p == Constant(a.name) && Demanded(mm, h, a.ad) ensures AdornAtom(h, a.ad) in mm {
      var e :| 0 <= e < |queue| && queue[e] == a;
      forall k: nat | k < |prog[i.rule].body|
        ensures var f := Apply(prog[i.rule].body[k].atom, i.b); (f in edb || IsIdb(prog, f.p)) && Answered(queue, mm, f)
      {
        var f := Apply(prog[i.rule].body[k].atom, i.b);
        assert f in PosFacts(prog, i);
        assert f in x;
        ModelFacts(prog, edb, m, f);
      }
      ApplyAtoms(prog[i.rule].head, a.ad, i.b);
      assert Following(prog, edb, queue, m, mm, e, i, |prog[i.rule].body|);
      HeadAnswered(prog, edb, queue, m, mm, e, i);
    }
  }

  // ---- the theorem ----

  /** The goal's own demand. */
  function Seed(goal: Triple): set<Triple> {
    if GoalAd(goal) == FREE then {} else {MagicAtom(goal, GoalAd(goal))}
  }

  /** A fact that agrees with the goal wherever the goal is bound. */
  predicate Matches(f: Triple, goal: Triple) {
    f.p == goal.p && (IsVar(goal.s) || f.s == goal.s) && (IsVar(goal.o) || f.o == goal.o)
  }

  /** For a derived goal predicate, the rewritten program with the seed holds an adorned goal fact exactly when
      the original program holds the fact itself. */
  lemma AnswersPreserved(prog: Program, edb: set<Triple>, goal: Triple, out: Program, m: iset<Triple>, mm: iset<Triple>,
                         f: Triple)
    requires Rewritable(prog, edb) && IsIdb(prog, goal.p) && IsRewrite(prog, goal, out)
    requires LeastModel(prog, edb, m) && LeastModel(out, edb + Seed(goal), mm)
    requires Matches(f, goal)
    ensures AdornAtom(f, GoalAd(goal)) in mm <==> f in m
  {
    hide Rewritable, Output, Worklist, Answered, Sound, MagicAtom, AdornAtom;
    var queue :| Worklist(prog, goal, queue) && out == Output(prog, queue, |queue|);
    GoalConstant(prog, edb, goal.p);
    if AdornAtom(f, GoalAd(goal)) in mm {
      AnswersSound(prog, edb, goal, queue, m, mm, f);
    }
    if f in m {
      AnswersComplete(prog, edb, goal, queue, m, mm, f);
    }
  }

  lemma GoalConstant(prog: Program, edb: set<Triple>, p: Symbol)
    requires Rewritable(prog, edb) && IsIdb(prog, p)
    ensures !IsVar(p)
  {
  }

  lemma AnswersSound(prog: Program, edb: set<Triple>, goal: Triple, queue: seq<Adorned>, m: iset<Triple>,
                     mm: iset<Triple>, f: Triple)
    requires Rewritable(prog, edb) && IsIdb(prog, goal.p) && !IsVar(goal.p)
    requires LeastModel(prog, edb, m) && LeastModel(Output(prog, queue, |queue|), edb + Seed(goal), mm)
    requires Matches(f, goal) && AdornAtom(f, GoalAd(goal)) in mm
    ensures f in m
  {
    hide Rewritable, Output, Sound, MagicAtom, AdornAtom;
    var x := iset g | Sound(prog, m, g);
    SoundClosed(prog, edb, queue, m);
    forall g | g in edb + Seed(goal) ensures g in x {
      if g in edb {
        SoundFact(prog, m, g);
      } else {
        SoundMagic(prog, goal, GoalAd(goal), m);
      }
    }
    assert Within(edb + Seed(goal), x);
    SoundAdorned(prog, edb, m, f, GoalAd(goal));
  }

  lemma SoundFact(prog: Program, m: iset<Triple>, f: Triple)
    requires f in m
    ensures Sound(prog, m, f)
  {
  }

  /** Every fact of the original model is answered wherever it is demanded. */
  lemma AllAnswered(prog: Program, edb: set<Triple>, goal: Triple, queue: seq<Adorned>, m: iset<Triple>, mm: iset<Triple>)
    requires Rewritable(prog, edb) && Worklist(prog, goal, queue) && !IsVar(goal.p) && IsIdb(prog, goal.p)
    requires LeastModel(prog, edb, m) && LeastModel(Output(prog, queue, |queue|), edb + Seed(goal), mm)
    ensures forall f | f in m :: Answered(queue, mm, f)
  {
    hide Output, Answered, MagicAtom, AdornAtom, Successors;
    assert Within(edb, mm) && Within(Seed(goal), mm);
    AnsweredClosed(prog, edb, goal, queue, m, mm);
    var x := iset g | g in m && Answered(queue, mm, g);
    forall g | g in edb ensures g in x {
      AnsweredFact(prog, edb, goal, queue, mm, g);
    }
    assert Within(edb, x);
    forall f | f in m ensures Answered(queue, mm, f) { assert f in x; }
  }

  lemma AnswersComplete(prog: Program, edb: set<Triple>, goal: Triple, queue: seq<Adorned>, m: iset<Triple>,
                        mm: iset<Triple>, f: Triple)
    requires Rewritable(prog, edb) && Worklist(prog, goal, queue) && !IsVar(goal.p) && IsIdb(prog, goal.p)
    requires LeastModel(prog, edb, m) && LeastModel(Output(prog, queue, |queue|), edb + Seed(goal), mm)
    requires Matches(f, goal) && f in m
    ensures AdornAtom(f, GoalAd(goal)) in mm
  {
    hide Output, Answered, MagicAtom, AdornAtom, Successors;
    AllAnswered(prog, edb, goal, queue, m, mm);
    assert Within(Seed(goal), mm);
    SeedDemands(goal, mm, f);
    assert queue[0] == GoalEntry(goal);
    AnsweredGoal(queue, mm, f, GoalEntry(goal));
  }

  lemma QueueDerived(prog: Program, goal: Triple, queue: seq<Adorned>, a: Adorned)
    requires ConstantPredicates(prog) && Worklist(prog, goal, queue) && IsIdb(prog, goal.p) && !IsVar(goal.p) && a in queue
    ensures Derived(prog, a)
  {
    var k: nat :| k < |queue| && queue[k] == a;
    if k == 0 {
      assert goal.p == Constant(a.name);
    } else {
      assert Reached(prog, queue, k, k);
      var e :| 0 <= e < k && queue[k] in Successors(prog, queue[e], |prog|);
      var r, b :| 0 <= r < |prog| && b in Called(prog, prog[r], queue[e].ad, |prog[r].body|) && b == a;
      assert prog[r] in prog;
    }
  }

  /** Asserted facts have no derived predicate, so nothing asks for them. */
  lemma AnsweredFact(prog: Program, edb: set<Triple>, goal: Triple, queue: seq<Adorned>, mm: iset<Triple>, f: Triple)
    requires Rewritable(prog, edb) && Worklist(prog, goal, queue) && IsIdb(prog, goal.p) && !IsVar(goal.p) && f in edb
    ensures Answered(queue, mm, f)
  {
    hide Worklist, NoCollision;
    forall a | a in queue ensures f.p != Constant(a.name) {
      QueueDerived(prog, goal, queue, a);
    }
  }

  lemma AnsweredGoal(queue: seq<Adorned>, mm: iset<Triple>, f: Triple, a: Adorned)
    requires Answered(queue, mm, f) && a in queue && f.p == Constant(a.name) && Demanded(mm, f, a.ad)
    ensures AdornAtom(f, a.ad) in mm
  {
  }

  lemma SeedDemands(goal: Triple, mm: iset<Triple>, f: Triple)
    requires Within(Seed(goal), mm) && Matches(f, goal)
    ensures Demanded(mm, f, GoalAd(goal))
  {
    if GoalAd(goal) != FREE {
      assert MagicAtom(f, GoalAd(goal)) == MagicAtom(goal, GoalAd(goal));
      assert MagicAtom(goal, GoalAd(goal)) in Seed(goal);
    }
  }

  // ---- goals and rewritten rules at the edge ----

  lemma {:induction false} NoRulesFor(prog: Program, a: Adorned, n: nat)
    requires n <= |prog| && !Derived(prog, a)
    ensures EntryOutput(prog, a, n) == [] && Successors(prog, a, n) == {}
  {
    if n > 0 {
      NoRulesFor(prog, a, n - 1);
      assert prog[n - 1] in prog && prog[n - 1].head.p in HeadPreds(prog);
    }
  }

  /** A goal without rules rewrites to nothing. */
  lemma UnderivedGoal(prog: Program, goal: Triple, out: Program)
    requires IsRewrite(prog, goal, out) && !IsIdb(prog, goal.p) && !IsVar(goal.p)
    ensures out == []
  {
    hide EntryOutput, Successors;
    var queue :| Worklist(prog, goal, queue) && out == Output(prog, queue, |queue|);
    assert goal.p == Constant(GoalEntry(goal).name);
    NoRulesFor(prog, GoalEntry(goal), |prog|);
    assert |queue| > 1 ==> Reached(prog, queue, 1, 1);
    assert Output(prog, queue, 1) == Output(prog, queue, 0) + EntryOutput(prog, queue[0], |prog|);
  }

  lemma NotItsOwnDemand(a: Adorned)
    ensures AdornedName(a) != MagicName(a)
  {
    assert |MagicName(a)| == |AdornedName(a)| + 6;
  }

  /** The rewrite keeps a goal's answers exactly when rules define the goal or no asserted fact answers it: the
      asserted facts of an underived goal are never given the adorned name. */
  lemma AnswersPreservedIff(prog: Program, edb: set<Triple>, goal: Triple, out: Program, m: iset<Triple>, mm: iset<Triple>)
    requires Rewritable(prog, edb) && IsRewrite(prog, goal, out) && !IsVar(goal.p)
    requires Constant(AdornedName(GoalEntry(goal))) !in UsedPreds(prog, edb)
    requires LeastModel(prog, edb, m) && LeastModel(out, edb + Seed(goal), mm)
    ensures (forall f | Matches(f, goal) :: AdornAtom(f, GoalAd(goal)) in mm <==> f in m) <==>
            IsIdb(prog, goal.p) || forall f | f in edb :: !Matches(f, goal)
  {
    hide Rewritable, LeastModel, IsRewrite, AdornedName, MagicName, UsedPreds;
    if IsIdb(prog, goal.p) {
      forall f | Matches(f, goal) ensures AdornAtom(f, GoalAd(goal)) in mm <==> f in m {
        AnswersPreserved(prog, edb, goal, out, m, mm, f);
      }
    } else {
      UnderivedGoal(prog, goal, out);
      NotItsOwnDemand(GoalEntry(goal));
      forall f | Matches(f, goal) ensures AdornAtom(f, GoalAd(goal)) !in mm && (f in m <==> f in edb) {
        EmptyModel(edb + Seed(goal), mm, AdornAtom(f, GoalAd(goal)));
        UsedFact(prog, edb, AdornAtom(f, GoalAd(goal)));
        AssertedInModel(prog, edb, m, f);
      }
    }
  }

  lemma EmptyModel(facts: set<Triple>, mm: iset<Triple>, f: Triple)
    requires LeastModel([], facts, mm)
    ensures f in mm <==> f in facts
  {
    assert ClosedUnder([], AsIset(facts)) && Within(facts, AsIset(facts));
  }

  lemma UsedFact(prog: Program, edb: set<Triple>, f: Triple)
    requires f.p !in UsedPreds(prog, edb)
    ensures f !in edb
  {
  }

  lemma AssertedInModel(prog: Program, edb: set<Triple>, m: iset<Triple>, f: Triple)
    requires Rewritable(prog, edb) && LeastModel(prog, edb, m) && !IsIdb(prog, f.p)
    ensures f in m <==> f in edb
  {
    if f in m { ModelFacts(prog, edb, m, f); }
  }

  /** A rule that starts with a derived subgoal which has a constant argument. */
  predicate StartsWithConstant(prog: Program, r: nat) {
    && r < |prog| && prog[r].body != [] && IsIdb(prog, prog[r].body[0].atom.p)
    && !(IsVar(prog[r].body[0].atom.s) && IsVar(prog[r].body[0].atom.o))
  }

  /** Such a rule, for a predicate that the goal calls with both arguments free. */
  ghost predicate StartsBound(prog: Program, goal: Triple, r: nat) {
    r < |prog| && StartsWithConstant(prog, r) && CalledFrom(prog, goal, Entry(prog[r].head.p, FREE))
  }

  ghost predicate StartsAt(prog: Program, queue: seq<Adorned>, e: nat, r: nat) {
    && e < |queue| && r < |prog| && StartsWithConstant(prog, r)
    && queue[e].ad == FREE && prog[r].head.p == Constant(queue[e].name)
  }

  /** The rewrite makes a rule without subgoals, which evaluation rejects, exactly when the source program has a rule of
      that kind. */
  lemma EmptyRuleIff(prog: Program, edb: set<Triple>, goal: Triple, out: Program)
    requires Rewritable(prog, edb) && IsRewrite(prog, goal, out) && forall r | r in prog :: HasPositive(r)
    ensures (exists rule :: rule in out && !HasPositive(rule)) <==> exists r: nat :: StartsBound(prog, goal, r)
  {
    hide Output, Rewritable, HasPositive, Worklist, CalledFrom, StartsWithConstant;
    var queue :| Worklist(prog, goal, queue) && out == Output(prog, queue, |queue|);
    QueueIsCalled(prog, goal, queue);
    if rule :| rule in out && !HasPositive(rule) {
      var e, r := EmptyHasStart(prog, edb, queue, rule);
      assert queue[e] in queue && queue[e] == Entry(prog[r].head.p, FREE);
      assert StartsBound(prog, goal, r);
    }
    if r: nat :| StartsBound(prog, goal, r) {
      StartIsPlain(prog, edb, r);
      var e: nat :| e < |queue| && queue[e] == Entry(prog[r].head.p, FREE);
      assert StartsAt(prog, queue, e, r);
      var rule := StartHasEmpty(prog, queue, e, r);
    }
  }

  lemma StartIsPlain(prog: Program, edb: set<Triple>, r: nat)
    requires Rewritable(prog, edb) && StartsWithConstant(prog, r)
    ensures r < |prog| && prog[r].head.p == Constant(prog[r].head.p.name)
  {
    PlainRule(prog, edb, r);
  }

  lemma EmptyHasStart(prog: Program, edb: set<Triple>, queue: seq<Adorned>, rule: Rule) returns (e: nat, r: nat)
    requires Rewritable(prog, edb) && forall r | r in prog :: HasPositive(r)
    requires rule in Output(prog, queue, |queue|) && !HasPositive(rule)
    ensures StartsAt(prog, queue, e, r)
  {
    hide Output, Rewritable, HasPositive, NewBody, Plain;
    var j;
    e, r, j := Origin(prog, queue, rule);
    PlainRule(prog, edb, r);
    NewRuleIsSafe(prog, queue, e, r, j, rule);
    EmptyIsStart(prog, queue, e, r, j, rule);
  }

  lemma StartHasEmpty(prog: Program, queue: seq<Adorned>, e: nat, r: nat) returns (rule: Rule)
    requires StartsAt(prog, queue, e, r)
    ensures rule in Output(prog, queue, |queue|) && !HasPositive(rule)
  {
    hide Output;
    rule := MagicRule(prog, prog[r], FREE, 0);
    assert From(prog, queue, e, r, 0, rule);
    var at := IsOutput(prog, queue, e, r, 0, rule);
    assert rule.body == [];
    NoSubgoals(rule);
  }

  lemma EmptyIsStart(prog: Program, queue: seq<Adorned>, e: nat, r: nat, j: nat, rule: Rule)
    requires From(prog, queue, e, r, j, rule) && !HasPositive(rule) && HasPositive(prog[r])
    requires rule.body == NewBody(prog, prog[r], queue[e].ad, j)
    requires forall k | 0 <= k < |rule.body| :: !rule.body[k].negated
    ensures StartsAt(prog, queue, e, r)
  {
    hide HasPositive;
    if rule.body != [] { FirstPositive(rule); }
    NoSubgoals(Rule(prog[r].head, []));
    assert |rule.body| == |Guard(prog[r], queue[e].ad)| + j;
  }

  lemma FirstPositive(rule: Rule)
    requires rule.body != [] && forall k | 0 <= k < |rule.body| :: !rule.body[k].negated
    ensures HasPositive(rule)
  {
    assert !rule.body[0].negated;
  }

  lemma NoSubgoals(rule: Rule)
    requires rule.body == []
    ensures !HasPositive(rule)
  {
  }

  // ---- one input for each ----

  function Atom(s: string, p: string, o: string): Triple {
    Triple(if s != "" && s[0] == '?' then Variable(s) else Constant(s), Constant(p),
           if o != "" && o[0] == '?' then Variable(o) else Constant(o))
  }

  function Positive(atoms: seq<Triple>): seq<Subgoal> {
    seq(|atoms|, i requires 0 <= i < |atoms| => Subgoal(atoms[i], false))
  }

  /** q(?x, ?y) if e(?x, ?y); and p(?x, ?y) if q(c, ?x) and e(?x, ?y). */
  function TwoRules(): Program {
    [Rule(Atom("?x", "q", "?y"), Positive([Atom("?x", "e", "?y")])),
     Rule(Atom("?x", "p", "?y"), Positive([Atom("c", "q", "?x"), Atom("?x", "e", "?y")]))]
  }

  lemma TwoRulesShape()
    ensures var (q, p) := (TwoRules()[0], TwoRules()[1]);
            && q.body == [Subgoal(Atom("?x", "e", "?y"), false)]
            && p.body == [Subgoal(Atom("c", "q", "?x"), false), Subgoal(Atom("?x", "e", "?y"), false)]
            && Vars(Atom("?x", "e", "?y")) == {Variable("?x"), Variable("?y")}
            && q.head == Atom("?x", "q", "?y") && p.head == Atom("?x", "p", "?y")
            && Vars(q.head) == Vars(p.head) == {Variable("?x"), Variable("?y")}
    ensures HeadPreds(TwoRules()) == {Constant("p"), Constant("q")}
  {
    assert forall r | r in TwoRules() :: r == TwoRules()[0] || r == TwoRules()[1];
    assert TwoRules()[0] in TwoRules() && TwoRules()[1] in TwoRules();
  }

  lemma TwoRulesSafe()
    ensures forall r | r in TwoRules() :: Safe(r) && HasPositive(r)
    ensures ConstantPredicates(TwoRules()) && !Negated(TwoRules())
  {
    TwoRulesShape();
    var q, p := TwoRules()[0], TwoRules()[1];
    hide Vars, Atom;
    assert {Variable("?x"), Variable("?y")} <= PosVars(q.body) by {
      assert Vars(q.body[0].atom) == {Variable("?x"), Variable("?y")};
    }
    assert {Variable("?x"), Variable("?y")} <= PosVars(p.body) by {
      assert Vars(p.body[1].atom) == {Variable("?x"), Variable("?y")};
    }
    assert !q.body[0].negated && !p.body[0].negated;
    TwoRulesConstant();
  }

  lemma TwoRulesConstant()
    ensures ConstantPredicates(TwoRules()) && !Negated(TwoRules())
  {
  }

  lemma TwoRulesRewritable(edb: set<Triple>)
    requires forall f | f in edb :: f.p == Constant("e")
    ensures Rewritable(TwoRules(), edb) && forall r | r in TwoRules() :: HasPositive(r)
    ensures HeadPreds(TwoRules()) == {Constant("p"), Constant("q")}
  {
    hide TwoRules, Safe, HasPositive, HeadPreds, Atom, AdornedName, MagicName, UsedPreds, ConstantPredicates, Negated;
    TwoRulesShape();
    TwoRulesSafe();
    ShortNames(edb);
    forall a | Derived(TwoRules(), a)
      ensures Constant(AdornedName(a)) !in UsedPreds(TwoRules(), edb) && Constant(MagicName(a)) !in UsedPreds(TwoRules(), edb)
      ensures !IsIdb(TwoRules(), Constant("magic_" + a.name))
    {
      LongNames(a);
    }
  }

  lemma ShortNames(edb: set<Triple>)
    requires forall f | f in edb :: f.p == Constant("e")
    ensures forall x | x in UsedPreds(TwoRules(), edb) :: |x.name| == 1
  {
    TwoRulesShape();
    hide Vars, HeadPreds;
    assert forall r | r in TwoRules() :: r == TwoRules()[0] || r == TwoRules()[1];
  }

  lemma LongNames(a: Adorned)
    ensures |AdornedName(a)| > 1 && |MagicName(a)| > 1 && |"magic_" + a.name| > 1
  {
  }

  /** The goal e(a, ?y) over the fact e(a, b): the fact answers the goal, and the rewritten program does not say so. */
  lemma AssertedAnswerIsLost(out: Program, m: iset<Triple>, mm: iset<Triple>)
    requires var edb, goal := {Atom("a", "e", "b")}, Atom("a", "e", "?y");
             IsRewrite(TwoRules(), goal, out) && LeastModel(TwoRules(), edb, m) && LeastModel(out, edb + Seed(goal), mm)
    ensures var f, goal := Atom("a", "e", "b"), Atom("a", "e", "?y");
            Matches(f, goal) && f in m && AdornAtom(f, GoalAd(goal)) !in mm
  {
    var f, goal := Atom("a", "e", "b"), Atom("a", "e", "?y");
    TwoRulesRewritable({f});
    UnderivedGoal(TwoRules(), goal, out);
    NotItsOwnDemand(GoalEntry(goal));
    EmptyModel({f} + Seed(goal), mm, AdornAtom(f, GoalAd(goal)));
    assert |AdornedName(GoalEntry(goal))| == 4;
  }

  lemma FreeGoalCalls(goal: Triple)
    requires goal == Atom("?x", "p", "?y")
    ensures StartsBound(TwoRules(), goal, 1)
  {
    TwoRulesShape();
    hide Successors, HeadPreds;
    assert IsChain(TwoRules(), goal, Goal) && Last(goal, Goal) == Adorned("p", FREE);
  }

  /** The goal p(?x, ?y): the rewrite demands q(c, ?) unconditionally, by a rule without subgoals. */
  lemma FreeGoalMakesEmptyRule(out: Program)
    requires IsRewrite(TwoRules(), Atom("?x", "p", "?y"), out)
    ensures exists rule :: rule in out && !HasPositive(rule)
  {
    var goal := Atom("?x", "p", "?y");
    TwoRulesRewritable({});
    FreeGoalCalls(goal);
    hide StartsBound, Rewritable, TwoRules, HasPositive;
    EmptyRuleIff(TwoRules(), {}, goal, out);
  }
}
