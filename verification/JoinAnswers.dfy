/** What the backtracking join of lib/facts.c answers: the reordering of the subgoals, and when its answers are those of
    the recursive solver of lib/lftj.c. */
module JoinAnswers {
  import opened Collections
  import opened Datalog
  import opened Solver
  import opened Joins

  // ---- variables written twice by one cursor ----

  function VarsBefore(atoms: seq<Triple>, k: nat): set<Symbol> {
    set i, x | 0 <= i < k && i < |atoms| && x in Vars(atoms[i]) :: x
  }

  function Repeated(t: Triple): set<Symbol> {
    set x | x in Vars(t) && ((t.s == x && t.p == x) || (t.s == x && t.o == x) || (t.p == x && t.o == x))
  }

  /** A variable in two columns of one subgoal has a value before the cursor of that subgoal is opened. */
  predicate RepeatsAreBound(atoms: seq<Triple>) {
    forall i | 0 <= i < |atoms| :: Repeated(atoms[i]) <= VarsBefore(atoms, i)
  }

  function Same(db: set<Triple>, n: nat): seq<set<Triple>> {
    seq(n, i => db)
  }

  /** `b` gives exactly the variables of the specification a value and puts each subgoal into the database. */
  ghost predicate Answers(atoms: seq<Triple>, db: set<Triple>, b: Bindings) {
    Sat(atoms, Same(db, |atoms|), 0, map[], b)
  }

  lemma {:induction false} AllVars(atoms: seq<Triple>, k: nat)
    requires k <= |atoms|
    ensures forall x :: x in VarsFrom(atoms, k) <==> exists i :: k <= i < |atoms| && x in Vars(atoms[i])
    decreases |atoms| - k
  {
    if k < |atoms| {
      AllVars(atoms, k + 1);
    }
  }

  lemma AnswersMeans(atoms: seq<Triple>, db: set<Triple>, b: Bindings)
    ensures Answers(atoms, db, b) <==>
            b.Keys == VarsBefore(atoms, |atoms|) && forall i | 0 <= i < |atoms| :: Apply(atoms[i], b) in db
  {
    hide Apply, Vars;
    AllVars(atoms, 0);
    assert VarsFrom(atoms, 0) == VarsBefore(atoms, |atoms|);
  }

  lemma VarsNext(atoms: seq<Triple>, i: nat)
    requires i < |atoms|
    ensures VarsBefore(atoms, i + 1) == VarsBefore(atoms, i) + Vars(atoms[i])
  {
  }

  // ---- along one path ----

  lemma VisitedIsConstant(db: set<Triple>, q: Triple, f: Triple)
    requires Constants(db) && f in CursorFacts(db, q)
    ensures ConstantFact(f) && f in db && f in CursorFacts({f}, q)
  {
  }

  lemma WrittenConstant(atom: Triple, f: Triple, b: Bindings)
    requires ConstantValues(b) && ConstantFact(f)
    ensures var b1 := Written(Apply(atom, b), f, b);
            ConstantValues(b1) && Extends(b, b1) && b1.Keys == b.Keys + Vars(atom)
  {
    Unbound(atom, b);
    WrittenKeeps(Apply(atom, b), f, b);
    OneConstant(Apply(atom, b), f, b);
  }

  lemma OneConstant(q: Triple, f: Triple, b: Bindings)
    requires ConstantValues(b) && ConstantFact(f)
    ensures ConstantValues(Written(q, f, b))
  {
  }

  lemma {:induction false} AfterKeys(atoms: seq<Triple>, db: set<Triple>, p: seq<Triple>, i: nat)
    requires Constants(db) && IsPath(atoms, db, p) && i <= |p|
    ensures ConstantValues(After(atoms, p, i)) && After(atoms, p, i).Keys == VarsBefore(atoms, i)
    ensures i > 0 ==> Extends(After(atoms, p, i - 1), After(atoms, p, i))
  {
    hide CursorFacts, Apply, Written, VarsBefore;
    if i > 0 {
      AfterKeys(atoms, db, p, i - 1);
      var b := After(atoms, p, i - 1);
      VisitedIsConstant(db, Apply(atoms[i - 1], b), p[i - 1]);
      WrittenConstant(atoms[i - 1], p[i - 1], b);
      VarsNext(atoms, i - 1);
    } else {
      assert VarsBefore(atoms, 0) == {} by { NoVars(atoms); }
    }
  }

  lemma NoVars(atoms: seq<Triple>)
    ensures VarsBefore(atoms, 0) == {}
  {
  }

  lemma {:induction false} AfterExtends(atoms: seq<Triple>, db: set<Triple>, p: seq<Triple>, i: nat, j: nat)
    requires Constants(db) && IsPath(atoms, db, p) && i <= j <= |p|
    ensures Extends(After(atoms, p, i), After(atoms, p, j))
    decreases j
  {
    hide IsPath, After;
    if i < j {
      AfterExtends(atoms, db, p, i, j - 1);
      AfterKeys(atoms, db, p, j);
    }
  }

  /** Without a fresh repeat, writing the columns of a fact makes the subgoal that fact. */
  lemma WrittenMeaning(atom: Triple, f: Triple, b: Bindings)
    requires ConstantValues(b) && ConstantFact(f) && f in CursorFacts({f}, Apply(atom, b)) && Repeated(atom) <= b.Keys
    ensures Apply(atom, Written(Apply(atom, b), f, b)) == f
  {
  }

  lemma PathMeaning(atoms: seq<Triple>, db: set<Triple>, p: seq<Triple>, i: nat)
    requires Constants(db) && IsPath(atoms, db, p) && RepeatsAreBound(atoms) && i < |p|
    ensures Apply(atoms[i], After(atoms, p, |p|)) == p[i] && p[i] in db
  {
    hide CursorFacts, Apply, Written, VarsBefore, Repeated;
    var b := After(atoms, p, i);
    AfterKeys(atoms, db, p, i);
    AfterKeys(atoms, db, p, i + 1);
    AfterKeys(atoms, db, p, |p|);
    VisitedIsConstant(db, Apply(atoms[i], b), p[i]);
    WrittenMeaning(atoms[i], p[i], b);
    AfterExtends(atoms, db, p, i + 1, |p|);
    VarsNext(atoms, i);
    ApplyExtended(atoms[i], After(atoms, p, i + 1), After(atoms, p, |p|));
  }

  /** A path without fresh repeats ends in an answer, and no other path ends in the same one. */
  lemma PathAnswers(atoms: seq<Triple>, db: set<Triple>, p: seq<Triple>)
    requires Constants(db) && IsPath(atoms, db, p) && RepeatsAreBound(atoms)
    ensures Answers(atoms, db, After(atoms, p, |p|))
    ensures p == PathOf(atoms, After(atoms, p, |p|))
  {
    hide CursorFacts, Written, Apply;
    AnswersMeans(atoms, db, After(atoms, p, |p|));
    AfterKeys(atoms, db, p, |p|);
    forall i | 0 <= i < |p| ensures Apply(atoms[i], After(atoms, p, |p|)) == p[i] && p[i] in db {
      PathMeaning(atoms, db, p, i);
    }
  }

  function PathOf(atoms: seq<Triple>, b: Bindings): seq<Triple> {
    seq(|atoms|, i requires 0 <= i < |atoms| => Apply(atoms[i], b))
  }

  lemma WrittenPart(atom: Triple, b0: Bindings, b: Bindings)
    requires ConstantValues(b0) && OnlyVars(b) && Extends(b0, b) && Vars(atom) <= b.Keys
    ensures var f := Apply(atom, b); f in CursorFacts({f}, Apply(atom, b0)) && Extends(Written(Apply(atom, b0), f, b0), b)
  {
  }

  lemma {:induction false} AnswerFollowed(atoms: seq<Triple>, db: set<Triple>, b: Bindings, i: nat)
    requires Constants(db) && Answers(atoms, db, b) && i <= |atoms|
    ensures var p := PathOf(atoms, b); Extends(After(atoms, p, i), b) && ConstantValues(After(atoms, p, i))
  {
    hide CursorFacts, Written, Apply, Answers;
    if i > 0 {
      var p := PathOf(atoms, b);
      AnswerFollowed(atoms, db, b, i - 1);
      var _ := AnswerStep(atoms, db, b, i - 1, After(atoms, p, i - 1));
    }
  }

  /** The next subgoal's instance under the answer is visible, and writing it stays within the answer. */
  lemma AnswerStep(atoms: seq<Triple>, db: set<Triple>, b: Bindings, i: nat, b0: Bindings) returns (f: Triple)
    requires Constants(db) && Answers(atoms, db, b) && i < |atoms|
    requires Extends(b0, b) && ConstantValues(b0)
    ensures f == PathOf(atoms, b)[i] && f in CursorFacts(db, Apply(atoms[i], b0))
    ensures var b1 := Written(Apply(atoms[i], b0), f, b0); Extends(b1, b) && ConstantValues(b1)
  {
    hide CursorFacts, Written, Apply, Answers;
    AnswersMeans(atoms, db, b);
    AnswerVars(atoms, b);
    f := Apply(atoms[i], b);
    WrittenPart(atoms[i], b0, b);
    WrittenConstant(atoms[i], f, b0);
    VisitedIn(db, Apply(atoms[i], b0), f);
  }

  lemma AnswerVars(atoms: seq<Triple>, b: Bindings)
    requires b.Keys == VarsBefore(atoms, |atoms|)
    ensures OnlyVars(b) && forall i | 0 <= i < |atoms| :: Vars(atoms[i]) <= b.Keys
  {
  }

  lemma VisitedIn(db: set<Triple>, q: Triple, f: Triple)
    requires f in db && f in CursorFacts({f}, q)
    ensures f in CursorFacts(db, q)
  {
  }

  /** Every answer is the end of a path, repeats or not. */
  lemma AnswerHasPath(atoms: seq<Triple>, db: set<Triple>, b: Bindings)
    requires Constants(db) && Answers(atoms, db, b)
    ensures IsPath(atoms, db, PathOf(atoms, b)) && After(atoms, PathOf(atoms, b), |atoms|) == b
  {
    hide CursorFacts, Written, Apply;
    var p := PathOf(atoms, b);
    forall i | 0 <= i < |p| ensures p[i] in CursorFacts(db, Apply(atoms[i], After(atoms, p, i))) {
      AnswerFollowed(atoms, db, b, i);
      var _ := AnswerStep(atoms, db, b, i, After(atoms, p, i));
    }
    AnswerFollowed(atoms, db, b, |atoms|);
    AfterKeys(atoms, db, p, |atoms|);
    AnswersMeans(atoms, db, b);
    SameBindings(After(atoms, p, |atoms|), b);
  }

  // ---- exactly when the paths are the answers ----

  /** Each path ends in an answer, and different paths in different answers. */
  ghost predicate Exact(atoms: seq<Triple>, db: set<Triple>) {
    && (forall p :: IsPath(atoms, db, p) ==> Answers(atoms, db, After(atoms, p, |p|)))
    && (forall p, q :: IsPath(atoms, db, p) && IsPath(atoms, db, q) && After(atoms, p, |p|) == After(atoms, q, |q|) ==> p == q)
  }

  lemma {:induction false} SameAfter(atoms: seq<Triple>, p: seq<Triple>, k: nat, g: Triple, i: nat)
    requires |p| == |atoms| && k < |p| && i <= |p|
    requires var b := After(atoms, p, k); Written(Apply(atoms[k], b), g, b) == Written(Apply(atoms[k], b), p[k], b)
    ensures After(atoms, p[k := g], i) == After(atoms, p, i)
  {
    if i > 0 {
      SameAfter(atoms, p, k, g, i - 1);
    }
  }

  /** The fact that differs in the first column of the repeated variable is visited too, and leaves the same slots. */
  lemma FirstColumnIsLost(atom: Triple, x: Symbol, f: Triple, b: Bindings, d: Symbol) returns (g: Triple)
    requires ConstantValues(b) && x in Repeated(atom) && x !in b && ConstantFact(f) && f in CursorFacts({f}, Apply(atom, b))
    requires !IsVar(d) && (atom.s == x ==> f.s != d) && (atom.p == x ==> f.p != d)
    ensures ConstantFact(g) && g != f && g in CursorFacts({g}, Apply(atom, b))
    ensures Written(Apply(atom, b), g, b) == Written(Apply(atom, b), f, b)
  {
    g := if atom.s == x then f.(s := d) else f.(p := d);
  }

  lemma UsedIsPath(atoms: seq<Triple>, db: set<Triple>, b: Bindings)
    requires Constants(db) && b.Keys == VarsBefore(atoms, |atoms|) && forall f | f in PathOf(atoms, b) :: f in db
    ensures IsPath(atoms, db, PathOf(atoms, b))
  {
    forall i | 0 <= i < |atoms| ensures Apply(atoms[i], b) in db {
      assert PathOf(atoms, b)[i] in db;
    }
    AnswersMeans(atoms, db, b);
    AnswerHasPath(atoms, db, b);
  }

  lemma CommonValue(atoms: seq<Triple>, b: Bindings, c: Symbol)
    requires !IsVar(c) && b.Keys == VarsBefore(atoms, |atoms|) && forall x | x in b :: b[x] == c
    ensures forall f | f in PathOf(atoms, b) :: ConstantFact(f)
    ensures forall i, x | 0 <= i < |atoms| && x in Vars(atoms[i]) :: x in b
  {
    forall i | 0 <= i < |atoms| ensures ConstantFact(Apply(atoms[i], b)) && Vars(atoms[i]) <= b.Keys {
      AnswerVars(atoms, b);
    }
  }

  /** A repeat that is not bound: over some database two paths end in the same answer, which is then returned twice. */
  lemma RepeatGoesTwice(atoms: seq<Triple>) returns (db: set<Triple>, p: seq<Triple>, q: seq<Triple>)
    requires !RepeatsAreBound(atoms)
    ensures Constants(db) && IsPath(atoms, db, p) && IsPath(atoms, db, q) && p != q
    ensures After(atoms, p, |p|) == After(atoms, q, |q|)
  {
    var k: nat :| k < |atoms| && !(Repeated(atoms[k]) <= VarsBefore(atoms, k));
    var x :| x in Repeated(atoms[k]) && x !in VarsBefore(atoms, k);
    var b: Bindings := map y | y in VarsBefore(atoms, |atoms|) :: Constant("c");
    p := PathOf(atoms, b);
    CommonValue(atoms, b, Constant("c"));
    db, q := OtherPath(atoms, b, k, x);
  }

  lemma Visits(atoms: seq<Triple>, db: set<Triple>, p: seq<Triple>, k: nat)
    requires IsPath(atoms, db, p) && k < |p|
    ensures p[k] in CursorFacts(db, Apply(atoms[k], After(atoms, p, k)))
  {
  }

  lemma AllConstant(db: set<Triple>)
    requires forall f | f in db :: ConstantFact(f)
    ensures Constants(db)
  {
  }

  lemma OtherPath(atoms: seq<Triple>, b: Bindings, k: nat, x: Symbol) returns (db: set<Triple>, q: seq<Triple>)
    requires k < |atoms| && x in Repeated(atoms[k]) && x !in VarsBefore(atoms, k)
    requires b.Keys == VarsBefore(atoms, |atoms|) && x in b && b[x] == Constant("c")
    requires forall f | f in PathOf(atoms, b) :: ConstantFact(f)
    ensures var p := PathOf(atoms, b);
            && Constants(db) && IsPath(atoms, db, p) && IsPath(atoms, db, q) && p != q
            && After(atoms, p, |p|) == After(atoms, q, |q|)
  {
    hide CursorFacts, Written, After, IsPath, Constants, Repeated;
    var p := PathOf(atoms, b);
    var used := set i | 0 <= i < |p| :: p[i];
    AllConstant(used);
    UsedIsPath(atoms, used, b);
    AfterKeys(atoms, used, p, k);
    Visits(atoms, used, p, k);
    VisitedIsConstant(used, Apply(atoms[k], After(atoms, p, k)), p[k]);
    var g := FirstColumnIsLost(atoms[k], x, p[k], After(atoms, p, k), Constant("d"));
    db := used + {g};
    VisitedIn(db, Apply(atoms[k], After(atoms, p, k)), g);
    AllConstant(db);
    UsedIsPath(atoms, db, b);
    q := p[k := g];
    SameAfter(atoms, p, k, g, |p|);
    Replaced(atoms, db, p, k, g);
  }

  lemma Replaced(atoms: seq<Triple>, db: set<Triple>, p: seq<Triple>, k: nat, g: Triple)
    requires IsPath(atoms, db, p) && k < |p| && g in CursorFacts(db, Apply(atoms[k], After(atoms, p, k)))
    requires var b := After(atoms, p, k); Written(Apply(atoms[k], b), g, b) == Written(Apply(atoms[k], b), p[k], b)
    ensures IsPath(atoms, db, p[k := g])
  {
    hide CursorFacts, Written, Apply, After;
    var q := p[k := g];
    forall i | 0 <= i < |q| ensures q[i] in CursorFacts(db, Apply(atoms[i], After(atoms, q, i))) {
      SameAfter(atoms, p, k, g, i);
    }
  }

  /** The paths are the answers over every database exactly when each repeat is bound in time. */
  lemma ExactIff(atoms: seq<Triple>)
    ensures (forall db | Constants(db) :: Exact(atoms, db)) <==> RepeatsAreBound(atoms)
  {
    if RepeatsAreBound(atoms) {
      forall db, p | Constants(db) && IsPath(atoms, db, p)
        ensures Answers(atoms, db, After(atoms, p, |p|)) && p == PathOf(atoms, After(atoms, p, |p|))
      {
        PathAnswers(atoms, db, p);
      }
    } else {
      var db, p, q := RepeatGoesTwice(atoms);
      assert !Exact(atoms, db);
    }
  }

  // ---- the whole enumeration ----

  /** `paths` has every path once, and the calls report what they leave in the slots. */
  ghost predicate Listed(atoms: seq<Triple>, db: set<Triple>, paths: seq<seq<Triple>>, calls: seq<Bindings>) {
    && |paths| == |calls| && NoDup(paths)
    && (forall p :: p in paths <==> atoms != [] && IsPath(atoms, db, p))
    && forall i | 0 <= i < |calls| :: |paths[i]| == |atoms| && calls[i] == After(atoms, paths[i], |atoms|)
  }

  /** Calls facts_with_cursor_next until it answers 0. */
  method Enumerate(db: set<Triple>, atoms: seq<Triple>) returns (calls: seq<Bindings>)
    requires Constants(db)
    ensures exists paths :: Listed(atoms, db, paths, calls)
  {
    hide IsPath, After;
    var c := new JoinCursor(db, atoms);
    calls := [];
    ghost var paths: seq<seq<Triple>> := [];
    var ok := true;
    while ok
      invariant c.Valid() && c.atoms == atoms && c.db == db && fresh(c)
      invariant |paths| == |calls| && NoDup(paths)
      invariant forall p :: atoms != [] && IsPath(atoms, db, p) <==> p in paths || c.Pending(p)
      invariant forall p | p in paths :: !c.Pending(p)
      invariant forall i | 0 <= i < |calls| :: |paths[i]| == |atoms| && calls[i] == After(atoms, paths[i], |atoms|)
      invariant !ok ==> forall p :: !c.Pending(p)
      decreases ok, c.Work()
    {
      ok := c.Next();
      if ok {
        calls, paths := calls + [c.slots], paths + [c.Current()];
      }
    }
    assert Listed(atoms, db, paths, calls);
  }

  // ---- the order of the subgoals ----

  const MAX_BOUND := 128

  function TermCost(t: Symbol, bound: seq<Symbol>, usage: map<Symbol, nat>): real {
    if IsVar(t) then (if t in bound then 1.0 else 100000.0)
    else if t in usage then usage[t] as real else 0.1
  }

  predicate HasUnbound(t: Triple, bound: seq<Symbol>) {
    exists x :: x in Vars(t) && x !in bound
  }

  /** How many facts a subgoal is expected to visit; a negated one waits until its variables are bound. */
  function Cost(g: Subgoal, bound: seq<Symbol>, usage: map<Symbol, nat>): real {
    if g.negated then (if HasUnbound(g.atom, bound) then 1000000000000000.0 else 1.0)
    else TermCost(g.atom.s, bound, usage) * TermCost(g.atom.p, bound, usage) * TermCost(g.atom.o, bound, usage)
  }

  lemma CostNotNegative(g: Subgoal, bound: seq<Symbol>, usage: map<Symbol, nat>)
    ensures Cost(g, bound, usage) >= 0.0
  {
    var a, b := TermCost(g.atom.s, bound, usage), TermCost(g.atom.p, bound, usage);
    assert a * b >= 0.0;
  }

  function Note(t: Symbol, bound: seq<Symbol>): seq<Symbol> {
    if IsVar(t) && |bound| < MAX_BOUND && t !in bound then bound + [t] else bound
  }

  /** The variables the first `i` subgoals bind, as far as they are remembered. */
  function BoundBy(spec: seq<Subgoal>, i: nat): seq<Symbol>
    requires i <= |spec|
  {
    if i == 0 then []
    else var bound := BoundBy(spec, i - 1);
         var g := spec[i - 1];
         if g.negated then bound else Note(g.atom.o, Note(g.atom.p, Note(g.atom.s, bound)))
  }

  /** Each subgoal is the cheapest of those from it on, given what the ones before it bind. */
  ghost predicate Greedy(spec: seq<Subgoal>, n: nat, usage: map<Symbol, nat>)
    requires n <= |spec|
  {
    forall i, j | 0 <= i < n && i <= j < |spec| ::
      Cost(spec[i], BoundBy(spec, i), usage) <= Cost(spec[j], BoundBy(spec, i), usage)
  }

  lemma {:induction false} BoundByPrefix(s: seq<Subgoal>, t: seq<Subgoal>, i: nat)
    requires i <= |s| && i <= |t| && s[..i] == t[..i]
    ensures BoundBy(s, i) == BoundBy(t, i)
  {
    if i > 0 {
      assert s[i - 1] == s[..i][i - 1] == t[i - 1];
      assert s[..i - 1] == s[..i][..i - 1] == t[..i - 1];
      BoundByPrefix(s, t, i - 1);
    }
  }

  // ---- what the sort knows to be bound ----

  /** A list of variables that remembers those of `vars`, as far as there is room. */
  ghost predicate Remembers(bound: seq<Symbol>, vars: set<Symbol>) {
    && NoDup(bound) && |bound| <= MAX_BOUND && (forall x | x in bound :: x in vars)
    && (|bound| < MAX_BOUND ==> forall x | x in vars :: x in bound)
  }

  lemma NoteRemembers(t: Symbol, bound: seq<Symbol>, vars: set<Symbol>)
    requires Remembers(bound, vars)
    ensures Remembers(Note(t, bound), vars + VarOf(t))
  {
  }

  lemma PosVarsMore(spec: seq<Subgoal>, i: nat)
    requires i < |spec|
    ensures PosVars(spec[..i + 1]) ==
            PosVars(spec[..i]) + if spec[i].negated then {} else VarOf(spec[i].atom.s) + VarOf(spec[i].atom.p) + VarOf(spec[i].atom.o)
  {
    var s, t := spec[..i], spec[..i + 1];
    assert t == s + [spec[i]];
    forall x | x in PosVars(t) && (spec[i].negated || x !in Vars(spec[i].atom)) ensures x in PosVars(s) {
      var j :| 0 <= j < |t| && !t[j].negated && x in Vars(t[j].atom);
      assert s[j] == t[j];
    }
    forall x | x in PosVars(s) ensures x in PosVars(t) {
      var j :| 0 <= j < |s| && !s[j].negated && x in Vars(s[j].atom);
      assert s[j] == t[j];
    }
    if !spec[i].negated {
      forall x | x in Vars(spec[i].atom) ensures x in PosVars(t) { assert t[i] == spec[i]; }
    }
  }

  /** What the sort takes for bound when it chooses subgoal `i` are the variables of the positive subgoals before it: all of
      them up to the 128 it has room for. */
  lemma {:induction false} BoundByIs(spec: seq<Subgoal>, i: nat)
    requires i <= |spec|
    ensures Remembers(BoundBy(spec, i), PosVars(spec[..i]))
  {
    hide PosVars, Note, Remembers;
    if i == 0 {
      NothingRemembered(spec[..0]);
    } else {
      BoundByIs(spec, i - 1);
      PosVarsMore(spec, i - 1);
      var t, bound, vars := spec[i - 1].atom, BoundBy(spec, i - 1), PosVars(spec[..i - 1]);
      NoteRemembers(t.s, bound, vars);
      NoteRemembers(t.p, Note(t.s, bound), vars + VarOf(t.s));
      NoteRemembers(t.o, Note(t.p, Note(t.s, bound)), vars + VarOf(t.s) + VarOf(t.p));
      assert vars + VarOf(t.s) + VarOf(t.p) + VarOf(t.o) == vars + (VarOf(t.s) + VarOf(t.p) + VarOf(t.o));
      assert vars + {} == vars;
    }
  }

  lemma NothingRemembered(spec: seq<Subgoal>)
    requires spec == []
    ensures Remembers([], PosVars(spec))
  {
  }

  // ---- what the costs say ----

  /** A variable that is not bound yet. */
  predicate Open(t: Symbol, bound: seq<Symbol>) {
    IsVar(t) && t !in bound
  }

  /** Constants are used fewer times than a free variable is reckoned to cost. */
  predicate SmallUsage(usage: map<Symbol, nat>) {
    forall t | t in usage :: usage[t] < 100000
  }

  lemma TermCostIs(t: Symbol, bound: seq<Symbol>, usage: map<Symbol, nat>)
    requires SmallUsage(usage)
    ensures 0.0 <= TermCost(t, bound, usage) <= 100000.0
    ensures TermCost(t, bound, usage) == 100000.0 <==> Open(t, bound)
  {
  }

  lemma Times(x: real, y: real, z: real)
    requires 0.0 <= x <= y && z >= 0.0
    ensures 0.0 <= x * z <= y * z && (z > 0.0 && x < y ==> x * z < y * z)
  {
  }

  lemma TwoAtMost(a: real, b: real, m: real, n: real)
    requires 0.0 <= a <= m && 0.0 <= b <= n && m > 0.0 && n > 0.0
    ensures 0.0 <= a * b <= m * n && (a * b == m * n ==> a == m && b == n)
  {
    Times(a, m, b);
    Times(b, n, m);
    Commute(m, b);
    Commute(m, n);
    if a < m { SmallerFirst(a, b, m, n); }
    if b < n {
      SmallerFirst(b, a, n, m);
      Commute(a, b);
    }
  }

  lemma SmallerFirst(a: real, b: real, m: real, n: real)
    requires 0.0 <= a < m && 0.0 <= b <= n && n > 0.0
    ensures a * b < m * n
  {
    Times(b, n, a);
    Commute(a, b);
    Commute(a, n);
    Strictly(a, m, n);
  }

  lemma Strictly(x: real, y: real, z: real)
    requires x < y && z > 0.0
    ensures x * z < y * z
  {
  }

  lemma Commute(a: real, b: real)
    ensures a * b == b * a
  {
  }

  lemma Both(a: real, b: real, x: real, y: real)
    requires 0.0 <= a <= b && 0.0 <= x <= y
    ensures 0.0 <= a * x <= b * y
  {
    Times(a, b, x);
    Times(x, y, b);
    Commute(b, x);
    Commute(b, y);
  }

  lemma ProductAtMost(a: real, b: real, c: real, m: real)
    requires 0.0 <= a <= m && 0.0 <= b <= m && 0.0 <= c <= m && m > 0.0
    ensures a * b * c <= m * m * m && (a * b * c == m * m * m ==> a == b == c == m)
  {
    TwoAtMost(a, b, m, m);
    TwoAtMost(a * b, c, m * m, m);
  }

  /** The cost of a negated subgoal with an unbound variable is reached only by another one, or by a subgoal with
      nothing but unbound variables. */
  lemma CostliestIs(g: Subgoal, bound: seq<Symbol>, usage: map<Symbol, nat>)
    requires SmallUsage(usage)
    ensures Cost(g, bound, usage) >= 1000000000000000.0 <==>
            if g.negated then HasUnbound(g.atom, bound)
            else Open(g.atom.s, bound) && Open(g.atom.p, bound) && Open(g.atom.o, bound)
  {
    TermCostIs(g.atom.s, bound, usage);
    TermCostIs(g.atom.p, bound, usage);
    TermCostIs(g.atom.o, bound, usage);
    hide TermCost;
    ProductAtMost(TermCost(g.atom.s, bound, usage), TermCost(g.atom.p, bound, usage), TermCost(g.atom.o, bound, usage), 100000.0);
  }

  /** A negated subgoal waits until its variables are bound, unless all that is left are negated subgoals that wait as
      well and subgoals with nothing bound at all. */
  lemma NegatedWaits(spec: seq<Subgoal>, n: nat, usage: map<Symbol, nat>, i: nat, j: nat)
    requires n <= |spec| && Greedy(spec, n, usage) && SmallUsage(usage) && i < n && i <= j < |spec|
    requires spec[i].negated && HasUnbound(spec[i].atom, BoundBy(spec, i))
    ensures var (g, bound) := (spec[j], BoundBy(spec, i));
            if g.negated then HasUnbound(g.atom, bound)
            else Open(g.atom.s, bound) && Open(g.atom.p, bound) && Open(g.atom.o, bound)
  {
    hide Cost, HasUnbound;
    CostliestIs(spec[i], BoundBy(spec, i), usage);
    CostliestIs(spec[j], BoundBy(spec, i), usage);
  }

  /** Binding a variable never makes a subgoal dearer. */
  lemma BindingHelps(g: Subgoal, bound: seq<Symbol>, x: Symbol, usage: map<Symbol, nat>)
    ensures Cost(g, bound + [x], usage) <= Cost(g, bound, usage)
  {
    TermHelps(g.atom.s, bound, x, usage);
    TermHelps(g.atom.p, bound, x, usage);
    TermHelps(g.atom.o, bound, x, usage);
    hide TermCost;
    var s, p, o := TermCost(g.atom.s, bound, usage), TermCost(g.atom.p, bound, usage), TermCost(g.atom.o, bound, usage);
    var s', p', o' := TermCost(g.atom.s, bound + [x], usage), TermCost(g.atom.p, bound + [x], usage), TermCost(g.atom.o, bound + [x], usage);
    Both(s', s, p', p);
    Both(s' * p', s * p, o', o);
  }

  lemma TermHelps(t: Symbol, bound: seq<Symbol>, x: Symbol, usage: map<Symbol, nat>)
    ensures 0.0 <= TermCost(t, bound + [x], usage) <= TermCost(t, bound, usage)
  {
  }

  /** Between subgoals that differ in one constant, the one used less often is cheaper, an unknown one below those
      that are used; a bound variable counts as a constant used once. */
  lemma ConstantsCompare(s: Symbol, t: Symbol, bound: seq<Symbol>, usage: map<Symbol, nat>)
    requires !IsVar(s) && !IsVar(t)
    ensures s in usage && t in usage ==> (TermCost(s, bound, usage) <= TermCost(t, bound, usage) <==> usage[s] <= usage[t])
    ensures s !in usage && t in usage && usage[t] > 0 ==> TermCost(s, bound, usage) < TermCost(t, bound, usage)
    ensures forall x | IsVar(x) && x in bound && t in usage && usage[t] == 1 :: TermCost(x, bound, usage) == TermCost(t, bound, usage)
  {
  }

  // ---- choosing ----

  /** Moving the cheapest of the rest to position `n` extends the greedy part. */
  lemma GreedyMore(s: seq<Subgoal>, n: nat, best: nat, t: seq<Subgoal>, usage: map<Symbol, nat>)
    requires n <= best < |s| && Greedy(s, n, usage) && t == s[n := s[best]][best := s[n]]
    requires forall j | n <= j < |s| :: Cost(s[best], BoundBy(s, n), usage) <= Cost(s[j], BoundBy(s, n), usage)
    ensures Greedy(t, n + 1, usage) && multiset(t) == multiset(s)
  {
    hide Cost;
    forall i, j | 0 <= i < n + 1 && i <= j < |t|
      ensures Cost(t[i], BoundBy(t, i), usage) <= Cost(t[j], BoundBy(t, i), usage)
    {
      assert s[..i] == t[..i];
      BoundByPrefix(s, t, i);
      var m := if j == n then best else if j == best then n else j;
      assert t[j] == s[m] && i <= m;
    }
  }

  /** The first cheapest subgoal from `i` on. */
  method Cheapest(spec: array<Subgoal>, i: nat, bound: seq<Symbol>, usage: map<Symbol, nat>) returns (best: nat)
    requires i < spec.Length
    ensures i <= best < spec.Length
    ensures forall j | i <= j < spec.Length :: Cost(spec[best], bound, usage) <= Cost(spec[j], bound, usage)
    ensures forall j | i <= j < best :: Cost(spec[best], bound, usage) < Cost(spec[j], bound, usage)
  {
    hide Cost;
    best := i;
    var bestCost, j := -1.0, i;
    while j < spec.Length
      invariant i <= j <= spec.Length && i <= best < spec.Length && (best < j || j == i == best)
      invariant if j == i then bestCost == -1.0 else bestCost == Cost(spec[best], bound, usage) >= 0.0
      invariant forall m | i <= m < j :: Cost(spec[best], bound, usage) <= Cost(spec[m], bound, usage)
      invariant forall m | i <= m < best :: Cost(spec[best], bound, usage) < Cost(spec[m], bound, usage)
    {
      var cost := Cost(spec[j], bound, usage);
      CostNotNegative(spec[j], bound, usage);
      if bestCost < 0.0 || cost < bestCost {
        bestCost, best := cost, j;
      }
      j := j + 1;
    }
  }

  /** facts_spec_sort: repeatedly swaps the cheapest remaining subgoal to the front of the rest. */
  method SpecSort(spec: array<Subgoal>, usage: map<Symbol, nat>)
    modifies spec
    ensures multiset(spec[..]) == multiset(old(spec[..])) && Greedy(spec[..], spec.Length, usage)
  {
    hide Cost, Greedy, Note;
    var bound: seq<Symbol>, i := [], 0;
    NothingGreedy(spec[..], usage);
    while i < spec.Length
      invariant i <= spec.Length && bound == BoundBy(spec[..], i)
      invariant multiset(spec[..]) == multiset(old(spec[..])) && Greedy(spec[..], i, usage)
    {
      var best := Cheapest(spec, i, bound, usage);
      ghost var s := spec[..];
      spec[i], spec[best] := spec[best], spec[i];
      Chosen(s, i, best, spec[..], usage);
      var g := spec[i];
      if !g.negated {
        bound := Note(g.atom.o, Note(g.atom.p, Note(g.atom.s, bound)));
      }
      i := i + 1;
    }
  }

  lemma Chosen(s: seq<Subgoal>, n: nat, best: nat, t: seq<Subgoal>, usage: map<Symbol, nat>)
    requires n <= best < |s| && Greedy(s, n, usage) && t == s[n := s[best]][best := s[n]]
    requires forall j | n <= j < |s| :: Cost(s[best], BoundBy(s, n), usage) <= Cost(s[j], BoundBy(s, n), usage)
    ensures Greedy(t, n + 1, usage) && multiset(t) == multiset(s)
    ensures BoundBy(t, n + 1) == (var g, bound := t[n], BoundBy(s, n);
                                  if g.negated then bound else Note(g.atom.o, Note(g.atom.p, Note(g.atom.s, bound))))
  {
    hide Cost, Note, Greedy;
    GreedyMore(s, n, best, t, usage);
    assert s[..n] == t[..n];
    BoundByPrefix(s, t, n);
  }

  lemma NothingGreedy(s: seq<Subgoal>, usage: map<Symbol, nat>)
    ensures Greedy(s, 0, usage)
  {
  }

  // ---- the two engines ----

  function Atoms(spec: seq<Subgoal>): seq<Triple> {
    seq(|spec|, i requires 0 <= i < |spec| => spec[i].atom)
  }

  function VarsIn(atoms: set<Triple>): set<Symbol> {
    set t, x | t in atoms && x in Vars(t) :: x
  }

  /** An answer is a matter of the set of subgoals. */
  lemma AnswersOfSet(atoms: seq<Triple>, all: set<Triple>, db: set<Triple>, b: Bindings)
    requires forall t :: t in atoms <==> t in all
    ensures Answers(atoms, db, b) <==> b.Keys == VarsIn(all) && forall t | t in all :: Apply(t, b) in db
  {
    hide Vars, Apply, Answers;
    AnswersMeans(atoms, db, b);
    assert VarsBefore(atoms, |atoms|) == VarsIn(all);
    assert forall i | 0 <= i < |atoms| :: atoms[i] in all;
  }

  lemma OrderIsFree(s: seq<Subgoal>, t: seq<Subgoal>, db: set<Triple>, b: Bindings)
    requires multiset(s) == multiset(t)
    ensures Answers(Atoms(s), db, b) <==> Answers(Atoms(t), db, b)
  {
    hide Answers, VarsIn, Apply;
    var all := set g | g in multiset(s) :: g.atom;
    SetOfAtoms(s, all);
    SetOfAtoms(t, all);
    AnswersOfSet(Atoms(s), all, db, b);
    AnswersOfSet(Atoms(t), all, db, b);
  }

  lemma SetOfAtoms(s: seq<Subgoal>, all: set<Triple>)
    requires all == set g | g in multiset(s) :: g.atom
    ensures forall a :: a in Atoms(s) <==> a in all
  {
    forall a | a in Atoms(s) ensures a in all {
      var i :| 0 <= i < |s| && Atoms(s)[i] == a;
      assert s[i] in multiset(s);
    }
    forall g | g in multiset(s) ensures g.atom in Atoms(s) {
      var i :| 0 <= i < |s| && s[i] == g;
      assert Atoms(s)[i] == g.atom;
    }
  }

  /** No variable stands twice inside one subgoal. */
  predicate RepeatFree(spec: seq<Subgoal>) {
    forall g | g in spec :: Repeated(g.atom) == {}
  }

  lemma NoneRepeated(spec: seq<Subgoal>, sorted: seq<Subgoal>)
    requires multiset(spec) == multiset(sorted) && RepeatFree(spec)
    ensures RepeatsAreBound(Atoms(sorted))
  {
    forall i | 0 <= i < |sorted| ensures Repeated(Atoms(sorted)[i]) == {} {
      assert sorted[i] in multiset(spec);
      assert sorted[i] in spec;
    }
  }

  lemma PathsCover(atoms: seq<Triple>, db: set<Triple>, paths: seq<seq<Triple>>, calls: seq<Bindings>)
    requires Constants(db) && Listed(atoms, db, paths, calls)
    ensures atoms != [] ==> forall b :: Answers(atoms, db, b) ==> b in calls
    ensures atoms == [] ==> calls == []
  {
    hide Answers, IsPath, After, PathOf;
    assert paths != [] ==> paths[0] in paths;
    forall b | atoms != [] && Answers(atoms, db, b) ensures b in calls {
      AnswerHasPath(atoms, db, b);
      assert PathOf(atoms, b) in paths;
      var i :| 0 <= i < |paths| && paths[i] == PathOf(atoms, b);
      assert calls[i] == b;
    }
  }

  lemma PathsAreExact(atoms: seq<Triple>, db: set<Triple>, paths: seq<seq<Triple>>, calls: seq<Bindings>)
    requires Constants(db) && Listed(atoms, db, paths, calls) && RepeatsAreBound(atoms)
    ensures NoDup(calls) && forall b :: b in calls ==> Answers(atoms, db, b)
  {
    hide Answers, IsPath, After, PathOf, RepeatsAreBound;
    forall i | 0 <= i < |calls| ensures Answers(atoms, db, calls[i]) && paths[i] == PathOf(atoms, calls[i]) {
      assert paths[i] in paths;
      PathAnswers(atoms, db, paths[i]);
    }
  }

  /** facts_with and every call of facts_with_cursor_next, on positive subgoals. */
  method Join(db: set<Triple>, spec: seq<Subgoal>, usage: map<Symbol, nat>) returns (calls: seq<Bindings>)
    requires Constants(db) && forall g | g in spec :: !g.negated
    ensures spec == [] ==> calls == []
    ensures spec != [] ==> forall b :: Answers(Atoms(spec), db, b) ==> b in calls
    ensures spec != [] && RepeatFree(spec) ==> NoDup(calls) && forall b :: b in calls ==> Answers(Atoms(spec), db, b)
  {
    hide Answers, IsPath, After, Greedy, RepeatsAreBound, Repeated, Constants, PathOf;
    var sorted := new Subgoal[|spec|](i requires 0 <= i < |spec| => spec[i]);
    assert sorted[..] == spec;
    SpecSort(sorted, usage);
    var atoms := Atoms(sorted[..]);
    calls := Enumerate(db, atoms);
    ghost var paths :| Listed(atoms, db, paths, calls);
    forall b ensures Answers(Atoms(spec), db, b) <==> Answers(atoms, db, b) {
      OrderIsFree(spec, sorted[..], db, b);
    }
    PathsCover(atoms, db, paths, calls);
    if RepeatFree(spec) {
      NoneRepeated(spec, sorted[..]);
      PathsAreExact(atoms, db, paths, calls);
    }
  }

  lemma SameLists<T>(a: seq<T>, b: seq<T>)
    requires NoDup(a) && NoDup(b) && forall x :: x in a <==> x in b
    ensures multiset(a) == multiset(b) && |a| == |b|
  {
    CountedOnce(a);
    CountedOnce(b);
    forall x ensures multiset(a)[x] == multiset(b)[x] {
      assert x in a <==> x in multiset(a);
      assert x in b <==> x in multiset(b);
    }
    assert multiset(a) == multiset(b);
    assert |multiset(a)| == |multiset(b)|;
  }

  lemma {:induction false} CountedOnce<T>(s: seq<T>)
    requires NoDup(s)
    ensures forall x | x in s :: multiset(s)[x] == 1
  {
    if s != [] {
      var front, last := s[..|s| - 1], s[|s| - 1];
      CountedOnce(front);
      assert s == front + [last];
      forall x | x in front ensures x in s && x != last {
      }
    }
  }

  /** The two join engines report the same assignments, once each, whatever order each of them tries things in. */
  method BothEngines(db: set<Triple>, spec: seq<Subgoal>, usage: map<Symbol, nat>)
    returns (cursor: seq<Bindings>, solver: seq<Bindings>, solutions: nat)
    requires Constants(db) && RepeatFree(spec) && forall g | g in spec :: !g.negated
    ensures multiset(cursor) == multiset(solver) && |cursor| == solutions
  {
    hide Sat;
    cursor := Join(db, spec, usage);
    var slots := new BindingSlots();
    solutions, solver := SolveMulti(Same(db, |spec|), Atoms(spec), slots);
    assert forall b :: Answers(Atoms(spec), db, b) <==> Sat(Atoms(spec), Same(db, |spec|), 0, map[], b);
    SameLists(cursor, solver);
  }
}
