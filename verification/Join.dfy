/** The iterative backtracking join of lib/facts.c over positive subgoals, and its agreement with the recursive solver. */
module Joins {
  import opened Collections
  import opened Datalog
  import opened Solver

  /** The initialised levels, deepest first: the remaining subgoals after substitution, the current fact and the
      facts the level's cursor has yet to visit. */
  datatype Levels = Bottom | Level(below: Levels, spec: seq<Triple>, fact: Option<Triple>, rest: set<Triple>)

  function Depth(l: Levels): nat {
    if l.Bottom? then 0 else Depth(l.below) + 1
  }

  predicate ConstantFact(f: Triple) {
    !IsVar(f.s) && !IsVar(f.p) && !IsVar(f.o)
  }

  /** No stored symbol starts with '?'. */
  predicate Constants(db: set<Triple>) {
    forall f | f in db :: ConstantFact(f)
  }

  predicate ConstantValues(b: Bindings) {
    OnlyVars(b) && forall x | x in b :: !IsVar(b[x])
  }

  /** A cursor writes the columns that are variables in order, so that the last one wins. */
  function Written(q: Triple, f: Triple, b: Bindings): Bindings {
    BindOne(q.o, f.o, BindOne(q.p, f.p, BindOne(q.s, f.s, b)))
  }

  /** The slots after the first `i` facts of a path. */
  ghost function After(atoms: seq<Triple>, p: seq<Triple>, i: nat): Bindings
    requires i <= |atoms| == |p|
  {
    if i == 0 then map[]
    else var b := After(atoms, p, i - 1); Written(Apply(atoms[i - 1], b), p[i - 1], b)
  }

  /** One fact for each level, each visible to the cursor that the earlier ones open. */
  ghost predicate IsPath(atoms: seq<Triple>, db: set<Triple>, p: seq<Triple>) {
    |p| == |atoms| && forall i | 0 <= i < |p| :: p[i] in CursorFacts(db, Apply(atoms[i], After(atoms, p, i)))
  }

  // ---- the state of the cursor ----

  ghost function Slots(l: Levels): Bindings {
    if l.Bottom? then map[]
    else if l.fact.Some? && l.spec != [] then Written(l.spec[0], l.fact.value, Slots(l.below))
    else Slots(l.below)
  }

  ghost predicate Substituted(spec: seq<Triple>, atoms: seq<Triple>, k: nat, b: Bindings) {
    k + |spec| == |atoms| && forall i | 0 <= i < |spec| :: spec[i] == Apply(atoms[k + i], b)
  }

  ghost predicate Good(l: Levels, atoms: seq<Triple>, db: set<Triple>) {
    l.Level? ==>
      && Good(l.below, atoms, db) && (l.below.Level? ==> l.below.fact.Some?)
      && Depth(l) <= |atoms| && Substituted(l.spec, atoms, Depth(l.below), Slots(l.below))
      && l.rest <= CursorFacts(db, l.spec[0])
      && (l.fact.Some? ==> l.fact.value in CursorFacts(db, l.spec[0]) && l.fact.value !in l.rest)
  }

  ghost predicate Follows(l: Levels, p: seq<Triple>)
    requires Depth(l) <= |p|
  {
    l.Level? ==> Follows(l.below, p) && l.fact == Some(p[Depth(l.below)])
  }

  /** Some open level still has to visit the fact by which `p` leaves the current path. */
  ghost predicate Ahead(l: Levels, p: seq<Triple>)
    requires Depth(l) <= |p|
  {
    l.Level? && (Ahead(l.below, p) || (Follows(l.below, p) && p[Depth(l.below)] in l.rest))
  }

  lemma {:induction false} SlotsConstant(l: Levels, atoms: seq<Triple>, db: set<Triple>)
    requires Good(l, atoms, db) && Constants(db)
    ensures ConstantValues(Slots(l))
  {
    if l.Level? {
      SlotsConstant(l.below, atoms, db);
    }
  }

  /** A path that follows the open levels has filled the slots the same way. */
  lemma {:induction false} FollowsSlots(l: Levels, atoms: seq<Triple>, db: set<Triple>, p: seq<Triple>)
    requires Good(l, atoms, db) && |p| == |atoms| && Depth(l) <= |p| && Follows(l, p)
    ensures After(atoms, p, Depth(l)) == Slots(l)
  {
    if l.Level? {
      FollowsSlots(l.below, atoms, db, p);
      assert l.spec[0] == Apply(atoms[Depth(l.below)], Slots(l.below));
    }
  }

  /** The current path is not visited again. */
  lemma {:induction false} CurrentIsBehind(l: Levels, atoms: seq<Triple>, db: set<Triple>, p: seq<Triple>)
    requires Good(l, atoms, db) && Depth(l) <= |p| && Follows(l, p)
    ensures !Ahead(l, p)
  {
    if l.Level? {
      CurrentIsBehind(l.below, atoms, db, p);
    }
  }

  ghost function Facts(l: Levels): (p: seq<Triple>)
    ensures |p| == Depth(l)
  {
    if l.Bottom? then [] else Facts(l.below) + [if l.fact.Some? then l.fact.value else Triple(Constant(""), Constant(""), Constant(""))]
  }

  lemma {:induction false} FollowsFacts(l: Levels, p: seq<Triple>)
    requires Depth(l) <= |p| && l.Level? && l.fact.Some? && AllFacts(l.below)
    ensures Follows(l, p) <==> p[..Depth(l)] == Facts(l)
  {
    var k := Depth(l.below);
    assert p[..k + 1] == p[..k] + [p[k]];
    if l.below.Level? {
      FollowsFacts(l.below, p);
    }
  }

  ghost predicate AllFacts(l: Levels) {
    l.Level? ==> l.fact.Some? && AllFacts(l.below)
  }

  lemma {:induction false} GoodHasFacts(l: Levels, atoms: seq<Triple>, db: set<Triple>)
    requires Good(l, atoms, db) && (l.Level? ==> l.fact.Some?)
    ensures AllFacts(l)
  {
    if l.Level? {
      GoodHasFacts(l.below, atoms, db);
    }
  }

  lemma {:induction false} FactsArePath(l: Levels, atoms: seq<Triple>, db: set<Triple>, p: seq<Triple>)
    requires Good(l, atoms, db) && |p| == |atoms| && Depth(l) <= |p| && Follows(l, p)
    ensures forall i | 0 <= i < Depth(l) :: p[i] in CursorFacts(db, Apply(atoms[i], After(atoms, p, i)))
  {
    if l.Level? {
      hide CursorFacts, Apply, After, Slots;
      var k := Depth(l.below);
      FactsArePath(l.below, atoms, db, p);
      FollowsSlots(l.below, atoms, db, p);
      assert l.spec[0] == Apply(atoms[k + 0], Slots(l.below));
    }
  }

  // ---- how much work is left ----

  /** The turns of the loop that `r` levels can take. */
  ghost function Turns(size: nat, r: nat): nat {
    if r == 0 then 0 else size * (1 + Turns(size, r - 1)) + 1
  }

  ghost function Owed(l: Levels, size: nat, n: nat): nat
    requires Depth(l) <= n
  {
    if l.Bottom? then 0 else Owed(l.below, size, n) + |l.rest| * (1 + Turns(size, n - Depth(l))) + 1
  }

  lemma Product(a: nat, b: nat, c: nat)
    requires a <= b
    ensures a * c <= b * c
  {
  }

  lemma OneLess(f: Triple, rest: set<Triple>, c: nat)
    requires f in rest
    ensures |rest| * c == |rest - {f}| * c + c
  {
    assert |rest| == |rest - {f}| + 1;
  }

  // ---- substitution ----

  lemma ValueTwice(x: Symbol, b0: Bindings, b: Bindings)
    requires ConstantValues(b0) && ConstantValues(b) && Extends(b0, b)
    ensures Value(Value(x, b0), b) == Value(x, b)
  {
  }

  lemma ApplyTwice(t: Triple, b0: Bindings, b: Bindings)
    requires ConstantValues(b0) && ConstantValues(b) && Extends(b0, b)
    ensures Apply(Apply(t, b0), b) == Apply(t, b)
  {
    ValueTwice(t.s, b0, b);
    ValueTwice(t.p, b0, b);
    ValueTwice(t.o, b0, b);
  }

  /** The variables left in a substituted subgoal have empty slots. */
  lemma Unbound(t: Triple, b: Bindings)
    requires ConstantValues(b)
    ensures Vars(Apply(t, b)) !! b.Keys && Vars(Apply(t, b)) + b.Keys == Vars(t) + b.Keys
  {
  }

  lemma WrittenKeeps(q: Triple, f: Triple, b: Bindings)
    requires Vars(q) !! b.Keys
    ensures Written(q, f, b).Keys == b.Keys + Vars(q) && Extends(b, Written(q, f, b))
    ensures Written(q, f, b) - Vars(q) == b
  {
  }

  /** Writing over the previous fact leaves nothing of it. */
  lemma WrittenOver(q: Triple, f: Triple, g: Triple, b: Bindings)
    ensures Written(q, f, Written(q, g, b)) == Written(q, f, b)
  {
    var b1 := Written(q, g, b);
    assert Written(q, f, b1).Keys == Written(q, f, b).Keys;
  }

  // ---- one turn of the loop, on values ----

  /** The paths still to come when the loop stands at `level`: that level is about to be opened, or to move on. */
  ghost predicate Coming(l: Levels, level: nat, atoms: seq<Triple>, db: set<Triple>, p: seq<Triple>)
    requires Depth(l) <= |atoms|
  {
    |p| == |atoms| && IsPath(atoms, db, p) && (Ahead(l, p) || (level == Depth(l) && Follows(l, p)))
  }

  ghost predicate SameComing(l: Levels, level: nat, l1: Levels, level1: nat, atoms: seq<Triple>, db: set<Triple>)
    requires Depth(l) <= |atoms| && Depth(l1) <= |atoms|
  {
    forall p :: Coming(l, level, atoms, db, p) <==> Coming(l1, level1, atoms, db, p)
  }

  /** Opening a level puts every fact its cursor can visit in front of it. */
  lemma OpenKeeps(l: Levels, atoms: seq<Triple>, db: set<Triple>, spec: seq<Triple>)
    requires Good(l, atoms, db) && Constants(db) && Depth(l) < |atoms| && (l.Level? ==> l.fact.Some?)
    requires |spec| == |atoms| - Depth(l)
    requires forall i | 0 <= i < |spec| :: spec[i] == Apply(if l.Bottom? then atoms[i] else l.spec[i + 1], Slots(l))
    ensures var l1 := Level(l, spec, None, CursorFacts(db, spec[0]));
            && Good(l1, atoms, db) && Slots(l1) == Slots(l)
            && SameComing(l, Depth(l), l1, Depth(l), atoms, db)
            && Owed(l1, |db|, |atoms|) <= Owed(l, |db|, |atoms|) + Turns(|db|, |atoms| - Depth(l))
  {
    hide CursorFacts, Apply, Written, IsPath, Substituted, Owed, SameComing;
    SpecIsSubstituted(l, atoms, db, spec);
    OpenWork(l, |atoms|, db, spec);
    OpenSame(l, atoms, db, spec);
  }

  lemma OpenSame(l: Levels, atoms: seq<Triple>, db: set<Triple>, spec: seq<Triple>)
    requires Good(l, atoms, db) && Depth(l) < |atoms| && spec != [] && Substituted(spec, atoms, Depth(l), Slots(l))
    ensures SameComing(l, Depth(l), Level(l, spec, None, CursorFacts(db, spec[0])), Depth(l), atoms, db)
  {
    hide CursorFacts, Apply, Written, IsPath, Substituted, Slots, Good;
    var l1 := Level(l, spec, None, CursorFacts(db, spec[0]));
    forall p ensures Coming(l, Depth(l), atoms, db, p) <==> Coming(l1, Depth(l), atoms, db, p) {
      if |p| == |atoms| && IsPath(atoms, db, p) && Follows(l, p) { OpenReaches(l, atoms, db, spec, p); }
    }
  }

  lemma OpenReaches(l: Levels, atoms: seq<Triple>, db: set<Triple>, spec: seq<Triple>, p: seq<Triple>)
    requires Good(l, atoms, db) && Depth(l) < |atoms| && Substituted(spec, atoms, Depth(l), Slots(l))
    requires IsPath(atoms, db, p) && Follows(l, p)
    ensures p[Depth(l)] in CursorFacts(db, spec[0])
  {
    hide CursorFacts, Apply, Written, Slots;
    FollowsSlots(l, atoms, db, p);
    assert spec[0] == Apply(atoms[Depth(l) + 0], Slots(l));
  }

  lemma OpenWork(l: Levels, n: nat, db: set<Triple>, spec: seq<Triple>)
    requires Depth(l) < n && spec != []
    ensures Owed(Level(l, spec, None, CursorFacts(db, spec[0])), |db|, n) <= Owed(l, |db|, n) + Turns(|db|, n - Depth(l))
  {
    var rest := CursorFacts(db, spec[0]);
    SubsetSize(rest, db);
    Product(|rest|, |db|, 1 + Turns(|db|, n - Depth(l) - 1));
  }

  lemma SpecIsSubstituted(l: Levels, atoms: seq<Triple>, db: set<Triple>, spec: seq<Triple>)
    requires Good(l, atoms, db) && Constants(db) && Depth(l) < |atoms| && (l.Level? ==> l.fact.Some?)
    requires |spec| == |atoms| - Depth(l)
    requires forall i | 0 <= i < |spec| :: spec[i] == Apply(if l.Bottom? then atoms[i] else l.spec[i + 1], Slots(l))
    ensures Substituted(spec, atoms, Depth(l), Slots(l))
  {
    hide Apply, CursorFacts, Written;
    if l.Level? {
      SlotsConstant(l, atoms, db);
      SlotsConstant(l.below, atoms, db);
      SlotsGrow(l, atoms, db);
      forall i | 0 <= i < |spec| ensures spec[i] == Apply(atoms[Depth(l) + i], Slots(l)) {
        var j := i + 1;
        assert l.spec[j] == Apply(atoms[Depth(l.below) + j], Slots(l.below));
        ApplyTwice(atoms[Depth(l) + i], Slots(l.below), Slots(l));
      }
    }
  }

  /** What a level's own cursor has written, and nothing else, is above the slots of the levels below. */
  lemma SlotsGrow(l: Levels, atoms: seq<Triple>, db: set<Triple>)
    requires Good(l, atoms, db) && Constants(db) && l.Level?
    ensures Vars(l.spec[0]) !! Slots(l.below).Keys && Extends(Slots(l.below), Slots(l))
    ensures Slots(l) - Vars(l.spec[0]) == Slots(l.below)
    ensures l.fact.Some? ==> Slots(l).Keys == Slots(l.below).Keys + Vars(l.spec[0])
  {
    hide Apply, CursorFacts, Written;
    var b := Slots(l.below);
    SlotsConstant(l.below, atoms, db);
    assert l.spec[0] == Apply(atoms[Depth(l.below) + 0], b);
    Unbound(atoms[Depth(l.below)], b);
    if l.fact.Some? {
      WrittenKeeps(l.spec[0], l.fact.value, b);
    } else {
      NoneRemoved(b, Vars(l.spec[0]));
    }
  }

  lemma NoneRemoved(b: Bindings, vars: set<Symbol>)
    requires vars !! b.Keys
    ensures b - vars == b && Extends(b, b)
  {
  }

  /** The top cursor finds `f`: the paths through the other facts stay ahead, those through `f` are entered. */
  lemma FoundKeeps(l: Levels, atoms: seq<Triple>, db: set<Triple>, f: Triple)
    requires Good(l, atoms, db) && l.Level? && f in l.rest
    ensures var l1 := l.(fact := Some(f), rest := l.rest - {f});
            && Good(l1, atoms, db) && SameComing(l, Depth(l) - 1, l1, Depth(l), atoms, db)
            && Slots(l1) == Written(l.spec[0], f, Slots(l))
            && Owed(l1, |db|, |atoms|) + Turns(|db|, |atoms| - Depth(l)) < Owed(l, |db|, |atoms|)
  {
    hide CursorFacts, IsPath, Apply, Written, SameComing, Owed, Turns;
    if l.fact.Some? { WrittenOver(l.spec[0], f, l.fact.value, Slots(l.below)); }
    FoundSame(l, atoms, db, f);
    FoundWork(l, f, |db|, |atoms|);
  }

  lemma FoundSame(l: Levels, atoms: seq<Triple>, db: set<Triple>, f: Triple)
    requires l.Level? && Depth(l) <= |atoms| && f in l.rest
    ensures SameComing(l, Depth(l) - 1, l.(fact := Some(f), rest := l.rest - {f}), Depth(l), atoms, db)
  {
    hide IsPath;
  }

  lemma FoundWork(l: Levels, f: Triple, size: nat, n: nat)
    requires l.Level? && f in l.rest && Depth(l) <= n
    ensures Owed(l.(fact := Some(f), rest := l.rest - {f}), size, n) + Turns(size, n - Depth(l)) < Owed(l, size, n)
  {
    OneLess(f, l.rest, 1 + Turns(size, n - Depth(l)));
  }

  /** The top cursor is exhausted: closing the level loses no path. */
  lemma ClosedKeeps(l: Levels, atoms: seq<Triple>, db: set<Triple>)
    requires Good(l, atoms, db) && Constants(db) && l.Level? && l.rest == {}
    ensures Depth(l.below) > 0 ==> SameComing(l, Depth(l) - 1, l.below, Depth(l.below) - 1, atoms, db)
    ensures Depth(l.below) == 0 ==> forall p :: !Coming(l, 0, atoms, db, p)
    ensures Slots(l) - Vars(l.spec[0]) == Slots(l.below)
    ensures Owed(l.below, |db|, |atoms|) < Owed(l, |db|, |atoms|)
  {
    hide CursorFacts, IsPath, Apply, Written;
    SlotsGrow(l, atoms, db);
    assert |l.rest| * (1 + Turns(|db|, |atoms| - Depth(l))) == 0;
    if Depth(l.below) == 0 {
      assert l.below == Bottom;
      forall p ensures !Coming(l, 0, atoms, db, p) {
        assert |p| == |atoms| ==> !Ahead(l.below, p) && !Ahead(l, p);
      }
    }
  }

  /** All levels hold a fact: that is a path, the slots are those it leaves, and it is the only one that leaves. */
  lemma Complete(l: Levels, atoms: seq<Triple>, db: set<Triple>)
    requires Good(l, atoms, db) && Depth(l) == |atoms| && l.Level? && l.fact.Some?
    ensures Coming(l, Depth(l), atoms, db, Facts(l)) && Slots(l) == After(atoms, Facts(l), |atoms|)
    ensures forall p :: |p| == |atoms| && IsPath(atoms, db, p) && Ahead(l, p) <==> Coming(l, Depth(l), atoms, db, p) && p != Facts(l)
  {
    GoodHasFacts(l, atoms, db);
    forall p | |p| == |atoms| ensures Follows(l, p) <==> p == Facts(l) {
      FollowsFacts(l, p);
      assert p[..|atoms|] == p;
    }
    CurrentIsBehind(l, atoms, db, Facts(l));
    FollowsSlots(l, atoms, db, Facts(l));
    FactsArePath(l, atoms, db, Facts(l));
  }

  // ---- the cursor ----

  class JoinCursor {
    const atoms: seq<Triple>
    const db: set<Triple>
    var count: nat
    var level: nat
    var levels: Levels
    var slots: Bindings

    ghost predicate Valid()
      reads this
    {
      && Constants(db) && Good(levels, atoms, db) && slots == Slots(levels) && Depth(levels) <= |atoms|
      && (levels.Level? ==> levels.fact.Some?)
      && if count == 0 then true
         else count == |atoms| && (level == Depth(levels) || level == Depth(levels) - 1)
    }

    /** The paths that calls to Next have yet to return. */
    ghost predicate Pending(p: seq<Triple>)
      requires Valid()
      reads this
    {
      && count > 0 && |p| == |atoms| && IsPath(atoms, db, p)
      && (Ahead(levels, p) || (level == Depth(levels) < count && Follows(levels, p)))
    }

    /** The path whose facts the levels hold. */
    ghost function Current(): seq<Triple>
      reads this
    {
      Facts(levels)
    }

    ghost function Work(): nat
      requires Valid()
      reads this
    {
      Owed(levels, |db|, |atoms|) + if level == Depth(levels) then Turns(|db|, |atoms| - level) else 0
    }

    /** facts_with: no level is open and every slot is empty. */
    constructor (db: set<Triple>, atoms: seq<Triple>)
      requires Constants(db)
      ensures Valid() && this.atoms == atoms && this.db == db && slots == map[]
      ensures forall p :: Pending(p) <==> atoms != [] && IsPath(atoms, db, p)
    {
      this.db, this.atoms := db, atoms;
      count, level, levels, slots := |atoms|, 0, Bottom, map[];
    }

    /** Opens the next level: what is left of the parent's specification, with the filled slots substituted. */
    method Open()
      requires Valid() && level == Depth(levels) < count
      modifies this
      ensures levels.Level? && levels.below == old(levels) && levels.fact == None
      ensures Good(levels, atoms, db) && slots == old(slots) == Slots(levels)
      ensures count == old(count) && level == old(level)
      ensures SameComing(old(levels), level, levels, level, atoms, db)
      ensures Owed(levels, |db|, |atoms|) <= old(Work())
    {
      hide CursorFacts, Written, IsPath, Coming, Apply;
      var parent, values := if level > 0 then levels.spec[1..] else atoms, slots;
      var spec := seq(|parent|, i requires 0 <= i < |parent| => Apply(parent[i], values));
      OpenKeeps(levels, atoms, db, spec);
      levels := Level(levels, spec, None, CursorFacts(db, spec[0]));
    }

    /** facts_cursor_next on the deepest open level, which is closed when it has nothing left. */
    method Advance() returns (found: bool)
      requires Constants(db) && Good(levels, atoms, db) && slots == Slots(levels) && levels.Level?
      modifies `levels, `slots
      ensures Good(levels, atoms, db) && slots == Slots(levels) && (levels.Level? ==> levels.fact.Some?)
      ensures Depth(levels) == if found then old(Depth(levels)) else old(Depth(levels)) - 1
      ensures found ==> SameComing(old(levels), Depth(levels) - 1, levels, Depth(levels), atoms, db)
      ensures !found && Depth(levels) > 0 ==> SameComing(old(levels), Depth(levels), levels, Depth(levels) - 1, atoms, db)
      ensures !found && Depth(levels) == 0 ==> forall p :: !Coming(old(levels), 0, atoms, db, p)
      ensures Owed(levels, |db|, |atoms|) + (if found then Turns(|db|, |atoms| - Depth(levels)) else 0)
              < old(Owed(levels, |db|, |atoms|))
    {
      hide CursorFacts, IsPath, Coming, BindOne;
      var q := levels.spec[0];
      if levels.rest != {} {
        var f :| f in levels.rest;
        FoundKeeps(levels, atoms, db, f);
        slots := BindOne(q.s, f.s, slots);
        slots := BindOne(q.p, f.p, slots);
        slots := BindOne(q.o, f.o, slots);
        levels := levels.(fact := Some(f), rest := levels.rest - {f});
        found := true;
      } else {
        ClosedKeeps(levels, atoms, db);
        slots := slots - Vars(q);
        levels := levels.below;
        found := false;
      }
    }

    /** One turn of its loop: opens the level if need be, then moves one level up with a fact or down without. */
    method Turn()
      requires Valid() && level < count
      modifies this
      ensures Valid() && count in {0, old(count)}
      ensures count > 0 ==> SameComing(old(levels), old(level), levels, level, atoms, db) && Work() < old(Work())
      ensures count == 0 ==> forall p :: !Coming(old(levels), old(level), atoms, db, p)
    {
      hide CursorFacts, IsPath, Good, Slots, Owed, Turns, Ahead, Follows, Facts, After, Coming;
      if level == Depth(levels) { Open(); }
      var found := Advance();
      if found {
        level := level + 1;
      } else if level > 0 {
        level := level - 1;
      } else {
        count := 0;
      }
    }

    /** facts_with_cursor_next_inner: returns one pending path and leaves exactly the others pending. */
    method Next() returns (ok: bool)
      requires Valid()
      modifies this
      ensures Valid()
      ensures ok ==> (var p := Current(); old(Pending(p))) && slots == After(atoms, Current(), |atoms|)
      ensures ok ==> forall p :: Pending(p) <==> old(Pending(p)) && p != Current()
      ensures ok ==> Work() < old(Work())
      ensures !ok ==> forall p :: !old(Pending(p)) && !Pending(p)
    {
      hide CursorFacts, IsPath, Good, Slots, Owed, Turns, Ahead, Follows, Facts, After;
      ok := false;
      if count == 0 { return; }
      if level == count {
        assert forall p :: Coming(levels, level - 1, atoms, db, p) <==> Pending(p);
        var found := Advance();
        if found {
          Complete(levels, atoms, db);
          return true;
        }
        level := level - 1;
        if level == 0 {
          count := 0;
          return;
        }
        level := level - 1;
      }
      while level < count
        invariant Valid() && count == old(count) > 0
        invariant forall p :: Coming(levels, level, atoms, db, p) <==> old(Pending(p))
        invariant Work() <= old(Work()) && (level == count ==> Work() < old(Work()))
        decreases Work()
      {
        Turn();
        if count == 0 { return; }
      }
      Complete(levels, atoms, db);
      ok := true;
    }
  }
}
