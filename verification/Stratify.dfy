/** Stratification by in-place propagation (datalog_program_stratify in lib/rule.c). */
module Stratify {
  import opened Collections
  import opened Datalog

  /** A dependency from a body predicate to a head predicate. */
  datatype Edge = Edge(from: Symbol, to: Symbol, neg: bool)

  function EdgeAt(prog: Program, r: nat, j: nat): Edge
    requires r < |prog| && j < |prog[r].body|
  {
    Edge(prog[r].body[j].atom.p, prog[r].head.p, prog[r].body[j].negated)
  }

  /** Variable predicates have no index and are skipped. */
  ghost predicate IsEdge(prog: Program, e: Edge) {
    !IsVar(e.from) && !IsVar(e.to) &&
    exists r, j :: 0 <= r < |prog| && 0 <= j < |prog[r].body| && EdgeAt(prog, r, j) == e
  }

  function Weight(e: Edge): nat {
    if e.neg then 1 else 0
  }

  /** A path of dependencies, longest prefix first. */
  datatype Walk = At(p: Symbol) | Step(prev: Walk, e: Edge)

  ghost predicate IsWalk(prog: Program, w: Walk) {
    w.Step? ==> IsWalk(prog, w.prev) && IsEdge(prog, w.e) && Last(w.prev) == w.e.from
  }

  ghost function First(w: Walk): Symbol {
    match w case At(p) => p case Step(prev, _) => First(prev)
  }

  ghost function Last(w: Walk): Symbol {
    match w case At(p) => p case Step(_, e) => e.to
  }

  ghost function Len(w: Walk): nat {
    match w case At(_) => 0 case Step(prev, _) => Len(prev) + 1
  }

  ghost function NegCount(w: Walk): nat {
    match w case At(_) => 0 case Step(prev, e) => NegCount(prev) + Weight(e)
  }

  ghost function Join(a: Walk, b: Walk): Walk {
    match b case At(_) => a case Step(prev, e) => Step(Join(a, prev), e)
  }

  /** The first `i` edges, and what follows them. */
  ghost function Prefix(w: Walk, i: nat): Walk
    requires i <= Len(w)
  {
    if i == Len(w) then w else Prefix(w.prev, i)
  }

  ghost function Suffix(w: Walk, i: nat): Walk
    requires i <= Len(w)
  {
    if i == Len(w) then At(Last(w)) else Step(Suffix(w.prev, i), w.e)
  }

  /** A cycle through a negated edge. */
  ghost predicate NegCycle(prog: Program) {
    exists w: Walk :: IsWalk(prog, w) && w.Step? && First(w) == Last(w) && NegCount(w) > 0
  }

  ghost predicate LevelsOk(prog: Program, level: map<Symbol, nat>) {
    forall e | IsEdge(prog, e) :: e.from in level && e.to in level && level[e.to] >= level[e.from] + Weight(e)
  }

  /** `level` is the pointwise least assignment: no constraint-respecting one is smaller anywhere. */
  ghost predicate LeastLevels(prog: Program, level: map<Symbol, nat>) {
    && LevelsOk(prog, level)
    && forall other: map<Symbol, nat>, p | LevelsOk(prog, other) && p in level && p in other :: level[p] <= other[p]
  }

  lemma {:induction false} JoinFacts(prog: Program, a: Walk, b: Walk)
    requires IsWalk(prog, a) && IsWalk(prog, b) && Last(a) == First(b)
    ensures var w := Join(a, b);
            && IsWalk(prog, w) && First(w) == First(a) && Last(w) == Last(b)
            && Len(w) == Len(a) + Len(b) && NegCount(w) == NegCount(a) + NegCount(b)
  {
    if b.Step? { JoinFacts(prog, a, b.prev); }
  }

  lemma {:induction false} SplitFacts(prog: Program, w: Walk, i: nat)
    requires IsWalk(prog, w) && i <= Len(w)
    ensures var (a, b) := (Prefix(w, i), Suffix(w, i));
            && IsWalk(prog, a) && IsWalk(prog, b) && Last(a) == First(b) && Last(b) == Last(w)
            && Len(a) == i && Len(b) == Len(w) - i && NegCount(a) + NegCount(b) == NegCount(w)
  {
    if i < Len(w) { SplitFacts(prog, w.prev, i); }
  }

  /** Along a walk the levels rise by at least the number of negated edges. */
  lemma {:induction false} WalkRises(prog: Program, level: map<Symbol, nat>, w: Walk)
    requires LevelsOk(prog, level) && IsWalk(prog, w) && w.Step?
    ensures First(w) in level && Last(w) in level && level[Last(w)] >= level[First(w)] + NegCount(w)
  {
    if w.prev.Step? { WalkRises(prog, level, w.prev); }
  }

  lemma StableHasNoNegCycle(prog: Program, level: map<Symbol, nat>)
    requires LevelsOk(prog, level)
    ensures !NegCycle(prog)
  {
    if w: Walk :| IsWalk(prog, w) && w.Step? && First(w) == Last(w) && NegCount(w) > 0 {
      WalkRises(prog, level, w);
    }
  }

  lemma {:induction false} Distinct(s: seq<Symbol>)
    requires NoDup(s)
    ensures |set x | x in s| == |s|
  {
    if s != [] {
      var t := s[..|s| - 1];
      Distinct(t);
      assert (set x | x in s) == (set x | x in t) + {s[|s| - 1]};
    }
  }

  /** More positions than values: two positions agree. */
  lemma Pigeonhole(s: seq<Symbol>, values: seq<Symbol>) returns (i: nat, j: nat)
    requires |s| > |values| && forall x | x in s :: x in values
    ensures i < j < |s| && s[i] == s[j]
  {
    if NoDup(s) {
      Distinct(s);
      var u := set x | x in s;
      var v := set x | x in values;
      SubsetSize(u, v);
      ValuesSize(values);
      assert false;
    }
    i, j :| 0 <= i < j < |s| && s[i] == s[j];
  }

  lemma {:induction false} ValuesSize(s: seq<Symbol>)
    ensures |set x | x in s| <= |s|
  {
    if s != [] {
      ValuesSize(s[1..]);
      assert (set x | x in s) == (set x | x in s[1..]) + {s[0]};
    }
  }

  ghost predicate AllPreds(prog: Program, preds: seq<Symbol>) {
    forall e | IsEdge(prog, e) :: e.from in preds && e.to in preds
  }

  lemma {:induction false} VerticesKnown(prog: Program, preds: seq<Symbol>, w: Walk)
    requires AllPreds(prog, preds) && IsWalk(prog, w) && w.Step?
    ensures First(w) in preds && Last(w) in preds
  {
    if w.prev.Step? { VerticesKnown(prog, preds, w.prev); }
  }

  lemma RepeatedVertex(prog: Program, preds: seq<Symbol>, w: Walk) returns (i: nat, j: nat)
    requires AllPreds(prog, preds) && IsWalk(prog, w) && Len(w) > |preds|
    ensures i < j <= Len(w) && Last(Prefix(w, i)) == Last(Prefix(w, j))
  {
    var vertices := seq(Len(w) + 1, i requires 0 <= i <= Len(w) => Last(Prefix(w, i)));
    forall x | x in vertices ensures x in preds {
      var i :| 0 <= i <= Len(w) && x == vertices[i];
      SplitFacts(prog, w, i);
      if i > 0 {
        VerticesKnown(prog, preds, Prefix(w, i));
      } else {
        VerticesKnown(prog, preds, Suffix(w, 0));
      }
    }
    i, j := Pigeonhole(vertices, preds);
  }

  /** Cutting cycles out of a walk keeps its negation count, unless one of them is a negative cycle. */
  lemma {:induction false} ShortWalk(prog: Program, preds: seq<Symbol>, w: Walk) returns (v: Walk)
    requires AllPreds(prog, preds) && IsWalk(prog, w) && !NegCycle(prog)
    ensures IsWalk(prog, v) && Last(v) == Last(w) && NegCount(v) == NegCount(w) && Len(v) <= |preds|
    decreases Len(w)
  {
    if Len(w) <= |preds| { return w; }
    var i, j := RepeatedVertex(prog, preds, w);
    SplitFacts(prog, w, j);
    var front, b := Prefix(w, j), Suffix(w, j);
    SplitFacts(prog, front, i);
    var a, loop := Prefix(front, i), Suffix(front, i);
    SamePrefix(w, i, j);
    assert First(loop) == Last(loop) && loop.Step?;
    assert NegCount(loop) == 0;
    JoinFacts(prog, a, b);
    v := ShortWalk(prog, preds, Join(a, b));
  }

  lemma {:induction false} SamePrefix(w: Walk, i: nat, j: nat)
    requires i <= j <= Len(w)
    ensures Len(Prefix(w, j)) == j && Prefix(Prefix(w, j), i) == Prefix(w, i)
  {
    if j < Len(w) { SamePrefix(w.prev, i, j); }
  }

  /** The preds list, in the order of first occurrence. */
  function IndexOf(preds: seq<Symbol>, p: Symbol): (i: int)
    ensures i == -1 || (0 <= i < |preds| && preds[i] == p)
    ensures p in preds ==> i >= 0
  {
    if preds == [] then -1
    else if preds[0] == p then 0
    else var i := IndexOf(preds[1..], p); if i == -1 then -1 else i + 1
  }

  method AddPred(preds: seq<Symbol>, p: Symbol) returns (more: seq<Symbol>)
    requires NoDup(preds)
    ensures NoDup(more) && preds <= more && (!IsVar(p) ==> p in more)
    ensures forall x | x in more :: x in preds || (x == p && !IsVar(x))
  {
    more := if IsVar(p) || p in preds then preds else preds + [p];
  }

  ghost predicate Occurs(prog: Program, n: nat, x: Symbol) {
    exists r :: 0 <= r < n && r < |prog| &&
      (prog[r].head.p == x || exists j :: 0 <= j < |prog[r].body| && prog[r].body[j].atom.p == x)
  }

  method CollectPreds(prog: Program) returns (preds: seq<Symbol>)
    ensures NoDup(preds)
    ensures forall x :: x in preds <==> !IsVar(x) && Occurs(prog, |prog|, x)
  {
    preds := [];
    for r := 0 to |prog|
      invariant NoDup(preds)
      invariant forall x :: x in preds <==> !IsVar(x) && Occurs(prog, r, x)
    {
      ghost var before := preds;
      preds := AddPred(preds, prog[r].head.p);
      for j := 0 to |prog[r].body|
        invariant NoDup(preds)
        invariant forall x | x in before || (x == prog[r].head.p && !IsVar(x)) :: x in preds
        invariant forall i | 0 <= i < j && !IsVar(prog[r].body[i].atom.p) :: prog[r].body[i].atom.p in preds
        invariant forall x | x in preds :: !IsVar(x) && Occurs(prog, r + 1, x)
      {
        preds := AddPred(preds, prog[r].body[j].atom.p);
      }
    }
  }

  ghost predicate Monotone(before: seq<nat>, after: seq<nat>) {
    |before| == |after| && forall i | 0 <= i < |before| :: before[i] <= after[i]
  }

  ghost predicate Relaxed(preds: seq<Symbol>, before: seq<nat>, after: seq<nat>, e: Edge)
    requires |before| == |after| == |preds|
  {
    var (head, sub) := (IndexOf(preds, e.to), IndexOf(preds, e.from));
    head >= 0 && sub >= 0 ==> after[head] >= before[sub] + Weight(e)
  }

  /** Each stratum is the number of negated edges of some walk that ends at the predicate. */
  ghost predicate Witnessed(prog: Program, preds: seq<Symbol>, stratum: seq<nat>, walks: seq<Walk>) {
    && |stratum| == |walks| == |preds|
    && forall i | 0 <= i < |preds| ::
         IsWalk(prog, walks[i]) && Last(walks[i]) == preds[i] && NegCount(walks[i]) == stratum[i]
  }

  method RelaxEdge(prog: Program, preds: seq<Symbol>, r: nat, j: nat, stratum: array<nat>, ghost walks: seq<Walk>)
    returns (changed: bool, ghost after: seq<Walk>)
    requires r < |prog| && j < |prog[r].body| && stratum.Length == |preds| && Witnessed(prog, preds, stratum[..], walks)
    requires forall x | x in preds :: !IsVar(x)
    modifies stratum
    ensures Witnessed(prog, preds, stratum[..], after) && Monotone(old(stratum[..]), stratum[..])
    ensures Relaxed(preds, old(stratum[..]), stratum[..], EdgeAt(prog, r, j))
    ensures changed == (stratum[..] != old(stratum[..]))
  {
    changed, after := false, walks;
    var head, sub := IndexOf(preds, prog[r].head.p), IndexOf(preds, prog[r].body[j].atom.p);
    if head < 0 || sub < 0 { return; }
    ghost var before := stratum[..];
    if !prog[r].body[j].negated {
      if stratum[head] < stratum[sub] {
        stratum[head] := stratum[sub];
        changed := true;
      }
    } else {
      if stratum[head] <= stratum[sub] {
        stratum[head] := stratum[sub] + 1;
        changed := true;
      }
    }
    if changed {
      after := ExtendWalk(prog, preds, before, walks, EdgeAt(prog, r, j), head, sub);
      assert stratum[..] == before[head := stratum[head]] && stratum[head] != before[head];
    }
  }

  lemma ExtendWalk(prog: Program, preds: seq<Symbol>, stratum: seq<nat>, walks: seq<Walk>, e: Edge,
                   head: nat, sub: nat) returns (after: seq<Walk>)
    requires Witnessed(prog, preds, stratum, walks) && IsEdge(prog, e)
    requires head < |preds| && sub < |preds| && preds[head] == e.to && preds[sub] == e.from
    ensures Witnessed(prog, preds, stratum[head := stratum[sub] + Weight(e)], after)
  {
    after := walks[head := Step(walks[sub], e)];
  }

  lemma RelaxedLater(preds: seq<Symbol>, s0: seq<nat>, s1: seq<nat>, s2: seq<nat>, s3: seq<nat>, e: Edge)
    requires |preds| == |s0| && Monotone(s0, s1) && Monotone(s1, s2) && Monotone(s2, s3) && Relaxed(preds, s1, s2, e)
    ensures Relaxed(preds, s0, s3, e) && Monotone(s0, s3)
  {
  }

  method RelaxRule(prog: Program, preds: seq<Symbol>, r: nat, stratum: array<nat>, ghost walks: seq<Walk>)
    returns (changed: bool, ghost after: seq<Walk>)
    requires r < |prog| && stratum.Length == |preds| && Witnessed(prog, preds, stratum[..], walks)
    requires forall x | x in preds :: !IsVar(x)
    modifies stratum
    ensures Witnessed(prog, preds, stratum[..], after) && Monotone(old(stratum[..]), stratum[..])
    ensures forall j | 0 <= j < |prog[r].body| :: Relaxed(preds, old(stratum[..]), stratum[..], EdgeAt(prog, r, j))
    ensures changed == (stratum[..] != old(stratum[..]))
  {
    changed, after := false, walks;
    ghost var start := stratum[..];
    for j := 0 to |prog[r].body|
      invariant Witnessed(prog, preds, stratum[..], after) && Monotone(start, stratum[..])
      invariant forall i | 0 <= i < j :: Relaxed(preds, start, stratum[..], EdgeAt(prog, r, i))
      invariant changed == (stratum[..] != start)
    {
      ghost var before := stratum[..];
      var c;
      c, after := RelaxEdge(prog, preds, r, j, stratum, after);
      changed := changed || c;
      RelaxedLater(preds, start, before, stratum[..], stratum[..], EdgeAt(prog, r, j));
      forall i | 0 <= i < j ensures Relaxed(preds, start, stratum[..], EdgeAt(prog, r, i)) {
        RelaxedLater(preds, start, start, before, stratum[..], EdgeAt(prog, r, i));
      }
      assert changed == (stratum[..] != start) by { MonotoneChange(start, before, stratum[..]); }
    }
  }

  lemma MonotoneChange(s0: seq<nat>, s1: seq<nat>, s2: seq<nat>)
    requires Monotone(s0, s1) && Monotone(s1, s2)
    ensures (s0 != s2) == (s0 != s1 || s1 != s2)
  {
    if s0 == s2 {
      assert forall i | 0 <= i < |s0| :: s0[i] == s1[i];
    }
  }

  ghost predicate AllRelaxed(prog: Program, preds: seq<Symbol>, before: seq<nat>, after: seq<nat>, n: nat)
    requires n <= |prog| && |before| == |after| == |preds|
  {
    forall r, j | 0 <= r < n && 0 <= j < |prog[r].body| :: Relaxed(preds, before, after, EdgeAt(prog, r, j))
  }

  /** One pass over every rule and subgoal. */
  method Pass(prog: Program, preds: seq<Symbol>, stratum: array<nat>, ghost walks: seq<Walk>)
    returns (changed: bool, ghost after: seq<Walk>)
    requires stratum.Length == |preds| && Witnessed(prog, preds, stratum[..], walks)
    requires forall x | x in preds :: !IsVar(x)
    modifies stratum
    ensures Witnessed(prog, preds, stratum[..], after) && Monotone(old(stratum[..]), stratum[..])
    ensures AllRelaxed(prog, preds, old(stratum[..]), stratum[..], |prog|)
    ensures changed == (stratum[..] != old(stratum[..]))
  {
    changed, after := false, walks;
    ghost var start := stratum[..];
    for r := 0 to |prog|
      invariant Witnessed(prog, preds, stratum[..], after) && Monotone(start, stratum[..])
      invariant AllRelaxed(prog, preds, start, stratum[..], r)
      invariant changed == (stratum[..] != start)
    {
      ghost var before := stratum[..];
      var c;
      c, after := RelaxRule(prog, preds, r, stratum, after);
      changed := changed || c;
      forall q, j | 0 <= q <= r && 0 <= j < |prog[q].body|
        ensures Relaxed(preds, start, stratum[..], EdgeAt(prog, q, j))
      {
        if q == r {
          RelaxedLater(preds, start, before, stratum[..], stratum[..], EdgeAt(prog, q, j));
        } else {
          RelaxedLater(preds, start, start, before, stratum[..], EdgeAt(prog, q, j));
        }
      }
      MonotoneChange(start, before, stratum[..]);
    }
  }

  /** After k passes no walk of at most k edges outweighs its end. */
  ghost predicate Covers(prog: Program, preds: seq<Symbol>, stratum: seq<nat>, k: nat)
    requires |stratum| == |preds|
  {
    forall w, i | IsWalk(prog, w) && Len(w) <= k && 0 <= i < |preds| && Last(w) == preds[i] :: NegCount(w) <= stratum[i]
  }

  lemma CoversNextWalk(prog: Program, preds: seq<Symbol>, before: seq<nat>, after: seq<nat>, k: nat, w: Walk, i: nat)
    requires |before| == |after| == |preds| && NoDup(preds) && AllPreds(prog, preds)
    requires Covers(prog, preds, before, k) && AllRelaxed(prog, preds, before, after, |prog|)
    requires IsWalk(prog, w) && w.Step? && Len(w) <= k + 1 && i < |preds| && Last(w) == preds[i]
    ensures NegCount(w) <= after[i]
  {
    var e := w.e;
    var r, j :| 0 <= r < |prog| && 0 <= j < |prog[r].body| && EdgeAt(prog, r, j) == e;
    assert Relaxed(preds, before, after, EdgeAt(prog, r, j));
    var sub := IndexOf(preds, e.from);
    assert IndexOf(preds, e.to) == i;
    assert Last(w.prev) == preds[sub] && NegCount(w.prev) <= before[sub];
  }

  lemma CoversNext(prog: Program, preds: seq<Symbol>, before: seq<nat>, after: seq<nat>, k: nat)
    requires |before| == |after| == |preds| && NoDup(preds) && AllPreds(prog, preds)
    requires Covers(prog, preds, before, k) && AllRelaxed(prog, preds, before, after, |prog|)
    ensures Covers(prog, preds, after, k + 1)
  {
    forall w, i | IsWalk(prog, w) && Len(w) <= k + 1 && 0 <= i < |preds| && Last(w) == preds[i]
      ensures NegCount(w) <= after[i]
    {
      if w.Step? { CoversNextWalk(prog, preds, before, after, k, w, i); }
    }
  }

  ghost function LevelMap(preds: seq<Symbol>, stratum: seq<nat>): map<Symbol, nat>
    requires |stratum| == |preds|
  {
    map p | p in preds :: var i := IndexOf(preds, p); stratum[i]
  }

  lemma StableLevels(prog: Program, preds: seq<Symbol>, stratum: seq<nat>, walks: seq<Walk>)
    requires NoDup(preds) && AllPreds(prog, preds) && Witnessed(prog, preds, stratum, walks)
    requires AllRelaxed(prog, preds, stratum, stratum, |prog|)
    ensures LeastLevels(prog, LevelMap(preds, stratum))
  {
    var level := LevelMap(preds, stratum);
    forall e | IsEdge(prog, e)
      ensures e.from in level && e.to in level && level[e.to] >= level[e.from] + Weight(e)
    {
      var r, j :| 0 <= r < |prog| && 0 <= j < |prog[r].body| && EdgeAt(prog, r, j) == e;
      assert Relaxed(preds, stratum, stratum, EdgeAt(prog, r, j));
    }
    forall other: map<Symbol, nat>, p | LevelsOk(prog, other) && p in level && p in other
      ensures level[p] <= other[p]
    {
      var w := walks[IndexOf(preds, p)];
      if w.Step? {
        WalkRises(prog, other, w);
      }
    }
  }

  /** A value that rises in pass |preds| + 1 has a walk no short walk can explain. */
  lemma LateChange(prog: Program, preds: seq<Symbol>, before: seq<nat>, after: seq<nat>, walks: seq<Walk>)
    requires |before| == |after| == |preds| && AllPreds(prog, preds) && Monotone(before, after) && before != after
    requires Covers(prog, preds, before, |preds|) && Witnessed(prog, preds, after, walks)
    ensures NegCycle(prog)
  {
    var i :| 0 <= i < |preds| && before[i] < after[i];
    if !NegCycle(prog) {
      var v := ShortWalk(prog, preds, walks[i]);
      assert false;
    }
  }

  datatype Strata = Strata(rules: seq<nat>, count: nat)

  function RuleLevel(prog: Program, level: map<Symbol, nat>, r: nat): nat
    requires r < |prog|
  {
    if prog[r].head.p in level then level[prog[r].head.p] else 0
  }

  /** `s` gives each rule the level of its head and counts one more than the largest. */
  ghost predicate StrataOf(prog: Program, level: map<Symbol, nat>, s: Strata) {
    && |s.rules| == |prog|
    && (forall r | 0 <= r < |prog| :: s.rules[r] == RuleLevel(prog, level, r) && s.rules[r] < s.count)
    && (s.count == 1 || exists r :: 0 <= r < |prog| && s.rules[r] + 1 == s.count)
  }

  method AssignRules(prog: Program, preds: seq<Symbol>, stratum: array<nat>) returns (s: Strata)
    requires stratum.Length == |preds|
    ensures StrataOf(prog, LevelMap(preds, stratum[..]), s)
  {
    var rules: seq<nat>, highest: nat := [], 0;
    for r := 0 to |prog|
      invariant |rules| == r
      invariant forall i | 0 <= i < r :: rules[i] == RuleLevel(prog, LevelMap(preds, stratum[..]), i) <= highest
      invariant highest == 0 || exists i :: 0 <= i < r && rules[i] == highest
    {
      var head := IndexOf(preds, prog[r].head.p);
      var level := if head >= 0 then stratum[head] else 0;
      ghost var before := rules;
      rules := rules + [level];
      assert forall i | 0 <= i < r :: rules[i] == before[i];
      if level > highest {
        highest := level;
        assert rules[r] == highest;
      }
    }
    s := Strata(rules, highest + 1);
  }

  ghost predicate HasConstantPredicate(prog: Program) {
    exists x :: !IsVar(x) && Occurs(prog, |prog|, x)
  }

  lemma PredsAreAll(prog: Program, preds: seq<Symbol>)
    requires forall x :: x in preds <==> !IsVar(x) && Occurs(prog, |prog|, x)
    ensures AllPreds(prog, preds)
  {
    forall e | IsEdge(prog, e) ensures e.from in preds && e.to in preds {
      var r, j :| 0 <= r < |prog| && 0 <= j < |prog[r].body| && EdgeAt(prog, r, j) == e;
    }
  }

  /** The passes of the propagation loop: stable at the least levels, or a cycle through a negated edge. */
  method Propagate(prog: Program, preds: seq<Symbol>, stratum: array<nat>) returns (changed: bool)
    requires NoDup(preds) && AllPreds(prog, preds) && (forall x | x in preds :: !IsVar(x))
    requires stratum.Length == |preds| && forall i | 0 <= i < |preds| :: stratum[i] == 0
    modifies stratum
    ensures changed ==> NegCycle(prog)
    ensures !changed ==> LeastLevels(prog, LevelMap(preds, stratum[..]))
  {
    changed := false;
    ghost var walks: seq<Walk> := seq(|preds|, i requires 0 <= i < |preds| => At(preds[i]));
    var iter := 0;
    assert Covers(prog, preds, stratum[..], 0);
    while iter <= |preds|
      invariant 0 <= iter <= |preds| + 1 && Witnessed(prog, preds, stratum[..], walks)
      invariant Covers(prog, preds, stratum[..], iter)
      invariant iter == |preds| + 1 ==> changed && NegCycle(prog)
    {
      ghost var before := stratum[..];
      changed, walks := Pass(prog, preds, stratum, walks);
      CoversNext(prog, preds, before, stratum[..], iter);
      if !changed {
        StableLevels(prog, preds, stratum[..], walks);
        return;
      }
      if iter == |preds| {
        LateChange(prog, preds, before, stratum[..], walks);
      }
      iter := iter + 1;
    }
  }

  /** datalog_program_stratify: the least strata, or none exactly when negation is part of a cycle. */
  method Stratify(prog: Program) returns (result: Option<Strata>, ghost level: map<Symbol, nat>)
    ensures result.None? <==> !HasConstantPredicate(prog) || NegCycle(prog)
    ensures result.Some? ==> LeastLevels(prog, level) && StrataOf(prog, level, result.value)
    ensures result.Some? ==> forall x :: x in level <==> !IsVar(x) && Occurs(prog, |prog|, x)
  {
    level := map[];
    if prog == [] { return None, level; }
    var preds := CollectPreds(prog);
    if preds == [] { return None, level; }
    assert HasConstantPredicate(prog) by { assert preds[0] in preds; }
    PredsAreAll(prog, preds);
    var stratum := new nat[|preds|](i => 0);
    var changed := Propagate(prog, preds, stratum);
    if changed { return None, level; }
    level := LevelMap(preds, stratum[..]);
    StableHasNoNegCycle(prog, level);
    var s := AssignRules(prog, preds, stratum);
    result := Some(s);
  }

  /** Positive dependencies do not lower the stratum and negated ones raise it. */
  lemma StratifiedRules(prog: Program, level: map<Symbol, nat>, s: Strata, q: nat, r: nat, j: nat)
    requires LeastLevels(prog, level) && StrataOf(prog, level, s)
    requires q < |prog| && r < |prog| && j < |prog[r].body| && prog[r].body[j].atom.p == prog[q].head.p
    requires !IsVar(prog[r].head.p) && !IsVar(prog[q].head.p)
    ensures s.rules[q] <= s.rules[r] && (prog[r].body[j].negated ==> s.rules[q] < s.rules[r])
  {
    assert IsEdge(prog, EdgeAt(prog, r, j));
  }

  lemma {:induction false} NoNegativeWalk(prog: Program, w: Walk)
    requires !Negated(prog) && IsWalk(prog, w)
    ensures NegCount(w) == 0
  {
    if w.Step? { NoNegativeWalk(prog, w.prev); }
  }

  lemma NoNegCycle(prog: Program)
    requires !Negated(prog)
    ensures !NegCycle(prog)
  {
    if w: Walk :| IsWalk(prog, w) && w.Step? && First(w) == Last(w) && NegCount(w) > 0 {
      NoNegativeWalk(prog, w);
    }
  }

  /** A program without negation has one stratum. */
  lemma OneStratum(prog: Program, level: map<Symbol, nat>, s: Strata)
    requires LeastLevels(prog, level) && StrataOf(prog, level, s) && !Negated(prog)
    ensures s.count == 1 && forall r | 0 <= r < |prog| :: s.rules[r] == 0
  {
    var zero := map p | p in level :: 0 as nat;
    forall e | IsEdge(prog, e) ensures e.from in zero && e.to in zero && zero[e.to] >= zero[e.from] + Weight(e) {
      assert e.from in level && e.to in level;
    }
    assert LevelsOk(prog, zero);
  }
}
