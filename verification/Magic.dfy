/** The magic-sets rewrite (lib/magic.c). */
module Magic {
  import opened Collections
  import opened Datalog
  import opened JustificationGraphs

  /** Which of a predicate's two arguments are bound: "bb", "bf", "fb" or "ff". */
  datatype Adornment = Adornment(s: bool, o: bool)
  datatype Adorned = Adorned(name: string, ad: Adornment)

  const FREE := Adornment(false, false)

  function Text(ad: Adornment): string {
    [if ad.s then 'b' else 'f', if ad.o then 'b' else 'f']
  }

  /** format_name without and with the "magic_" prefix. */
  function AdornedName(a: Adorned): string {
    a.name + "_" + Text(a.ad)
  }

  function MagicName(a: Adorned): string {
    "magic_" + AdornedName(a)
  }

  function Entry(p: Symbol, ad: Adornment): Adorned {
    Adorned(p.name, ad)
  }

  // ---- what the rewrite produces ----

  function EndVars(t: Triple): set<Symbol> {
    VarOf(t.s) + VarOf(t.o)
  }

  /** The variables bound on entry to subgoal `n`: the head's bound arguments and all earlier subgoals. */
  function BoundBefore(r: Rule, ad: Adornment, n: nat): set<Symbol>
    requires n <= |r.body|
  {
    if n == 0 then (if ad.s then VarOf(r.head.s) else {}) + (if ad.o then VarOf(r.head.o) else {})
    else BoundBefore(r, ad, n - 1) + EndVars(r.body[n - 1].atom)
  }

  predicate IsBound(t: Symbol, bound: set<Symbol>) {
    !IsVar(t) || t in bound
  }

  function SubAd(r: Rule, ad: Adornment, j: nat): Adornment
    requires j < |r.body|
  {
    var bound := BoundBefore(r, ad, j);
    Adornment(IsBound(r.body[j].atom.s, bound), IsBound(r.body[j].atom.o, bound))
  }

  // ---- what being bound means ----

  function RuleVars(r: Rule): set<Symbol> {
    EndVars(r.head) + set j, x | 0 <= j < |r.body| && x in EndVars(r.body[j].atom) :: x
  }

  /** Constants for the rule's variables. */
  predicate Grounding(r: Rule, b: Bindings) {
    b.Keys == RuleVars(r) && forall x | x in b :: !IsVar(b[x])
  }

  /** They agree on the head's bound arguments and on the arguments of the subgoals before `n`. */
  predicate AgreeBefore(r: Rule, ad: Adornment, n: nat, b: Bindings, c: Bindings)
    requires n <= |r.body|
  {
    && (ad.s ==> Value(r.head.s, b) == Value(r.head.s, c)) && (ad.o ==> Value(r.head.o, b) == Value(r.head.o, c))
    && forall k | 0 <= k < n ::
         Value(r.body[k].atom.s, b) == Value(r.body[k].atom.s, c) && Value(r.body[k].atom.o, b) == Value(r.body[k].atom.o, c)
  }

  /** The value of the term is known on entry to subgoal `n`: the head's bound arguments and the subgoals before it leave
      no choice. */
  ghost predicate Determined(r: Rule, ad: Adornment, n: nat, t: Symbol)
    requires n <= |r.body|
  {
    forall b, c | Grounding(r, b) && Grounding(r, c) && AgreeBefore(r, ad, n, b, c) :: Value(t, b) == Value(t, c)
  }

  lemma {:induction false} BoundAgrees(r: Rule, ad: Adornment, n: nat, b: Bindings, c: Bindings, x: Symbol)
    requires n <= |r.body| && AgreeBefore(r, ad, n, b, c) && x in BoundBefore(r, ad, n)
    ensures Value(x, b) == Value(x, c)
  {
    if n > 0 && x in BoundBefore(r, ad, n - 1) { BoundAgrees(r, ad, n - 1, b, c, x); }
  }

  lemma {:induction false} UnboundIsElsewhere(r: Rule, ad: Adornment, n: nat, x: Symbol)
    requires n <= |r.body| && IsVar(x) && x !in BoundBefore(r, ad, n)
    ensures (ad.s ==> r.head.s != x) && (ad.o ==> r.head.o != x)
    ensures forall k | 0 <= k < n :: r.body[k].atom.s != x && r.body[k].atom.o != x
  {
    if n > 0 { UnboundIsElsewhere(r, ad, n - 1, x); }
  }

  /** A term is bound exactly when its value is determined. */
  lemma BoundIsDetermined(r: Rule, ad: Adornment, n: nat, t: Symbol)
    requires n <= |r.body| && (IsVar(t) ==> t in RuleVars(r))
    ensures IsBound(t, BoundBefore(r, ad, n)) <==> Determined(r, ad, n, t)
  {
    hide BoundBefore;
    if IsBound(t, BoundBefore(r, ad, n)) {
      forall b, c | Grounding(r, b) && Grounding(r, c) && AgreeBefore(r, ad, n, b, c) ensures Value(t, b) == Value(t, c) {
        if IsVar(t) { BoundAgrees(r, ad, n, b, c, t); } else { assert forall x | x in RuleVars(r) :: IsVar(x); }
      }
    } else {
      UnboundIsElsewhere(r, ad, n, t);
      var b: Bindings := map x | x in RuleVars(r) :: Constant("a");
      var c: Bindings := b[t := Constant("b")];
      assert Grounding(r, b) && Grounding(r, c) && AgreeBefore(r, ad, n, b, c);
      assert Value(t, b) != Value(t, c);
    }
  }

  /** So a subgoal is adorned with the arguments whose values are determined on entry to it. */
  lemma SubAdDetermined(r: Rule, ad: Adornment, j: nat)
    requires j < |r.body|
    ensures SubAd(r, ad, j).s <==> Determined(r, ad, j, r.body[j].atom.s)
    ensures SubAd(r, ad, j).o <==> Determined(r, ad, j, r.body[j].atom.o)
  {
    hide BoundBefore, Determined, IsBound;
    assert EndVars(r.body[j].atom) <= RuleVars(r);
    BoundIsDetermined(r, ad, j, r.body[j].atom.s);
    BoundIsDetermined(r, ad, j, r.body[j].atom.o);
  }

  function MagicAtom(t: Triple, ad: Adornment): Triple
    requires ad != FREE
  {
    var p := Constant(MagicName(Entry(t.p, ad)));
    if ad.s && ad.o then Triple(t.s, p, t.o)
    else Triple(if ad.s then t.s else t.o, p, Constant("true"))
  }

  function AdornAtom(t: Triple, ad: Adornment): Triple {
    Triple(t.s, Constant(AdornedName(Entry(t.p, ad))), t.o)
  }

  predicate IsIdb(prog: Program, p: Symbol) {
    p in HeadPreds(prog)
  }

  function AdornSubgoal(prog: Program, g: Subgoal, ad: Adornment): Subgoal {
    if IsIdb(prog, g.atom.p) then Subgoal(AdornAtom(g.atom, ad), g.negated) else g
  }

  function AdornedBody(prog: Program, r: Rule, ad: Adornment, n: nat): seq<Subgoal>
    requires n <= |r.body|
  {
    seq(n, k requires 0 <= k < n => AdornSubgoal(prog, r.body[k], SubAd(r, ad, k)))
  }

  /** The demand for the head, unless nothing is demanded of a free one. */
  function Guard(r: Rule, ad: Adornment): seq<Subgoal> {
    if ad == FREE then [] else [Subgoal(MagicAtom(r.head, ad), false)]
  }

  predicate Demands(prog: Program, r: Rule, ad: Adornment, j: nat) {
    j < |r.body| && IsIdb(prog, r.body[j].atom.p) && SubAd(r, ad, j) != FREE
  }

  function MagicRule(prog: Program, r: Rule, ad: Adornment, j: nat): Rule
    requires Demands(prog, r, ad, j)
  {
    Rule(MagicAtom(r.body[j].atom, SubAd(r, ad, j)), Guard(r, ad) + AdornedBody(prog, r, ad, j))
  }

  function Rewritten(prog: Program, r: Rule, ad: Adornment): Rule {
    Rule(AdornAtom(r.head, ad), Guard(r, ad) + AdornedBody(prog, r, ad, |r.body|))
  }

  function MagicRules(prog: Program, r: Rule, ad: Adornment, n: nat): Program
    requires n <= |r.body|
  {
    if n == 0 then []
    else MagicRules(prog, r, ad, n - 1) + if Demands(prog, r, ad, n - 1) then [MagicRule(prog, r, ad, n - 1)] else []
  }

  function RuleOutput(prog: Program, r: Rule, ad: Adornment): Program {
    MagicRules(prog, r, ad, |r.body|) + [Rewritten(prog, r, ad)]
  }

  function EntryOutput(prog: Program, a: Adorned, n: nat): Program
    requires n <= |prog|
  {
    if n == 0 then []
    else EntryOutput(prog, a, n - 1)
         + if prog[n - 1].head.p == Constant(a.name) then RuleOutput(prog, prog[n - 1], a.ad) else []
  }

  /** The rules for the first `n` queue entries, in order. */
  function Output(prog: Program, queue: seq<Adorned>, n: nat): Program
    requires n <= |queue|
  {
    if n == 0 then [] else Output(prog, queue, n - 1) + EntryOutput(prog, queue[n - 1], |prog|)
  }

  function GoalAd(goal: Triple): Adornment {
    Adornment(!IsVar(goal.s), !IsVar(goal.o))
  }

  function GoalEntry(goal: Triple): Adorned {
    Entry(goal.p, GoalAd(goal))
  }

  /** The adorned subgoals among the first `n` of a rule. */
  function Called(prog: Program, r: Rule, ad: Adornment, n: nat): set<Adorned>
    requires n <= |r.body|
  {
    set j | 0 <= j < n && IsIdb(prog, r.body[j].atom.p) :: Entry(r.body[j].atom.p, SubAd(r, ad, j))
  }

  /** What processing one entry can queue, through the first `n` rules. */
  function Successors(prog: Program, a: Adorned, n: nat): set<Adorned>
    requires n <= |prog|
  {
    set r, b | 0 <= r < n && prog[r].head.p == Constant(a.name) && b in Called(prog, prog[r], a.ad, |prog[r].body|) :: b
  }

  /** Entry `k` is called by one of the first `n`. */
  ghost predicate Reached(prog: Program, queue: seq<Adorned>, n: nat, k: nat)
    requires k < |queue|
  {
    exists e :: 0 <= e < n && e < k && queue[k] in Successors(prog, queue[e], |prog|)
  }

  /** The queue the worklist ends with: the goal and what it reaches, each once, closed under successors. */
  ghost predicate Worklist(prog: Program, goal: Triple, queue: seq<Adorned>) {
    && NoDup(queue) && |queue| > 0 && queue[0] == GoalEntry(goal)
    && (forall k | 0 <= k < |queue| :: Successors(prog, queue[k], |prog|) <= Elems(queue))
    && forall k: nat | 0 < k < |queue| :: Reached(prog, queue, k, k)
  }

  /** A way from the goal through the subgoals that rules call, latest call outermost. */
  datatype Chain = Goal | Calls(prev: Chain, a: Adorned)

  ghost function Last(goal: Triple, c: Chain): Adorned {
    if c.Goal? then GoalEntry(goal) else c.a
  }

  ghost predicate IsChain(prog: Program, goal: Triple, c: Chain) {
    c.Calls? ==> IsChain(prog, goal, c.prev) && c.a in Successors(prog, Last(goal, c.prev), |prog|)
  }

  /** The goal calls the predicate, directly or not, with these arguments bound. */
  ghost predicate CalledFrom(prog: Program, goal: Triple, a: Adorned) {
    exists c :: IsChain(prog, goal, c) && Last(goal, c) == a
  }

  lemma {:induction false} ChainIsQueued(prog: Program, goal: Triple, queue: seq<Adorned>, c: Chain)
    requires Worklist(prog, goal, queue) && IsChain(prog, goal, c)
    ensures Last(goal, c) in queue
  {
    hide Successors, NoDup;
    if c.Calls? {
      ChainIsQueued(prog, goal, queue, c.prev);
      assert c.a in Elems(queue);
    }
  }

  lemma {:induction false} QueuedHasChain(prog: Program, goal: Triple, queue: seq<Adorned>, k: nat) returns (c: Chain)
    requires Worklist(prog, goal, queue) && k < |queue|
    ensures IsChain(prog, goal, c) && Last(goal, c) == queue[k]
  {
    hide Successors, NoDup;
    c := Goal;
    if k > 0 {
      assert Reached(prog, queue, k, k);
      var e: nat :| e < k && queue[k] in Successors(prog, queue[e], |prog|);
      var before := QueuedHasChain(prog, goal, queue, e);
      c := Calls(before, queue[k]);
    }
  }

  /** The queue holds exactly what the goal calls. */
  lemma QueueIsCalled(prog: Program, goal: Triple, queue: seq<Adorned>)
    requires Worklist(prog, goal, queue)
    ensures forall a :: a in queue <==> CalledFrom(prog, goal, a)
  {
    hide Worklist;
    forall a | a in queue ensures CalledFrom(prog, goal, a) {
      var k: nat :| k < |queue| && queue[k] == a;
      var c := QueuedHasChain(prog, goal, queue, k);
    }
    forall a | CalledFrom(prog, goal, a) ensures a in queue {
      var c :| IsChain(prog, goal, c) && Last(goal, c) == a;
      ChainIsQueued(prog, goal, queue, c);
    }
  }

  ghost predicate IsRewrite(prog: Program, goal: Triple, out: Program) {
    exists queue :: Worklist(prog, goal, queue) && out == Output(prog, queue, |queue|)
  }

  /** Every entry the worklist can hold. */
  function Entries(names: set<string>): set<Adorned> {
    set p, s: bool, o: bool | p in names :: Adorned(p, Adornment(s, o))
  }

  function Names(prog: Program, goal: Triple): set<string> {
    (set r | r in prog :: r.head.p.name) + {goal.p.name}
  }

  // ---- the code ----

  /** enqueue_adorned */
  method Enqueue(queue: seq<Adorned>, a: Adorned) returns (after: seq<Adorned>)
    requires NoDup(queue)
    ensures after == if a in queue then queue else queue + [a]
    ensures NoDup(after) && Elems(after) == Elems(queue) + {a}
  {
    for i := 0 to |queue|
      invariant a !in queue[..i]
    {
      if queue[i] == a { return queue; }
    }
    assert queue[..|queue|] == queue;
    after := queue + [a];
  }

  /** add_var_to_bound */
  method AddBound(list: seq<Symbol>, x: Symbol) returns (after: seq<Symbol>)
    ensures Elems(after) == Elems(list) + VarOf(x)
  {
    after := if IsVar(x) && x !in list then list + [x] else list;
  }

  method HeadBound(r: Rule, ad: Adornment) returns (bound: seq<Symbol>)
    ensures Elems(bound) == BoundBefore(r, ad, 0)
  {
    bound := [];
    if ad.s { bound := AddBound(bound, r.head.s); }
    if ad.o { bound := AddBound(bound, r.head.o); }
  }

  method AdornAt(r: Rule, ad: Adornment, j: nat, bound: seq<Symbol>) returns (sub: Adornment)
    requires j < |r.body| && Elems(bound) == BoundBefore(r, ad, j)
    ensures sub == SubAd(r, ad, j)
  {
    var t := r.body[j].atom;
    assert forall x :: x in bound <==> x in Elems(bound);
    sub := Adornment(!IsVar(t.s) || t.s in bound, !IsVar(t.o) || t.o in bound);
  }

  /** The first pass over the body: adorn the subgoals and queue the derived predicates among them. */
  method AdornBody(prog: Program, r: Rule, ad: Adornment, queue: seq<Adorned>)
    returns (ads: seq<Adornment>, idb: seq<bool>, after: seq<Adorned>)
    requires NoDup(queue)
    ensures |ads| == |idb| == |r.body|
    ensures forall j | 0 <= j < |r.body| :: ads[j] == SubAd(r, ad, j) && idb[j] == IsIdb(prog, r.body[j].atom.p)
    ensures forall j | 0 <= j < |r.body| ::
              && (ads[j].s <==> Determined(r, ad, j, r.body[j].atom.s))
              && (ads[j].o <==> Determined(r, ad, j, r.body[j].atom.o))
    ensures NoDup(after) && queue <= after && Elems(after) == Elems(queue) + Called(prog, r, ad, |r.body|)
  {
    hide Called, NoDup, IsIdb, Entry, SubAd, Determined;
    var bound := HeadBound(r, ad);
    ads, idb, after := [], [], queue;
    NoneCalled(prog, r, ad, Elems(queue));
    for j := 0 to |r.body|
      invariant |ads| == |idb| == j && Elems(bound) == BoundBefore(r, ad, j)
      invariant forall k | 0 <= k < j :: ads[k] == SubAd(r, ad, k) && idb[k] == IsIdb(prog, r.body[k].atom.p)
      invariant NoDup(after) && queue <= after && Elems(after) == Elems(queue) + Called(prog, r, ad, j)
    {
      var t := r.body[j].atom;
      var sub := AdornAt(r, ad, j, bound);
      var derived := IsIdb(prog, t.p);
      CalledStep(prog, r, ad, j, Elems(queue));
      if derived { after := Enqueue(after, Entry(t.p, sub)); }
      bound := AddBound(bound, t.s);
      bound := AddBound(bound, t.o);
      ads, idb := ads + [sub], idb + [derived];
    }
    forall j | 0 <= j < |r.body| { SubAdDetermined(r, ad, j); }
  }

  lemma CalledStep(prog: Program, r: Rule, ad: Adornment, j: nat, had: set<Adorned>)
    requires j < |r.body|
    ensures had + Called(prog, r, ad, j + 1) ==
            had + Called(prog, r, ad, j) + if IsIdb(prog, r.body[j].atom.p) then {Entry(r.body[j].atom.p, SubAd(r, ad, j))} else {}
  {
  }

  lemma NoneCalled(prog: Program, r: Rule, ad: Adornment, had: set<Adorned>)
    ensures had + Called(prog, r, ad, 0) == had
  {
  }

  /** The subgoals before `n` as they appear in a rewritten body. */
  method CopyBody(prog: Program, r: Rule, ad: Adornment, ads: seq<Adornment>, idb: seq<bool>, n: nat)
    returns (body: seq<Subgoal>)
    requires n <= |r.body| == |ads| == |idb|
    requires forall j | 0 <= j < |r.body| :: ads[j] == SubAd(r, ad, j) && idb[j] == IsIdb(prog, r.body[j].atom.p)
    ensures body == Guard(r, ad) + AdornedBody(prog, r, ad, n)
  {
    hide AdornedBody, SubAd, IsIdb, MagicAtom, AdornAtom;
    body := [];
    if ad != FREE { body := [Subgoal(MagicAtom(r.head, ad), false)]; }
    NothingCopied(prog, r, ad);
    for k := 0 to n
      invariant body == Guard(r, ad) + AdornedBody(prog, r, ad, k)
    {
      CopyStep(prog, r, ad, k);
      var g := r.body[k];
      body := body + [if idb[k] then Subgoal(AdornAtom(g.atom, ads[k]), g.negated) else g];
    }
  }

  lemma CopyStep(prog: Program, r: Rule, ad: Adornment, k: nat)
    requires k < |r.body|
    ensures Guard(r, ad) + AdornedBody(prog, r, ad, k + 1) ==
            (Guard(r, ad) + AdornedBody(prog, r, ad, k)) + [AdornSubgoal(prog, r.body[k], SubAd(r, ad, k))]
  {
    hide AdornSubgoal, SubAd, Guard;
    assert AdornedBody(prog, r, ad, k + 1) == AdornedBody(prog, r, ad, k) + [AdornSubgoal(prog, r.body[k], SubAd(r, ad, k))];
  }

  lemma NothingCopied(prog: Program, r: Rule, ad: Adornment)
    ensures Guard(r, ad) + AdornedBody(prog, r, ad, 0) == Guard(r, ad)
  {
  }

  /** transform_rule */
  method TransformRule(prog: Program, r: Rule, a: Adorned, out: Program, queue: seq<Adorned>)
    returns (rules: Program, after: seq<Adorned>)
    requires NoDup(queue)
    ensures rules == out + RuleOutput(prog, r, a.ad)
    ensures NoDup(after) && queue <= after && Elems(after) == Elems(queue) + Called(prog, r, a.ad, |r.body|)
  {
    hide Called, NoDup, IsIdb, SubAd, MagicAtom, AdornAtom, Guard, AdornedBody, Elems, Determined;
    var ads, idb;
    ads, idb, after := AdornBody(prog, r, a.ad, queue);
    rules := out;
    for j := 0 to |r.body|
      invariant rules == out + MagicRules(prog, r, a.ad, j)
    {
      if idb[j] && ads[j] != FREE {
        var body := CopyBody(prog, r, a.ad, ads, idb, j);
        rules := rules + [Rule(MagicAtom(r.body[j].atom, ads[j]), body)];
      }
    }
    var body := CopyBody(prog, r, a.ad, ads, idb, |r.body|);
    rules := rules + [Rule(AdornAtom(r.head, a.ad), body)];
  }

  /** One queue entry against every rule. */
  method TransformEntry(prog: Program, a: Adorned, out: Program, queue: seq<Adorned>)
    returns (rules: Program, after: seq<Adorned>)
    requires NoDup(queue)
    ensures rules == out + EntryOutput(prog, a, |prog|)
    ensures NoDup(after) && queue <= after && Elems(after) == Elems(queue) + Successors(prog, a, |prog|)
  {
    hide Successors, NoDup, RuleOutput, Called;
    rules, after := out, queue;
    NoSuccessors(prog, a, Elems(queue));
    for r := 0 to |prog|
      invariant rules == out + EntryOutput(prog, a, r)
      invariant NoDup(after) && queue <= after && Elems(after) == Elems(queue) + Successors(prog, a, r)
    {
      SuccessorsStep(prog, a, r, Elems(queue));
      if prog[r].head.p == Constant(a.name) {
        rules, after := TransformRule(prog, prog[r], a, rules, after);
      }
    }
  }

  lemma SuccessorsStep(prog: Program, a: Adorned, r: nat, had: set<Adorned>)
    requires r < |prog|
    ensures had + Successors(prog, a, r + 1) == had + Successors(prog, a, r) +
              if prog[r].head.p == Constant(a.name) then Called(prog, prog[r], a.ad, |prog[r].body|) else {}
  {
  }

  lemma NoSuccessors(prog: Program, a: Adorned, had: set<Adorned>)
    ensures had + Successors(prog, a, 0) == had
  {
  }

  lemma InEntries(names: set<string>, b: Adorned)
    ensures b in Entries(names) <==> b.name in names
  {
    if b.name in names { assert b == Adorned(b.name, Adornment(b.ad.s, b.ad.o)); }
  }

  lemma SuccessorsKnown(prog: Program, goal: Triple, a: Adorned)
    ensures Successors(prog, a, |prog|) <= Entries(Names(prog, goal))
  {
    forall b | b in Successors(prog, a, |prog|) ensures b in Entries(Names(prog, goal)) {
      InEntries(Names(prog, goal), b);
    }
  }

  lemma {:induction false} NoDupSize<T>(s: seq<T>, bound: set<T>)
    requires NoDup(s) && Elems(s) <= bound
    ensures |s| <= |bound|
  {
    if s != [] {
      var last, front := s[|s| - 1], s[..|s| - 1];
      assert last in bound;
      assert Elems(front) <= bound - {last} by {
        forall x | x in Elems(front) ensures x in bound - {last} {
          var i :| 0 <= i < |front| && front[i] == x;
          assert s[i] == x;
        }
      }
      NoDupSize(front, bound - {last});
    }
  }

  /** What the worklist keeps: the first `n` entries are processed. */
  ghost predicate Progress(prog: Program, goal: Triple, queue: seq<Adorned>, n: nat) {
    && n <= |queue| && NoDup(queue) && |queue| > 0 && queue[0] == GoalEntry(goal)
    && Elems(queue) <= Entries(Names(prog, goal))
    && (forall k | 0 <= k < n :: Successors(prog, queue[k], |prog|) <= Elems(queue))
    && forall k: nat | 0 < k < |queue| :: Reached(prog, queue, n, k)
  }

  lemma EntryIsReached(prog: Program, queue: seq<Adorned>, n: nat, after: seq<Adorned>, k: nat)
    requires n < |queue| && 0 < k < |after|
    requires NoDup(after) && queue <= after && Elems(after) == Elems(queue) + Successors(prog, queue[n], |prog|)
    requires k < |queue| ==> Reached(prog, queue, n, k)
    ensures Reached(prog, after, n + 1, k)
  {
    hide Successors;
    if k < |queue| {
      var e :| 0 <= e < n && e < k && queue[k] in Successors(prog, queue[e], |prog|);
      assert after[e] == queue[e];
    } else {
      assert after[k] in Elems(after);
      assert after[k] !in Elems(queue);
      assert after[n] == queue[n];
    }
  }

  lemma ProgressStep(prog: Program, goal: Triple, queue: seq<Adorned>, n: nat, after: seq<Adorned>)
    requires Progress(prog, goal, queue, n) && n < |queue|
    requires NoDup(after) && queue <= after && Elems(after) == Elems(queue) + Successors(prog, queue[n], |prog|)
    ensures Progress(prog, goal, after, n + 1)
  {
    hide Successors, Entries, Names, NoDup;
    SuccessorsKnown(prog, goal, queue[n]);
    var next := n + 1;
    forall k: nat | 0 < k < |after| ensures Reached(prog, after, next, k) {
      EntryIsReached(prog, queue, n, after, k);
    }
    forall k | 0 <= k < n + 1 ensures Successors(prog, after[k], |prog|) <= Elems(after) {
      assert after[k] == queue[k];
    }
  }

  lemma {:induction false} OutputPrefix(prog: Program, queue: seq<Adorned>, after: seq<Adorned>, n: nat)
    requires n <= |queue| && queue <= after
    ensures Output(prog, queue, n) == Output(prog, after, n)
  {
    if n > 0 { OutputPrefix(prog, queue, after, n - 1); }
  }

  /** datalog_program_magic_transform: nothing for a goal with a variable predicate. The entries queued are all
      different and come from the predicates at hand, which is why the loop ends. */
  method Transform(prog: Program, goal: Triple) returns (result: Option<Program>, ghost queue: seq<Adorned>)
    ensures result.None? <==> IsVar(goal.p)
    ensures result.Some? ==> Worklist(prog, goal, queue) && result.value == Output(prog, queue, |queue|)
    ensures result.Some? ==> IsRewrite(prog, goal, result.value)
    ensures result.Some? ==> |queue| <= |Entries(Names(prog, goal))|
  {
    hide Successors, EntryOutput, Entries, Names, NoDup, Elems, Worklist, GoalEntry;
    queue := [];
    if IsVar(goal.p) { return None, queue; }
    var work := Enqueue([], GoalEntry(goal));
    assert Progress(prog, goal, work, 0) by { StartProgress(prog, goal, work); }
    var out: Program := [];
    var processed := 0;
    hide Progress;
    while processed < |work|
      invariant processed <= |work| && Progress(prog, goal, work, processed)
      invariant out == Output(prog, work, processed)
      decreases |Entries(Names(prog, goal))| - processed
    {
      ProgressBound(prog, goal, work, processed);
      ghost var before := work;
      out, work := TransformEntry(prog, work[processed], out, work);
      ProgressStep(prog, goal, before, processed, work);
      OutputPrefix(prog, before, work, processed);
      processed := processed + 1;
    }
    queue := work;
    ProgressBound(prog, goal, work, processed);
    ProgressDone(prog, goal, work);
    result := Some(out);
  }

  lemma StartProgress(prog: Program, goal: Triple, queue: seq<Adorned>)
    requires queue == [GoalEntry(goal)]
    ensures Progress(prog, goal, queue, 0)
  {
    InEntries(Names(prog, goal), GoalEntry(goal));
  }

  lemma ProgressBound(prog: Program, goal: Triple, queue: seq<Adorned>, n: nat)
    requires Progress(prog, goal, queue, n)
    ensures NoDup(queue) && |queue| <= |Entries(Names(prog, goal))|
  {
    NoDupSize(queue, Entries(Names(prog, goal)));
  }

  lemma ProgressDone(prog: Program, goal: Triple, queue: seq<Adorned>)
    requires Progress(prog, goal, queue, |queue|)
    ensures Worklist(prog, goal, queue)
  {
    forall k: nat | 0 < k < |queue| ensures Reached(prog, queue, k, k) {
      assert Reached(prog, queue, |queue|, k);
    }
  }

  /** No predicate is queued under more than four adornments. */
  lemma AtMostFour(prog: Program, goal: Triple, queue: seq<Adorned>, name: string)
    requires Worklist(prog, goal, queue)
    ensures |set a | a in queue && a.name == name| <= 4
  {
    var four := {Adorned(name, Adornment(true, true)), Adorned(name, Adornment(true, false)),
                 Adorned(name, Adornment(false, true)), Adorned(name, Adornment(false, false))};
    var mine := set a | a in queue && a.name == name;
    forall a | a in mine ensures a in four {
      assert a == Adorned(name, Adornment(a.ad.s, a.ad.o));
    }
    SubsetSize(mine, four);
  }

  // ---- generated names ----

  lemma NamesDiffer(a: Adorned, b: Adorned)
    ensures AdornedName(a) == AdornedName(b) ==> a == b
    ensures MagicName(a) == MagicName(b) ==> a == b
    ensures AdornedName(a) == MagicName(b) ==> a.name == "magic_" + b.name
  {
    assert |Text(a.ad)| == |Text(b.ad)| == 2;
    if AdornedName(a) == AdornedName(b) { SameEnds(a.name + "_", Text(a.ad), b.name + "_", Text(b.ad)); SameEnds(a.name, "_", b.name, "_"); }
    if MagicName(a) == MagicName(b) {
      SameTails("magic_", AdornedName(a), AdornedName(b));
      SameEnds(a.name + "_", Text(a.ad), b.name + "_", Text(b.ad));
      SameEnds(a.name, "_", b.name, "_");
    }
    if AdornedName(a) == MagicName(b) {
      assert MagicName(b) == ("magic_" + b.name + "_") + Text(b.ad);
      SameEnds(a.name + "_", Text(a.ad), "magic_" + b.name + "_", Text(b.ad));
      SameEnds(a.name, "_", "magic_" + b.name, "_");
    }
  }

  /** The names as texts. */
  lemma NamesAre(name: string)
    ensures AdornedName(Adorned(name, Adornment(true, true))) == name + "_bb"
    ensures AdornedName(Adorned(name, Adornment(true, false))) == name + "_bf"
    ensures AdornedName(Adorned(name, Adornment(false, true))) == name + "_fb"
    ensures AdornedName(Adorned(name, Adornment(false, false))) == name + "_ff"
    ensures forall a :: MagicName(a) == "magic_" + AdornedName(a)
  {
    assert Text(Adornment(true, true)) == "bb" && Text(Adornment(true, false)) == "bf";
    assert Text(Adornment(false, true)) == "fb" && Text(Adornment(false, false)) == "ff";
    SameText(name, Text(Adornment(true, true)), "bb");
    SameText(name, Text(Adornment(true, false)), "bf");
    SameText(name, Text(Adornment(false, true)), "fb");
    SameText(name, Text(Adornment(false, false)), "ff");
  }

  lemma SameText(name: string, ad: string, text: string)
    requires ad == text && |text| == 2
    ensures name + "_" + ad == name + ("_" + text)
  {
  }

  lemma SameEnds(a: string, x: string, b: string, y: string)
    requires |x| == |y| && a + x == b + y
    ensures a == b && x == y
  {
    assert (a + x)[..|a|] == a && (a + x)[|a|..] == x;
    assert (b + y)[..|b|] == b && (b + y)[|b|..] == y;
  }

  lemma SameTails(p: string, x: string, y: string)
    requires p + x == p + y
    ensures x == y
  {
    assert (p + x)[|p|..] == x && (p + y)[|p|..] == y;
  }
}
