/** Retraction through the recorded proofs (facts_invalidate_justifications in lib/eval.c). */
module Retraction {
  import opened Collections
  import opened Datalog
  import opened JustificationGraphs
  import opened RuleEval
  import E = Evaluation
  import R = Reevaluation
  import SN = SemiNaive

  /** An undo entry of the committing transaction: Add would bring a removed fact back, Remove would take an
      inserted one away, State restores support flags of a fact that stayed. */
  datatype Action = Add | Remove | State
  datatype Entry = Entry(action: Action, fact: Triple)

  function Touched(entries: seq<Entry>, a: Action): set<Triple> {
    set e | e in entries && e.action == a :: e.fact
  }

  /** The proof still holds: its positive supports are all present and none of its negated ones was inserted. */
  ghost predicate Survives(j: Justification, present: set<Triple>, inserted: set<Triple>) {
    && (forall f | Uses(j, f, false) :: f in present)
    && forall f | Uses(j, f, true) :: f !in inserted
  }

  /** Every member of `x` keeps a proof whose supports all survive with it. */
  ghost predicate Supported(items: seq<Justification>, asserted: set<Triple>, inserted: set<Triple>, x: set<Triple>) {
    forall f | f in x :: exists j :: j in items && j.head == f && Survives(j, asserted + x, inserted)
  }

  ghost predicate GreatestSupported(items: seq<Justification>, asserted: set<Triple>, inserted: set<Triple>,
                                    derived: set<Triple>, x: set<Triple>)
  {
    && x <= derived && Supported(items, asserted, inserted, x)
    && forall y: set<Triple> | y <= derived && Supported(items, asserted, inserted, y) :: y <= x
  }

  ghost predicate Proved(items: seq<Justification>, f: Triple) {
    exists j :: j in items && j.head == f
  }

  /** What holds when the transaction commits: every derived fact has a recorded proof, the recorded positive
      supports are present or were removed by the transaction, and no removed fact is still present. */
  ghost predicate Ready(items: seq<Justification>, asserted: set<Triple>, derived: set<Triple>, entries: seq<Entry>) {
    && (forall f | f in derived :: Proved(items, f))
    && (forall j, f | j in items && Uses(j, f, false) :: f in asserted + derived + Touched(entries, Add))
    && Touched(entries, Add) !! asserted + derived
  }

  /** The events handled so far have been taken out of the graph. */
  ghost predicate Pruned(items0: seq<Justification>, items: seq<Justification>, done: seq<Support>) {
    forall j :: j in items <==> j in items0 && forall e | e in done :: !Uses(j, e.fact, e.negated)
  }

  /** Positive events are exactly the known facts that are gone, negated ones the inserted facts. */
  ghost predicate Events(events: seq<Support>, asserted: set<Triple>, derived0: set<Triple>, derived: set<Triple>,
                         entries: seq<Entry>)
  {
    && (forall f :: Support(f, true) in events <==> f in Touched(entries, Remove))
    && (forall f :: Support(f, false) in events <==>
          f in Touched(entries, Add) || (f in derived0 && f !in asserted + derived))
  }

  /** invalidation_event_append: an event is listed once. */
  method Append(events: seq<Support>, e: Support) returns (after: seq<Support>)
    ensures events <= after && e in after && |after| == |events| + if e in events then 0 else 1
    ensures forall x :: x in after ==> x in events || x == e
  {
    after := if e in events then events else events + [e];
  }

  method FirstEvents(entries: seq<Entry>) returns (events: seq<Support>, scan: bool)
    ensures forall f :: Support(f, true) in events <==> f in Touched(entries, Remove)
    ensures forall f :: Support(f, false) in events <==> f in Touched(entries, Add)
    ensures scan == (Touched(entries, Add) != {})
  {
    events, scan := [], false;
    for i := 0 to |entries|
      invariant forall f :: Support(f, true) in events <==> Entry(Remove, f) in entries[..i]
      invariant forall f :: Support(f, false) in events <==> Entry(Add, f) in entries[..i]
      invariant scan <==> exists f :: Entry(Add, f) in entries[..i]
    {
      assert entries[..i + 1] == entries[..i] + [entries[i]];
      match entries[i].action {
        case Add =>
          scan := true;
          assert entries[i] == Entry(Add, entries[i].fact);
          events := Append(events, Support(entries[i].fact, false));
        case Remove =>
          events := Append(events, Support(entries[i].fact, true));
        case State =>
      }
    }
    assert entries[..|entries|] == entries;
    TouchedMeaning(entries);
  }

  lemma TouchedMeaning(entries: seq<Entry>)
    ensures forall f, a :: f in Touched(entries, a) <==> Entry(a, f) in entries
  {
    forall f, a ensures f in Touched(entries, a) <==> Entry(a, f) in entries {
      if Entry(a, f) in entries { assert Entry(a, f).action == a; }
    }
  }

  /** Members of a supported set are never removed: their proofs are not touched by any event. */
  lemma KeptProof(items0: seq<Justification>, items: seq<Justification>, done: seq<Support>, events: seq<Support>,
                  asserted: set<Triple>, derived0: set<Triple>, derived: set<Triple>, entries: seq<Entry>,
                  x: set<Triple>, f: Triple)
    requires Pruned(items0, items, done) && Events(events, asserted, derived0, derived, entries)
    requires forall e | e in done :: e in events
    requires Touched(entries, Add) !! asserted + derived0 && derived <= derived0
    requires x <= derived && Supported(items0, asserted, Touched(entries, Remove), x) && f in x
    ensures Proved(items, f)
  {
    var j :| j in items0 && j.head == f && Survives(j, asserted + x, Touched(entries, Remove));
    forall e | e in done ensures !Uses(j, e.fact, e.negated) {
      assert e == Support(e.fact, e.negated);
    }
    assert j in items;
  }

  /** What every step of the event loop keeps. */
  ghost predicate CascadeInv(items0: seq<Justification>, items: seq<Justification>, done: seq<Support>,
                             events: seq<Support>, asserted: set<Triple>, derived0: set<Triple>, derived: set<Triple>,
                             entries: seq<Entry>)
  {
    && Pruned(items0, items, done) && Events(events, asserted, derived0, derived, entries)
    && (forall e | e in done :: e in events)
    && derived <= derived0
    && forall x: set<Triple> | x <= derived0 && Supported(items0, asserted, Touched(entries, Remove), x) :: x <= derived
  }

  /** Removing a derived fact that lost its last proof, with the event it causes. */
  lemma RemovalInv(items0: seq<Justification>, items: seq<Justification>, done: seq<Support>, events: seq<Support>,
                   asserted: set<Triple>, derived0: set<Triple>, derived: set<Triple>, entries: seq<Entry>, c: Triple,
                   after: seq<Support>)
    requires Ready(items0, asserted, derived0, entries)
    requires CascadeInv(items0, items, done, events, asserted, derived0, derived, entries)
    requires c in derived && !Proved(items, c)
    requires if c in asserted then after == events else Support(c, false) in after && (after == events || after == events + [Support(c, false)])
    ensures CascadeInv(items0, items, done, after, asserted, derived0, derived - {c}, entries)
  {
    forall x: set<Triple> | x <= derived0 && Supported(items0, asserted, Touched(entries, Remove), x)
      ensures c !in x && x <= derived - {c}
    {
      assert x <= derived;
      if c in x {
        KeptProof(items0, items, done, events, asserted, derived0, derived, entries, x, c);
      }
    }
  }

  /** The conclusions that lost a proof: the ones left without any lose their derived support. */
  method HandleConclusions(main: Facts, staging: JustificationGraph, events: seq<Support>, conclusions: seq<Triple>,
                           ghost items0: seq<Justification>, ghost done: seq<Support>, ghost derived0: set<Triple>,
                           ghost entries: seq<Entry>) returns (after: seq<Support>)
    requires Ready(items0, main.asserted, derived0, entries)
    requires CascadeInv(items0, staging.items, done, events, main.asserted, derived0, main.derived, entries)
    requires forall f | f in main.derived :: Proved(staging.items, f) || f in conclusions
    modifies main`derived
    ensures CascadeInv(items0, staging.items, done, after, main.asserted, derived0, main.derived, entries)
    ensures forall f | f in main.derived :: Proved(staging.items, f)
    ensures events <= after && |after| + |main.derived| <= |events| + |old(main.derived)|
    ensures conclusions == [] ==> main.derived == old(main.derived)
  {
    hide CascadeInv, Ready;
    after := events;
    for k := 0 to |conclusions|
      invariant CascadeInv(items0, staging.items, done, after, main.asserted, derived0, main.derived, entries)
      invariant forall f | f in main.derived :: Proved(staging.items, f) || f in conclusions[k..]
      invariant events <= after && |after| + |main.derived| <= |events| + |old(main.derived)|
      invariant conclusions == [] ==> main.derived == old(main.derived)
    {
      var c := conclusions[k];
      assert conclusions[k..] == [c] + conclusions[k + 1..];
      var count := staging.Count(c);
      assert count == 0 <==> !Proved(staging.items, c);
      if count == 0 && c in main.derived {
        ghost var before, derived := after, main.derived;
        var disappears := main.RemoveDerived(c);
        if disappears {
          after := Append(after, Support(c, false));
        }
        RemovalInv(items0, staging.items, done, before, main.asserted, derived0, derived, entries, c, after);
      }
    }
  }

  /** Taking one event's proofs out of the graph. */
  lemma PruneInv(items0: seq<Justification>, items: seq<Justification>, done: seq<Support>, events: seq<Support>,
                 asserted: set<Triple>, derived0: set<Triple>, derived: set<Triple>, entries: seq<Entry>, e: Support)
    requires CascadeInv(items0, items, done, events, asserted, derived0, derived, entries) && e in events
    ensures CascadeInv(items0, Without(items, e.fact, e.negated), done + [e], events, asserted, derived0, derived, entries)
    ensures forall f | Proved(items, f) ::
      Proved(Without(items, e.fact, e.negated), f) || exists j :: j in items && Uses(j, e.fact, e.negated) && j.head == f
  {
    WithoutFacts(items, e.fact, e.negated);
    forall f | Proved(items, f)
      ensures Proved(Without(items, e.fact, e.negated), f) || exists j :: j in items && Uses(j, e.fact, e.negated) && j.head == f
    {
      var j :| j in items && j.head == f;
      if !Uses(j, e.fact, e.negated) { assert j in Without(items, e.fact, e.negated); }
    }
  }

  /** When every event is handled, what is left derived is the greatest supported set. */
  lemma CascadeDone(items0: seq<Justification>, items: seq<Justification>, events: seq<Support>, asserted: set<Triple>,
                    derived0: set<Triple>, derived: set<Triple>, entries: seq<Entry>)
    requires Ready(items0, asserted, derived0, entries)
    requires CascadeInv(items0, items, events, events, asserted, derived0, derived, entries)
    requires forall f | f in derived :: Proved(items, f)
    ensures GreatestSupported(items0, asserted, Touched(entries, Remove), derived0, derived)
    ensures forall j :: j in items <==> j in items0 && Survives(j, asserted + derived, Touched(entries, Remove))
  {
    var ins := Touched(entries, Remove);
    forall j ensures j in items <==> j in items0 && Survives(j, asserted + derived, ins) {
      if j in items {
        forall f | Uses(j, f, false) ensures f in asserted + derived {
          assert Support(f, false) !in events;
        }
        forall f | Uses(j, f, true) ensures f !in ins {
          assert Support(f, true) !in events;
        }
      } else if j in items0 {
        var e :| e in events && Uses(j, e.fact, e.negated);
        assert e == Support(e.fact, e.negated);
      }
    }
    forall f | f in derived ensures exists j :: j in items0 && j.head == f && Survives(j, asserted + derived, ins) {
      var j :| j in items && j.head == f;
    }
  }

  lemma StartInv(items0: seq<Justification>, events: seq<Support>, asserted: set<Triple>, derived0: set<Triple>,
                 entries: seq<Entry>)
    requires Ready(items0, asserted, derived0, entries)
    requires forall f :: Support(f, true) in events <==> f in Touched(entries, Remove)
    requires forall f :: Support(f, false) in events <==> f in Touched(entries, Add)
    ensures CascadeInv(items0, items0, [], events, asserted, derived0, derived0, entries)
    ensures forall f | f in derived0 :: Proved(items0, f)
  {
  }

  /** facts_invalidate_justifications: the event loop, over an event list that grows while it is scanned. */
  method Invalidate(main: Facts, staging: JustificationGraph, entries: seq<Entry>) returns (scan: bool)
    requires Ready(staging.items, main.asserted, main.derived, entries)
    modifies main`derived, staging`items
    ensures GreatestSupported(old(staging.items), main.asserted, Touched(entries, Remove), old(main.derived), main.derived)
    ensures forall j :: j in staging.items <==>
              j in old(staging.items) && Survives(j, main.Visible(), Touched(entries, Remove))
    ensures scan <==> Touched(entries, Add) != {} || NegationLost(old(staging.items), Touched(entries, Remove))
    ensures NoDup(old(staging.items)) ==> NoDup(staging.items)
  {
    hide CascadeInv, Ready, GreatestSupported, Survives, Touched, Proved, NoDup, NegationLost;
    var events;
    events, scan := FirstEvents(entries);
    ghost var items0, derived0 := staging.items, main.derived;
    StartInv(items0, events, main.asserted, derived0, entries);
    var cursor := 0;
    assert events[..0] == [];
    while cursor < |events|
      invariant 0 <= cursor <= |events|
      invariant CascadeInv(items0, staging.items, events[..cursor], events, main.asserted, derived0, main.derived, entries)
      invariant forall f | f in main.derived :: Proved(staging.items, f)
      invariant Touched(entries, Add) != {} || staging.items != items0 || main.derived != derived0 ==> scan
      invariant scan ==> Touched(entries, Add) != {} || NegationLost(items0, Touched(entries, Remove))
      invariant NoDup(items0) ==> NoDup(staging.items)
      decreases |main.derived| + |events| - cursor
    {
      var e := events[cursor];
      PruneInv(items0, staging.items, events[..cursor], events, main.asserted, derived0, main.derived, entries, e);
      EventMeaning(items0, staging.items, events[..cursor], events, main.asserted, derived0, main.derived, entries, e);
      var removed, conclusions := staging.RemoveSupport(e.fact, e.negated);
      assert removed == 0 ==> conclusions == [] by {
        if conclusions != [] { assert conclusions[0] in conclusions; }
      }
      if e.negated && removed > 0 { scan := true; }
      assert events[..cursor] + [e] == events[..cursor + 1];
      ghost var before := events;
      events := HandleConclusions(main, staging, events, conclusions, items0, events[..cursor + 1], derived0, entries);
      assert before[..cursor + 1] == events[..cursor + 1];
      cursor := cursor + 1;
    }
    assert events[..cursor] == events;
    CascadeDone(items0, staging.items, events, main.asserted, derived0, main.derived, entries);
    NothingLost(items0, staging.items, events, main.asserted, derived0, main.derived, entries);
  }

  /** An inserted fact stood negated in a recorded proof. */
  ghost predicate NegationLost(items: seq<Justification>, inserted: set<Triple>) {
    exists j, f :: j in items && f in inserted && Uses(j, f, true)
  }

  lemma EventMeaning(items0: seq<Justification>, items: seq<Justification>, done: seq<Support>, events: seq<Support>,
                     asserted: set<Triple>, derived0: set<Triple>, derived: set<Triple>, entries: seq<Entry>, e: Support)
    requires CascadeInv(items0, items, done, events, asserted, derived0, derived, entries) && e in events
    ensures !e.negated ==> Touched(entries, Add) != {} || derived != derived0
    ensures |Without(items, e.fact, e.negated)| <= |items|
    ensures NoDup(items) ==> NoDup(Without(items, e.fact, e.negated))
    ensures |Without(items, e.fact, e.negated)| == |items| ==> Without(items, e.fact, e.negated) == items
    ensures e.negated && Without(items, e.fact, e.negated) != items ==> NegationLost(items0, Touched(entries, Remove))
    ensures Without(items, e.fact, e.negated) == items ==> forall j | j in items :: !Uses(j, e.fact, e.negated)
  {
    WithoutFacts(items, e.fact, e.negated);
    assert e == Support(e.fact, e.negated);
    if (exists j :: j in items && Uses(j, e.fact, e.negated)) {
      var j :| j in items && Uses(j, e.fact, e.negated);
      assert j in items0;
    } else {
      WithoutNothing(items, e.fact, e.negated);
    }
    WithoutAll(items, e.fact, e.negated);
  }

  lemma NothingLost(items0: seq<Justification>, items: seq<Justification>, events: seq<Support>, asserted: set<Triple>,
                    derived0: set<Triple>, derived: set<Triple>, entries: seq<Entry>)
    requires CascadeInv(items0, items, events, events, asserted, derived0, derived, entries)
    ensures NegationLost(items0, Touched(entries, Remove)) ==> items != items0
  {
    if NegationLost(items0, Touched(entries, Remove)) {
      var j, f :| j in items0 && f in Touched(entries, Remove) && Uses(j, f, true);
      assert Support(f, true) in events;
      assert j !in items;
    }
  }

  // ---- what is left of a negation-free program's model ----

  /** The state before a delete-only commit: the least model of the facts then asserted, with exact proofs. */
  ghost predicate Settled(prog: Program, edb: set<Triple>, derived: set<Triple>, items: seq<Justification>) {
    && E.WellFormed(prog, edb) && !Negated(prog) && edb !! derived
    && LeastModel(prog, edb, AsIset(edb + derived)) && E.ExactProofs(prog, edb + derived, items)
  }

  lemma SupportsOf(prog: Program, i: Inst)
    requires i.rule < |prog| && !Negated(prog)
    ensures forall f :: Uses(Just(prog, i), f, false) <==> f in PosFacts(prog, i)
    ensures forall f :: !Uses(Just(prog, i), f, true)
  {
    var body := prog[i.rule].body;
    forall f | f in PosFacts(prog, i) ensures Uses(Just(prog, i), f, false) {
      var k :| 0 <= k < |body| && !body[k].negated && f == Apply(body[k].atom, i.b);
      assert Just(prog, i).supports[k] == Support(f, false);
    }
  }

  /** The recorded proofs are the true applications, read as proofs. */
  lemma ProofsAreApplications(prog: Program, model: set<Triple>, items: seq<Justification>, j: Justification) returns (i: Inst)
    requires !Negated(prog) && E.ExactProofs(prog, model, items) && j in items
    ensures IsInst(prog, i) && j == Just(prog, i) && PosFacts(prog, i) <= model
    ensures forall f :: Uses(j, f, false) <==> f in PosFacts(prog, i)
    ensures forall f :: !Uses(j, f, true)
  {
    i :| Holds(prog, i, model, model) && j == Just(prog, i);
    SupportsOf(prog, i);
  }

  lemma ApplicationIsProof(prog: Program, model: set<Triple>, items: seq<Justification>, i: Inst)
    requires !Negated(prog) && E.ExactProofs(prog, model, items) && IsInst(prog, i) && PosFacts(prog, i) <= model
    ensures Just(prog, i) in items && Just(prog, i).head == HeadOf(prog, i)
    ensures forall f :: Uses(Just(prog, i), f, false) <==> f in PosFacts(prog, i)
    ensures forall f :: !Uses(Just(prog, i), f, true)
  {
    SupportsOf(prog, i);
    assert NegFacts(prog, i) == {};
    assert Holds(prog, i, model, model);
  }

  /** Every derived fact of the least model has a recorded proof: otherwise a smaller set would be closed. */
  lemma DerivedIsProved(prog: Program, edb: set<Triple>, derived: set<Triple>, items: seq<Justification>, f: Triple)
    requires Settled(prog, edb, derived, items) && f in derived
    ensures Proved(items, f)
  {
    var x := iset g | g in edb || (g in derived && Proved(items, g));
    forall i: Inst | IsInst(prog, i) && Within(PosFacts(prog, i), x) ensures HeadOf(prog, i) in x {
      ApplicationIsProof(prog, edb + derived, items, i);
      assert Within(PosFacts(prog, i), AsIset(edb + derived));
    }
    assert ClosedUnder(prog, x) && Within(edb, x);
    assert f in AsIset(edb + derived);
  }

  /** A delete-only commit meets what the cascade needs. */
  lemma SettledIsReady(prog: Program, edb: set<Triple>, derived: set<Triple>, items: seq<Justification>,
                       deleted: set<Triple>, entries: seq<Entry>)
    requires Settled(prog, edb, derived, items) && deleted <= edb && Touched(entries, Add) == deleted
    ensures Ready(items, edb - deleted, derived, entries)
  {
    forall f | f in derived ensures Proved(items, f) {
      DerivedIsProved(prog, edb, derived, items, f);
    }
    forall j, f | j in items && Uses(j, f, false) ensures f in (edb - deleted) + derived + deleted {
      var i := ProofsAreApplications(prog, edb + derived, items, j);
    }
  }

  /** What remains is closed under the rules. */
  lemma RemainderClosed(prog: Program, edb: set<Triple>, derived: set<Triple>, items: seq<Justification>,
                        deleted: set<Triple>, x: set<Triple>)
    requires Settled(prog, edb, derived, items) && deleted <= edb
    requires GreatestSupported(items, edb - deleted, {}, derived, x)
    ensures ClosedUnder(prog, AsIset((edb - deleted) + x))
  {
    var left := (edb - deleted) + x;
    forall i: Inst | IsInst(prog, i) && Within(PosFacts(prog, i), AsIset(left)) ensures HeadOf(prog, i) in left {
      HeadStays(prog, edb, derived, items, deleted, x, i);
    }
  }

  lemma HeadStays(prog: Program, edb: set<Triple>, derived: set<Triple>, items: seq<Justification>,
                  deleted: set<Triple>, x: set<Triple>, i: Inst)
    requires Settled(prog, edb, derived, items) && deleted <= edb
    requires GreatestSupported(items, edb - deleted, {}, derived, x)
    requires IsInst(prog, i) && PosFacts(prog, i) <= (edb - deleted) + x
    ensures HeadOf(prog, i) in x
  {
    hide Supported, Survives, PosFacts, HeadOf, Just;
    ApplicationIsProof(prog, edb + derived, items, i);
    HeadDerived(prog, edb, derived, i);
    SupportsPresent(Just(prog, i), PosFacts(prog, i), (edb - deleted) + x);
    StillSupported(items, edb - deleted, x, Just(prog, i));
    assert HeadOf(prog, i) in x + {HeadOf(prog, i)};
  }

  lemma SupportsPresent(j: Justification, supports: set<Triple>, present: set<Triple>)
    requires (forall f :: Uses(j, f, false) <==> f in supports) && supports <= present
    ensures Survives(j, present, {})
  {
  }

  lemma HeadDerived(prog: Program, edb: set<Triple>, derived: set<Triple>, i: Inst)
    requires E.WellFormed(prog, edb) && LeastModel(prog, edb, AsIset(edb + derived))
    requires IsInst(prog, i) && PosFacts(prog, i) <= edb + derived
    ensures HeadOf(prog, i) in derived
  {
    assert Within(PosFacts(prog, i), AsIset(edb + derived));
    SN.InstPreds(prog, i);
    assert prog[i.rule] in prog;
  }

  lemma StillSupported(items: seq<Justification>, asserted: set<Triple>, x: set<Triple>, j: Justification)
    requires Supported(items, asserted, {}, x) && j in items && Survives(j, asserted + x, {})
    ensures Supported(items, asserted, {}, x + {j.head})
  {
    forall f | f in x + {j.head}
      ensures exists k :: k in items && k.head == f && Survives(k, asserted + (x + {j.head}), {})
    {
      if f in x {
        var k :| k in items && k.head == f && Survives(k, asserted + x, {});
        assert Survives(k, asserted + (x + {j.head}), {});
      } else {
        assert Survives(j, asserted + (x + {j.head}), {});
      }
    }
  }

  lemma RemainingProofs(prog: Program, edb: set<Triple>, derived: set<Triple>, items: seq<Justification>,
                        left: set<Triple>, remaining: seq<Justification>)
    requires !Negated(prog) && E.ExactProofs(prog, edb + derived, items) && left <= edb + derived
    requires NoDup(remaining) && forall j :: j in remaining <==> j in items && Survives(j, left, {})
    ensures E.ExactProofs(prog, left, remaining)
  {
    forall j ensures j in remaining <==> exists i :: Holds(prog, i, left, left) && j == Just(prog, i) {
      if j in remaining {
        var i := ProofsAreApplications(prog, edb + derived, items, j);
        assert NegFacts(prog, i) == {};
        assert Holds(prog, i, left, left);
      } else if i :| Holds(prog, i, left, left) && j == Just(prog, i) {
        ApplicationIsProof(prog, edb + derived, items, i);
      }
    }
  }

  /** So the evaluation that follows the cascade has nothing to derive and nothing to record. */
  lemma RemainderSaturated(prog: Program, edb: set<Triple>, derived: set<Triple>, items: seq<Justification>,
                           deleted: set<Triple>, x: set<Triple>, remaining: seq<Justification>)
    requires Settled(prog, edb, derived, items) && deleted <= edb
    requires GreatestSupported(items, edb - deleted, {}, derived, x)
    requires E.ExactProofs(prog, (edb - deleted) + x, remaining)
    ensures R.Saturated(prog, (edb - deleted) + x, x, Elems(remaining))
  {
    hide Settled, GreatestSupported, HeadOf, Just;
    var left := (edb - deleted) + x;
    forall i | Holds(prog, i, left, left) ensures HeadOf(prog, i) in x && Just(prog, i) in Elems(remaining) {
      HeadStays(prog, edb, derived, items, deleted, x, i);
      assert Just(prog, i) in remaining;
    }
  }

  /** A rank under which each remaining fact has a surviving proof from lower ranked facts: no remaining fact
      lives only on proofs that go round in a circle. */
  ghost predicate WellFounded(items: seq<Justification>, asserted: set<Triple>, x: set<Triple>, rank: map<Triple, nat>) {
    && x <= rank.Keys
    && forall f | f in x :: exists j :: j in items && j.head == f && Survives(j, asserted + x, {}) && Lower(j, x, rank)
  }

  ghost predicate Lower(j: Justification, x: set<Triple>, rank: map<Triple, nat>)
    requires x <= rank.Keys
  {
    forall g | Uses(j, g, false) && g in x :: j.head in x && rank[g] < rank[j.head]
  }

  lemma {:induction false} RankedInModels(prog: Program, edb: set<Triple>, derived: set<Triple>, items: seq<Justification>,
                                          asserted: set<Triple>, x: set<Triple>, rank: map<Triple, nat>,
                                          model: iset<Triple>, f: Triple)
    requires Settled(prog, edb, derived, items) && WellFounded(items, asserted, x, rank)
    requires Within(asserted, model) && ClosedUnder(prog, model) && f in x
    ensures f in model
    decreases rank[f]
  {
    var j :| j in items && j.head == f && Survives(j, asserted + x, {}) && Lower(j, x, rank);
    var i := ProofsAreApplications(prog, edb + derived, items, j);
    forall g | g in PosFacts(prog, i) ensures g in model {
      if g in x {
        RankedInModels(prog, edb, derived, items, asserted, x, rank, model, g);
      }
    }
    assert Within(PosFacts(prog, i), model);
  }

  /** Facts of `x` proved within `n` rounds from the asserted ones. */
  ghost function Stage(items: seq<Justification>, asserted: set<Triple>, x: set<Triple>, n: nat): set<Triple> {
    if n == 0 then {}
    else set f | f in x && ProvedFrom(items, asserted + Stage(items, asserted, x, n - 1), f)
  }

  ghost predicate ProvedFrom(items: seq<Justification>, present: set<Triple>, f: Triple) {
    exists j :: j in items && j.head == f && Survives(j, present, {})
  }

  lemma {:induction false} StageGrows(items: seq<Justification>, asserted: set<Triple>, x: set<Triple>, m: nat, n: nat)
    requires m <= n
    ensures Stage(items, asserted, x, m) <= Stage(items, asserted, x, n) <= x
  {
    if m > 0 {
      StageGrows(items, asserted, x, m - 1, n - 1);
      forall f | f in Stage(items, asserted, x, m) ensures f in Stage(items, asserted, x, n) {
        var j :| j in items && j.head == f && Survives(j, asserted + Stage(items, asserted, x, m - 1), {});
        assert Survives(j, asserted + Stage(items, asserted, x, n - 1), {});
      }
    }
  }

  ghost predicate Reached(items: seq<Justification>, asserted: set<Triple>, x: set<Triple>, f: Triple) {
    exists n: nat :: f in Stage(items, asserted, x, n)
  }

  /** Finitely many reached facts are reached together. */
  lemma {:induction false} ReachedTogether(items: seq<Justification>, asserted: set<Triple>, x: set<Triple>,
                                           facts: set<Triple>) returns (n: nat)
    requires forall f | f in facts :: f in asserted || Reached(items, asserted, x, f)
    ensures facts <= asserted + Stage(items, asserted, x, n)
    decreases facts
  {
    if facts == {} { return 0; }
    var f :| f in facts;
    var m := ReachedTogether(items, asserted, x, facts - {f});
    assert facts == (facts - {f}) + {f};
    if f in asserted { return m; }
    var k: nat :| f in Stage(items, asserted, x, k);
    n := if m < k then k else m;
    StageGrows(items, asserted, x, m, n);
    StageGrows(items, asserted, x, k, n);
  }

  /** If the remainder is the least model, every fact of it is reached. */
  lemma LeastIsReached(prog: Program, edb: set<Triple>, derived: set<Triple>, items: seq<Justification>,
                       asserted: set<Triple>, x: set<Triple>)
    requires Settled(prog, edb, derived, items) && asserted <= edb && x <= derived
    requires LeastModel(prog, asserted, AsIset(asserted + x))
    ensures forall f | f in x :: Reached(items, asserted, x, f)
  {
    var reached := iset f | f in asserted || Reached(items, asserted, x, f);
    forall i: Inst | IsInst(prog, i) && Within(PosFacts(prog, i), reached) ensures HeadOf(prog, i) in reached {
      var n := ReachedTogether(items, asserted, x, PosFacts(prog, i));
      StageGrows(items, asserted, x, n, n);
      ApplicationIsProof(prog, edb + derived, items, i);
      assert Within(PosFacts(prog, i), AsIset(asserted + x));
      var h := HeadOf(prog, i);
      assert h in asserted + x;
      assert Survives(Just(prog, i), asserted + Stage(items, asserted, x, n), {});
      if h in x { assert h in Stage(items, asserted, x, n + 1); }
    }
    assert ClosedUnder(prog, reached) && Within(asserted, reached);
    forall f | f in x ensures Reached(items, asserted, x, f) {
      assert f in AsIset(asserted + x) && f in reached;
      assert f !in asserted;
    }
  }

  ghost predicate IsFirstStage(items: seq<Justification>, asserted: set<Triple>, x: set<Triple>, f: Triple, m: nat) {
    0 < m && f in Stage(items, asserted, x, m) && f !in Stage(items, asserted, x, m - 1)
  }

  lemma {:induction false} FirstStage(items: seq<Justification>, asserted: set<Triple>, x: set<Triple>, f: Triple, n: nat)
    returns (m: nat)
    requires f in Stage(items, asserted, x, n)
    ensures IsFirstStage(items, asserted, x, f, m)
  {
    if f in Stage(items, asserted, x, n - 1) {
      m := FirstStage(items, asserted, x, f, n - 1);
    } else {
      m := n;
    }
  }

  lemma RankedProof(items: seq<Justification>, asserted: set<Triple>, x: set<Triple>, f: Triple, rank: map<Triple, nat>)
    requires x <= rank.Keys && forall g | g in x :: IsFirstStage(items, asserted, x, g, rank[g])
    requires f in x && asserted !! x
    ensures exists j :: j in items && j.head == f && Survives(j, asserted + x, {}) && Lower(j, x, rank)
  {
    hide Stage;
    var m := rank[f];
    var before := Stage(items, asserted, x, m - 1);
    StageGrows(items, asserted, x, m - 1, m - 1);
    StageStep(items, asserted, x, m, f);
    var j :| j in items && j.head == f && Survives(j, asserted + before, {});
    forall g | Uses(j, g, false) && g in x ensures rank[g] < m {
      assert g in before;
      if rank[g] >= m {
        StageGrows(items, asserted, x, m - 1, rank[g] - 1);
      }
    }
    assert Survives(j, asserted + x, {});
  }

  lemma StageStep(items: seq<Justification>, asserted: set<Triple>, x: set<Triple>, m: nat, f: Triple)
    requires 0 < m && f in Stage(items, asserted, x, m)
    ensures ProvedFrom(items, asserted + Stage(items, asserted, x, m - 1), f)
  {
  }

  lemma ReachedIsRanked(items: seq<Justification>, asserted: set<Triple>, x: set<Triple>) returns (rank: map<Triple, nat>)
    requires asserted !! x
    requires forall f | f in x :: Reached(items, asserted, x, f)
    ensures WellFounded(items, asserted, x, rank)
  {
    hide Stage, Survives, Lower;
    rank := map[];
    var rest := x;
    while rest != {}
      invariant rest <= x && rank.Keys == x - rest
      invariant forall g | g in rank :: IsFirstStage(items, asserted, x, g, rank[g])
      decreases rest
    {
      var f :| f in rest;
      var n: nat :| f in Stage(items, asserted, x, n);
      var m := FirstStage(items, asserted, x, f, n);
      rank, rest := rank[f := m], rest - {f};
    }
    forall f | f in x
      ensures exists j :: j in items && j.head == f && Survives(j, asserted + x, {}) && Lower(j, x, rank)
    {
      RankedProof(items, asserted, x, f, rank);
    }
  }

  /** The cascade reaches the least model of the reduced facts exactly when the proofs that remain are well
      founded. */
  lemma LeastIffWellFounded(prog: Program, edb: set<Triple>, derived: set<Triple>, items: seq<Justification>,
                            deleted: set<Triple>, x: set<Triple>)
    requires Settled(prog, edb, derived, items) && deleted <= edb
    requires GreatestSupported(items, edb - deleted, {}, derived, x)
    ensures LeastModel(prog, edb - deleted, AsIset((edb - deleted) + x)) <==>
            exists rank :: WellFounded(items, edb - deleted, x, rank)
  {
    var asserted := edb - deleted;
    if LeastModel(prog, asserted, AsIset(asserted + x)) {
      LeastIsReached(prog, edb, derived, items, asserted, x);
      var rank := ReachedIsRanked(items, asserted, x);
    }
    if rank :| WellFounded(items, asserted, x, rank) {
      RemainderClosed(prog, edb, derived, items, deleted, x);
      forall model: iset<Triple> | Within(asserted, model) && ClosedUnder(prog, model)
        ensures AsIset(asserted + x) <= model
      {
        forall f | f in x ensures f in model {
          RankedInModels(prog, edb, derived, items, asserted, x, rank, model, f);
        }
      }
    }
  }

  /** A derived fact that the reduced asserted facts still prove, step by step. */
  ghost function StillReached(items: seq<Justification>, asserted: set<Triple>, derived: set<Triple>): set<Triple> {
    set f | f in derived && Reached(items, asserted, derived, f)
  }

  /** The facts of `u` are cut off from the asserted ones and prove each other. */
  ghost predicate Circular(items: seq<Justification>, asserted: set<Triple>, derived: set<Triple>, u: set<Triple>) {
    && u <= derived && u != {} && u !! StillReached(items, asserted, derived)
    && forall f | f in u :: ProvedFrom(items, asserted + (StillReached(items, asserted, derived) + u), f)
  }

  lemma {:induction false} StageWithin(items: seq<Justification>, asserted: set<Triple>, x: set<Triple>, y: set<Triple>, n: nat)
    requires Stage(items, asserted, x, n) <= y
    ensures Stage(items, asserted, x, n) <= Stage(items, asserted, y, n)
  {
    if n > 0 {
      StageGrows(items, asserted, x, n - 1, n);
      StageWithin(items, asserted, x, y, n - 1);
      forall f | f in Stage(items, asserted, x, n) ensures f in Stage(items, asserted, y, n) {
        ProvedFromMore(items, asserted + Stage(items, asserted, x, n - 1), asserted + Stage(items, asserted, y, n - 1), f);
      }
    }
  }

  lemma ProvedFromMore(items: seq<Justification>, a: set<Triple>, b: set<Triple>, f: Triple)
    requires ProvedFrom(items, a, f) && a <= b
    ensures ProvedFrom(items, b, f)
  {
    var j :| j in items && j.head == f && Survives(j, a, {});
    assert Survives(j, b, {});
  }

  lemma SupportedIsProved(items: seq<Justification>, asserted: set<Triple>, x: set<Triple>)
    ensures Supported(items, asserted, {}, x) <==> forall f | f in x :: ProvedFrom(items, asserted + x, f)
  {
  }

  /** The facts still reached support themselves, so the cascade keeps them. */
  lemma ReachedIsKept(items: seq<Justification>, asserted: set<Triple>, derived: set<Triple>, x: set<Triple>)
    requires GreatestSupported(items, asserted, {}, derived, x)
    ensures Supported(items, asserted, {}, StillReached(items, asserted, derived))
    ensures StillReached(items, asserted, derived) <= x
  {
    var reached := StillReached(items, asserted, derived);
    forall f | f in reached ensures ProvedFrom(items, asserted + reached, f) {
      var n: nat :| f in Stage(items, asserted, derived, n);
      StageStep(items, asserted, derived, n, f);
      StageGrows(items, asserted, derived, n - 1, n);
      ProvedFromMore(items, asserted + Stage(items, asserted, derived, n - 1), asserted + reached, f);
    }
    SupportedIsProved(items, asserted, reached);
  }

  /** What the cascade keeps beyond them is circular, and anything circular is kept. */
  lemma KeptBeyondReached(items: seq<Justification>, asserted: set<Triple>, derived: set<Triple>, x: set<Triple>)
    requires GreatestSupported(items, asserted, {}, derived, x)
    ensures x == StillReached(items, asserted, derived) <==> forall u :: !Circular(items, asserted, derived, u)
  {
    hide ProvedFrom, StillReached, Supported;
    var reached := StillReached(items, asserted, derived);
    ReachedIsKept(items, asserted, derived, x);
    SupportedIsProved(items, asserted, x);
    SupportedIsProved(items, asserted, reached);
    if x != reached {
      assert reached + (x - reached) == x;
      assert Circular(items, asserted, derived, x - reached);
    }
    forall u | Circular(items, asserted, derived, u) ensures x != reached {
      forall f | f in reached ensures ProvedFrom(items, asserted + (reached + u), f) {
        ProvedFromMore(items, asserted + reached, asserted + (reached + u), f);
      }
      SupportedIsProved(items, asserted, reached + u);
      ReachedInDerived(items, asserted, derived);
      assert reached + u <= x;
    }
  }

  lemma ReachedInDerived(items: seq<Justification>, asserted: set<Triple>, derived: set<Triple>)
    ensures StillReached(items, asserted, derived) <= derived
  {
  }

  /** Retraction reaches the least model of the reduced facts exactly when no set of derived facts that is cut off from
      them proves itself. */
  lemma LeastIffNoCircle(prog: Program, edb: set<Triple>, derived: set<Triple>, items: seq<Justification>,
                         deleted: set<Triple>, x: set<Triple>)
    requires Settled(prog, edb, derived, items) && deleted <= edb
    requires GreatestSupported(items, edb - deleted, {}, derived, x)
    ensures LeastModel(prog, edb - deleted, AsIset((edb - deleted) + x)) <==>
            forall u :: !Circular(items, edb - deleted, derived, u)
  {
    hide Circular, LeastModel, Stage, WellFounded, GreatestSupported;
    var asserted := edb - deleted;
    var reached := StillReached(items, asserted, derived);
    Below(items, asserted, derived, x);
    ReachedIsKept(items, asserted, derived, x);
    KeptBeyondReached(items, asserted, derived, x);
    LeastIffWellFounded(prog, edb, derived, items, deleted, x);
    if LeastModel(prog, asserted, AsIset(asserted + x)) {
      LeastIsReached(prog, edb, derived, items, asserted, x);
      forall f | f in x ensures f in reached {
        var n: nat :| f in Stage(items, asserted, x, n);
        StageGrows(items, asserted, x, n, n);
        StageWithin(items, asserted, x, derived, n);
      }
    }
    if x == reached {
      forall f | f in x ensures Reached(items, asserted, x, f) {
        var n: nat :| f in Stage(items, asserted, derived, n);
        StageInReached(items, asserted, derived, n);
        StageWithin(items, asserted, derived, x, n);
      }
      var rank := ReachedIsRanked(items, asserted, x);
    }
  }

  lemma StageInReached(items: seq<Justification>, asserted: set<Triple>, derived: set<Triple>, n: nat)
    ensures Stage(items, asserted, derived, n) <= StillReached(items, asserted, derived)
  {
    StageGrows(items, asserted, derived, n, n);
  }

  /** No proof of the whole recorded graph leads back to its own conclusion. */
  ghost predicate Acyclic(items: seq<Justification>, derived: set<Triple>, rank: map<Triple, nat>) {
    && derived <= rank.Keys
    && forall j, g | j in items && Uses(j, g, false) && g in derived :: j.head in derived && rank[g] < rank[j.head]
  }

  /** So on an acyclic graph it always does. */
  lemma AcyclicIsWellFounded(items: seq<Justification>, asserted: set<Triple>, derived: set<Triple>, x: set<Triple>,
                             rank: map<Triple, nat>)
    requires Acyclic(items, derived, rank) && GreatestSupported(items, asserted, {}, derived, x)
    ensures WellFounded(items, asserted, x, rank)
  {
    forall f | f in x
      ensures exists j :: j in items && j.head == f && Survives(j, asserted + x, {}) && Lower(j, x, rank)
    {
      var j :| j in items && j.head == f && Survives(j, asserted + x, {});
      assert Lower(j, x, rank);
    }
  }

  /** reactive_tx_listener for a delete-only commit of a negation-free program: `main` has already lost the deleted
      facts. The cascade is followed by an evaluation, which leaves everything as the cascade left it. */
  method OnDelete(prog: Program, main: Facts, entries: seq<Entry>, graph: JustificationGraph, ghost edb: set<Triple>)
    returns (result: int, current: JustificationGraph)
    requires Settled(prog, edb, main.derived, graph.items)
    requires forall e | e in entries :: e.action == Add
    requires Touched(entries, Add) <= edb && main.asserted == edb - Touched(entries, Add)
    modifies main`derived
    ensures result == if entries != [] && E.CannotEvaluate(prog) then -1 else 0
    ensures GreatestSupported(graph.items, main.asserted, {}, old(main.derived), main.derived)
    ensures ClosedUnder(prog, AsIset(main.Visible()))
    ensures if result == 0 then E.ExactProofs(prog, main.Visible(), current.items) else current == graph
    ensures LeastModel(prog, main.asserted, AsIset(main.Visible())) <==>
            forall u :: !Circular(graph.items, main.asserted, old(main.derived), u)
    ensures (exists rank :: Acyclic(graph.items, old(main.derived), rank)) ==>
            LeastModel(prog, main.asserted, AsIset(main.Visible()))
  {
    hide Ready, GreatestSupported, Acyclic, WellFounded, LeastModel, ClosedUnder, Circular, Survives, E.EvaluatedFrom,
         E.CannotEvaluate, E.Evaluated, R.Saturated;
    ghost var derived, deleted := main.derived, Touched(entries, Add);
    SettledIsReady(prog, edb, derived, graph.items, deleted, entries);
    var staging := graph.Clone();
    var scan := Invalidate(main, staging, entries);
    assert Touched(entries, Remove) == {};
    if entries != [] { assert entries[0].fact in deleted; }
    ghost var x := main.derived;
    RemainderClosed(prog, edb, derived, graph.items, deleted, x);
    LeastIffNoCircle(prog, edb, derived, graph.items, deleted, x);
    if rank :| Acyclic(graph.items, derived, rank) {
      AcyclicIsWellFounded(graph.items, main.asserted, derived, x, rank);
      LeastIffWellFounded(prog, edb, derived, graph.items, deleted, x);
    }
    assert x <= derived by { Below(graph.items, main.asserted, derived, x); }
    RemainingProofs(prog, edb, derived, graph.items, main.Visible(), staging.items);
    if !scan { return 0, staging; }
    RemainderSaturated(prog, edb, derived, graph.items, deleted, x, staging.items);
    ghost var items := staging.items;
    result := EvaluateSettled(prog, main, staging);
    if result == 0 {
      SameProofs(prog, main.Visible(), items, staging.items);
      current := staging;
    } else {
      current := graph;
    }
  }

  /** Evaluating a saturated state. */
  method EvaluateSettled(prog: Program, main: Facts, staging: JustificationGraph) returns (result: int)
    requires E.SafeRules(prog) && NoDup(staging.items)
    requires R.Saturated(prog, main.Visible(), main.derived, Elems(staging.items))
    modifies main`derived, staging
    ensures main.derived == old(main.derived)
    ensures result == if E.CannotEvaluate(prog) then -1 else 0
    ensures result == 0 ==> NoDup(staging.items) && Elems(staging.items) == old(Elems(staging.items))
  {
    hide R.Saturated, E.EvaluatedFrom, E.CannotEvaluate, E.Evaluated;
    ghost var derived, items := main.derived, Elems(staging.items);
    ghost var fired;
    result, fired := E.Eval(prog, main, staging);
    if result >= 0 { R.OverSaturated(prog, main.asserted, derived, main.derived, fired, items); }
  }

  lemma SameProofs(prog: Program, model: set<Triple>, items: seq<Justification>, after: seq<Justification>)
    requires E.ExactProofs(prog, model, items) && NoDup(after) && Elems(after) == Elems(items)
    ensures E.ExactProofs(prog, model, after)
  {
    assert forall j :: j in after <==> j in items by {
      forall j ensures j in after <==> j in items {
        assert j in after <==> j in Elems(after);
        assert j in items <==> j in Elems(items);
      }
    }
  }

  lemma Below(items: seq<Justification>, asserted: set<Triple>, derived: set<Triple>, x: set<Triple>)
    requires GreatestSupported(items, asserted, {}, derived, x)
    ensures x <= derived
  {
  }

  // ---- proofs that go round in a circle ----

  function GroundRule(head: string, body: string): Rule {
    Rule(R.Ground(head), [R.Positive(body)])
  }

  /** p :- e.  q :- p.  p :- q. */
  function Circle(): Program {
    [GroundRule("p", "e"), GroundRule("q", "p"), GroundRule("p", "q")]
  }

  function CircleProofs(): seq<Justification> {
    [Just(Circle(), Inst(0, map[])), Just(Circle(), Inst(1, map[])), Just(Circle(), Inst(2, map[]))]
  }

  lemma CircleInst(i: Inst)
    ensures IsInst(Circle(), i) <==> i == Inst(0, map[]) || i == Inst(1, map[]) || i == Inst(2, map[])
    ensures HeadOf(Circle(), Inst(0, map[])) == R.Ground("p") && PosFacts(Circle(), Inst(0, map[])) == {R.Ground("e")}
    ensures HeadOf(Circle(), Inst(1, map[])) == R.Ground("q") && PosFacts(Circle(), Inst(1, map[])) == {R.Ground("p")}
    ensures HeadOf(Circle(), Inst(2, map[])) == R.Ground("p") && PosFacts(Circle(), Inst(2, map[])) == {R.Ground("q")}
    ensures forall r | 0 <= r < 3 :: NegFacts(Circle(), Inst(r, map[])) == {}
  {
    var prog := Circle();
    assert prog[0].body[0].atom == R.Ground("e") && prog[1].body[0].atom == R.Ground("p") && prog[2].body[0].atom == R.Ground("q");
    assert forall r | 0 <= r < 3 :: |prog[r].body| == 1 && !prog[r].body[0].negated && PosVars(prog[r].body) == {};
    if i.rule < 3 && i.b.Keys == {} { assert i.b == map[]; }
    forall r | 0 <= r < 3 ensures PosFacts(prog, Inst(r, map[])) == {prog[r].body[0].atom} {
      assert Apply(prog[r].body[0].atom, map[]) == prog[r].body[0].atom;
    }
  }

  lemma CircleProof(j: Justification, r: nat)
    requires r < 3 && j == Just(Circle(), Inst(r, map[]))
    ensures j.head == HeadOf(Circle(), Inst(r, map[]))
    ensures forall f :: Uses(j, f, false) <==> f in PosFacts(Circle(), Inst(r, map[]))
    ensures forall f :: !Uses(j, f, true)
  {
    SupportsOf(Circle(), Inst(r, map[]));
  }

  lemma CircleModel()
    ensures LeastModel(Circle(), {R.Ground("e")}, AsIset({R.Ground("e"), R.Ground("p"), R.Ground("q")}))
    ensures !LeastModel(Circle(), {}, AsIset({R.Ground("p"), R.Ground("q")}))
  {
    forall i { CircleInst(i); }
    var m := AsIset({R.Ground("e"), R.Ground("p"), R.Ground("q")});
    forall x: iset<Triple> | Within({R.Ground("e")}, x) && ClosedUnder(Circle(), x) ensures m <= x {
      assert HeadOf(Circle(), Inst(0, map[])) in x;
      assert HeadOf(Circle(), Inst(1, map[])) in x;
    }
    var none: iset<Triple> := iset{};
    assert Within({}, none) && ClosedUnder(Circle(), none);
    assert R.Ground("p") in AsIset({R.Ground("p"), R.Ground("q")}) && R.Ground("p") !in none;
  }

  lemma CircleExact()
    ensures E.ExactProofs(Circle(), {R.Ground("e"), R.Ground("p"), R.Ground("q")}, CircleProofs())
  {
    var model := {R.Ground("e"), R.Ground("p"), R.Ground("q")};
    forall j ensures j in CircleProofs() <==> exists i :: Holds(Circle(), i, model, model) && j == Just(Circle(), i) {
      forall i { CircleInst(i); }
      forall r | 0 <= r < 3 ensures Holds(Circle(), Inst(r, map[]), model, model) {
      }
    }
  }

  lemma CircleSupports()
    ensures Supported(CircleProofs(), {}, {}, {R.Ground("p"), R.Ground("q")})
  {
    hide Just, HeadOf, PosFacts, Uses;
    var x := {R.Ground("p"), R.Ground("q")};
    var q, p := Just(Circle(), Inst(1, map[])), Just(Circle(), Inst(2, map[]));
    assert q == CircleProofs()[1] && p == CircleProofs()[2];
    CircleInst(Inst(0, map[]));
    CircleProof(q, 1);
    CircleProof(p, 2);
    assert Survives(q, {} + x, {}) && Survives(p, {} + x, {});
  }

  lemma CircleWellFormed()
    ensures E.WellFormed(Circle(), {R.Ground("e")}) && !Negated(Circle())
  {
    var prog := Circle();
    forall r | r in prog ensures r.head.p in {Constant("p"), Constant("q")} && Safe(r) && !r.body[0].atom.p.Variable? {
      GroundRuleSafe(r);
    }
  }

  lemma GroundRuleSafe(r: Rule)
    requires exists head, body :: r == GroundRule(head, body)
    ensures Safe(r)
  {
  }

  /** Deleting the only asserted fact leaves two facts that prove each other: the cascade keeps both, although
      the least model is then empty. */
  lemma CircleOutlivesItsSupport()
    ensures Settled(Circle(), {R.Ground("e")}, {R.Ground("p"), R.Ground("q")}, CircleProofs())
    ensures GreatestSupported(CircleProofs(), {}, {}, {R.Ground("p"), R.Ground("q")}, {R.Ground("p"), R.Ground("q")})
    ensures !LeastModel(Circle(), {}, AsIset({R.Ground("p"), R.Ground("q")}))
  {
    hide Supported, Circle, CircleProofs, E.WellFormed, Negated, LeastModel, E.ExactProofs;
    CircleModel();
    CircleExact();
    CircleSupports();
    CircleWellFormed();
    assert {R.Ground("e")} + {R.Ground("p"), R.Ground("q")} == {R.Ground("e"), R.Ground("p"), R.Ground("q")};
  }
}
