/** The tuple space: a multiset of tuples over a store that is a set (lib/linda.c). */
module Linda {
  import opened Symbols
  import opened Hexastores
  import opened Journal
  import opened Stores

  datatype Pattern = Pattern(s: string, p: string, o: string)

  predicate IsVariable(term: string) {
    term != "" && term[0] == '?'
  }

  /** Texts for variables. */
  type Assignment = map<string, string>

  function Substituted(term: string, a: Assignment): string {
    if IsVariable(term) && term in a then a[term] else term
  }

  function Instance(pattern: Pattern, a: Assignment): Triple {
    Triple(Substituted(pattern.s, a), Substituted(pattern.p, a), Substituted(pattern.o, a))
  }

  function PatternVariables(pattern: Pattern): set<string> {
    set term | term in {pattern.s, pattern.p, pattern.o} && IsVariable(term)
  }

  ghost predicate Assigns(pattern: Pattern, a: Assignment, t: Triple) {
    PatternVariables(pattern) <= a.Keys && Instance(pattern, a) == t
  }

  /** Some texts for the pattern's variables turn it into the tuple. */
  ghost predicate Matches(pattern: Pattern, t: Triple) {
    exists a: Assignment :: Assigns(pattern, a, t)
  }

  predicate Agrees(term: string, value: string) {
    IsVariable(term) || term == value
  }

  /** What match_and_extract compares: constants with their columns, and the columns of a repeated variable. */
  predicate TermsMatch(pattern: Pattern, t: Triple) {
    && Agrees(pattern.s, t.s) && Agrees(pattern.p, t.p) && Agrees(pattern.o, t.o)
    && (IsVariable(pattern.s) && pattern.s == pattern.p ==> t.s == t.p)
    && (IsVariable(pattern.s) && pattern.s == pattern.o ==> t.s == t.o)
    && (IsVariable(pattern.p) && pattern.p == pattern.o ==> t.p == t.o)
  }

  lemma TermsMatchIff(pattern: Pattern, t: Triple)
    ensures TermsMatch(pattern, t) <==> Matches(pattern, t)
  {
    if TermsMatch(pattern, t) {
      assert Assigns(pattern, map[pattern.o := t.o, pattern.p := t.p, pattern.s := t.s], t);
    }
  }

  /** A pattern with one variable twice asks for equal columns. */
  lemma RepeatedVariable(a: string, b: string)
    ensures Matches(Pattern("?x", "knows", "?x"), Triple(a, "knows", b)) <==> a == b
  {
    TermsMatchIff(Pattern("?x", "knows", "?x"), Triple(a, "knows", b));
  }

  const SIZE_MAX := 0xFFFF_FFFF_FFFF_FFFF

  type Overlay = map<Fact, nat>

  /** How often an asserted fact occurs: once, unless the overlay says more. */
  function Occurrences(overlay: Overlay, f: Fact): nat {
    if f in overlay then overlay[f] else 1
  }

  /** Overlay entries count at least two over asserted facts, and `tuples` is the visible multiset. */
  ghost predicate Represents(facts: Facts, overlay: Overlay, tuples: multiset<Triple>) {
    && (forall f | f in overlay :: overlay[f] >= 2 && IsAsserted(facts, f))
    && (forall f | IsAsserted(facts, f) :: tuples[Texts(f)] == Occurrences(overlay, f))
    && forall t | t in tuples :: t in AssertedTexts(facts)
  }

  lemma Unchanged(before: Facts, after: Facts, overlay: Overlay, tuples: multiset<Triple>)
    requires Represents(before, overlay, tuples) && SameAsserted(before, after)
    ensures Represents(after, overlay, tuples)
  {
    forall t | t in tuples ensures t in AssertedTexts(after) {
      var f :| f in before && before[f].asserted && Texts(f) == t;
      assert IsAsserted(before, f) && IsAsserted(after, f);
    }
  }

  /** A first occurrence. */
  lemma Arrives(entries: map<string, Interned>, before: Facts, after: Facts, overlay: Overlay, tuples: multiset<Triple>,
                f: Fact)
    requires Represents(before, overlay, tuples) && AllLive(entries, before) && FactLive(entries, f)
    requires !IsAsserted(before, f) && IsAsserted(after, f) && forall g | g != f :: IsAsserted(before, g) == IsAsserted(after, g)
    ensures Represents(after, overlay, tuples + multiset{Texts(f)})
  {
    hide FactLive;
    AssertedChange(entries, before, after, f);
    forall g | IsAsserted(before, g) ensures Texts(g) != Texts(f) { SameTexts(entries, f, g); }
    assert Texts(f) !in tuples;
    forall g | IsAsserted(after, g) ensures (tuples + multiset{Texts(f)})[Texts(g)] == Occurrences(overlay, g) {
      if g != f { assert IsAsserted(before, g); }
    }
  }

  /** The only occurrence goes. */
  lemma Leaves(entries: map<string, Interned>, before: Facts, after: Facts, overlay: Overlay, tuples: multiset<Triple>,
               f: Fact)
    requires Represents(before, overlay, tuples) && AllLive(entries, before) && f !in overlay
    requires IsAsserted(before, f) && !IsAsserted(after, f) && forall g | g != f :: IsAsserted(before, g) == IsAsserted(after, g)
    ensures Texts(f) in tuples && Represents(after, overlay, tuples - multiset{Texts(f)})
  {
    hide FactLive;
    AssertedChange(entries, before, after, f);
    forall g | IsAsserted(after, g) ensures Texts(g) != Texts(f) {
      assert IsAsserted(before, g);
      SameTexts(entries, f, g);
    }
    forall g | g in overlay ensures IsAsserted(after, g) { assert IsAsserted(before, g); }
    assert tuples[Texts(f)] == 1;
    forall t | t in tuples - multiset{Texts(f)} ensures t in AssertedTexts(after) {
      OthersStay(tuples, Texts(f), t);
    }
    forall g | IsAsserted(after, g) ensures (tuples - multiset{Texts(f)})[Texts(g)] == Occurrences(overlay, g) {
      OthersStay(tuples, Texts(f), Texts(g));
    }
  }

  lemma OthersStay(tuples: multiset<Triple>, gone: Triple, t: Triple)
    requires tuples[gone] == 1
    ensures t in tuples - multiset{gone} <==> t in tuples && t != gone
    ensures t != gone ==> (tuples - multiset{gone})[t] == tuples[t]
  {
  }

  /** One occurrence more or less of a fact that stays: only the overlay changes. */
  lemma Recounted(entries: map<string, Interned>, facts: Facts, overlay: Overlay, after: Overlay, tuples: multiset<Triple>,
                  f: Fact, tuplesAfter: multiset<Triple>)
    requires Represents(facts, overlay, tuples) && AllLive(entries, facts) && IsAsserted(facts, f)
    requires forall g | g != f :: (g in after <==> g in overlay) && Occurrences(after, g) == Occurrences(overlay, g)
    requires f in after ==> after[f] >= 2
    requires tuplesAfter == tuples[Texts(f) := Occurrences(after, f)] && Occurrences(after, f) > 0
    ensures Represents(facts, after, tuplesAfter)
  {
    hide FactLive;
    forall g | IsAsserted(facts, g) ensures tuplesAfter[Texts(g)] == Occurrences(after, g) {
      SameTexts(entries, f, g);
    }
    forall g | g in after ensures after[g] >= 2 && IsAsserted(facts, g) {
      if g != f {
        assert g in overlay;
        assert Occurrences(after, g) == overlay[g];
      }
    }
    forall t | t in tuplesAfter ensures t in AssertedTexts(facts) {
      if t == Texts(f) { assert f in facts; } else { assert t in tuples; }
    }
  }

  class Space {
    const db: Store
    /** Counts above the store's one occurrence. */
    var overlay: Overlay
    ghost var tuples: multiset<Triple>
    /** References that belong neither to the store nor to the overlay. */
    ghost var others: multiset<string>

    ghost predicate Valid()
      reads this, db, db.symbols, db.hexastore
    {
      && db.Valid() && db.level == 0 && Represents(db.facts, overlay, tuples)
      && db.outside == others + StoredRefs(overlay.Keys)
    }

    constructor ()
      ensures Valid() && tuples == multiset{} && fresh(db) && fresh(db.symbols) && fresh(db.hexastore)
    {
      db := new Store();
      overlay, tuples, others := map[], multiset{}, multiset{};
    }

    /** The state inside an operation's transaction. */
    ghost predicate Open()
      reads this, db, db.symbols, db.hexastore
    {
      db.Valid() && db.level == 1 && db.outside == others + StoredRefs(overlay.Keys)
    }

    /** linda_entry_add */
    method EntryAdd(f: Fact, count: nat, memory: bool) returns (ok: bool)
      requires Open() && f in db.facts && f !in overlay
      modifies `overlay, db.symbols, db`outside
      ensures Open() && ok == memory && overlay == if ok then old(overlay)[f := count] else old(overlay)
    {
      hide Consistent, Logged, Undoes, Indexes, Refs, Live;
      if !memory { return false; }
      Liveness(db.facts, db.undo, db.symbols.entries, db.symbols.nextId, db.outside);
      NothingNew(db.symbols.entries, f);
      var ok0, held, left := db.Hold(f.s.text, f.p.text, f.o.text, 0);
      SameTexts(db.symbols.entries, held, f);
      OverlayMore(overlay, f, count, others);
      overlay := overlay[f := count];
      ok := true;
    }

    /** linda_entry_remove */
    method EntryRemove(f: Fact)
      requires Open() && f in overlay
      modifies `overlay, db.symbols, db`outside
      ensures Open() && overlay == old(overlay) - {f}
    {
      hide Consistent, Logged, Undoes, Indexes, Refs, Live;
      OverlayLess(overlay, f, others);
      overlay := overlay - {f};
      db.Release(f);
    }

    /** entry->count becomes `count`. */
    method SetCount(f: Fact, count: nat)
      requires Open() && f in overlay
      modifies `overlay
      ensures Open() && overlay == old(overlay)[f := count]
    {
      hide Consistent, Logged, Undoes, Indexes;
      SameKeys(overlay, f, count);
      overlay := overlay[f := count];
    }

    /** The duplicate branch of linda_out on the overlay. */
    method CountUp(f: Fact, memory: bool) returns (ok: bool)
      requires Open() && f in db.facts
      modifies `overlay, db.symbols, db`outside
      ensures Open() && overlay == if ok then old(overlay)[f := OneMore(old(overlay), f)] else old(overlay)
      ensures ok == if f in old(overlay) then old(overlay)[f] != SIZE_MAX else memory
    {
      hide Open;
      ok := true;
      if f in overlay {
        if overlay[f] == SIZE_MAX { return false; }
        SetCount(f, overlay[f] + 1);
      } else {
        ok := EntryAdd(f, 2, memory);
      }
    }

    /** Adding a stored fact again, and counting it. */
    method AddAgain(s: string, p: string, o: string, f: Fact, room: nat) returns (ok: bool)
      requires Open() && IsAsserted(db.facts, f) && Texts(f) == Triple(s, p, o)
      modifies `overlay, db, db.symbols, db.hexastore
      ensures Open() && db.facts == old(db.facts) && db.undo == old(db.undo) && db.snapshot == old(db.snapshot)
      ensures overlay == if ok then old(overlay)[f := OneMore(old(overlay), f)] else old(overlay)
      ensures ok == if f in old(overlay) then old(overlay)[f] != SIZE_MAX else room >= 1
    {
      hide Consistent, Logged, Undoes, Indexes, FactLive, Texts, NewTexts;
      AddedNothing(db.facts, f);
      var added, g := db.AddSpo(s, p, o, Asserted, room);
      ok := CountUp(f, room >= 1);
    }

    /** linda_out: one more occurrence of the tuple, or none if memory or the commit's listener fails. */
    method Out(s: string, p: string, o: string, room: nat, listener: seq<Op>, listenerOk: bool) returns (ok: bool)
      requires Valid() && DerivedOnly(listener) && StaysOpen(listener, 1)
      modifies this, db, db.symbols, db.hexastore
      ensures Valid() && others == old(others)
      ensures tuples == if ok then old(tuples) + multiset{Triple(s, p, o)} else old(tuples)
      ensures ok == CanOut(old(tuples), old(db.facts), old(db.symbols.entries), s, p, o, room, listenerOk)
    {
      hide Represents, Consistent, Logged, Undoes, Indexes, StaysOpen, DerivedOnly, FactLive, SameAsserted, Texts, NewTexts;
      var existed, known := db.Lookup(s, p, o);
      Present(db.facts, overlay, tuples, Triple(s, p, o));
      if existed && db.facts[known].asserted {
        ok := OutAgain(s, p, o, known, room, listener, listenerOk);
      } else {
        ok := OutNew(s, p, o, room, listener, listenerOk);
      }
    }

    /** linda_out on a tuple that is there: the store does not change, its undo log stays empty, so the commit
        runs no listener and cannot fail after the overlay has changed. */
    method OutAgain(s: string, p: string, o: string, f: Fact, room: nat, listener: seq<Op>, listenerOk: bool)
      returns (ok: bool)
      requires Valid() && DerivedOnly(listener) && StaysOpen(listener, 1)
      requires IsAsserted(db.facts, f) && Texts(f) == Triple(s, p, o)
      modifies this, db, db.symbols, db.hexastore
      ensures Valid() && others == old(others) && db.facts == old(db.facts)
      ensures tuples == if ok then old(tuples) + multiset{Texts(f)} else old(tuples)
      ensures ok == if old(tuples)[Texts(f)] == 1 then room >= 1 else old(tuples)[Texts(f)] != SIZE_MAX
    {
      hide Represents, Consistent, Logged, Undoes, Indexes, StaysOpen, FactLive, Texts, DerivedOnly;
      ghost var facts := db.facts;
      Counted(facts, overlay, tuples, f);
      CountsTwo(facts, overlay, tuples, f);
      Liveness(facts, db.undo, db.symbols.entries, db.symbols.nextId, db.outside);
      CountedUp(db.symbols.entries, facts, overlay, tuples, f);
      db.Begin();
      ok := AddAgain(s, p, o, f, room);
      if !ok {
        var undone := db.Rollback();
        return;
      }
      ok := Finish(listener, listenerOk, tuples + multiset{Texts(f)});
    }

    /** linda_out on a tuple that is not there. A stale overlay entry cannot exist: entries lie over asserted facts. */
    method OutNew(s: string, p: string, o: string, room: nat, listener: seq<Op>, listenerOk: bool) returns (ok: bool)
      requires Valid() && DerivedOnly(listener) && StaysOpen(listener, 1)
      requires forall f | IsAsserted(db.facts, f) :: Texts(f) != Triple(s, p, o)
      modifies this, db, db.symbols, db.hexastore
      ensures Valid() && others == old(others) && overlay == old(overlay)
      ensures tuples == if ok then old(tuples) + multiset{Triple(s, p, o)} else old(tuples)
      ensures ok == (listenerOk && room >= OutNeeds(old(db.facts), old(db.symbols.entries), s, p, o))
    {
      hide Represents, Consistent, Logged, Undoes, Indexes, StaysOpen, DerivedOnly, FactLive, SameAsserted, NewTexts, Texts;
      ghost var facts := db.facts;
      db.Begin();
      ghost var f;
      ok, f := db.AddSpo(s, p, o, Asserted, room);
      assert Needs(facts, f, Asserted, 1, NewTexts(old(db.symbols.entries), s, p, o)) ==
             OutNeeds(facts, old(db.symbols.entries), s, p, o) by {
        NeedsToOut(facts, old(db.symbols.entries), s, p, o, f);
      }
      if !ok {
        var undone := db.Rollback();
        return;
      }
      ghost var added := db.facts;
      SomethingUndone(added, db.undo, facts, f);
      Liveness(added, db.undo, db.symbols.entries, db.symbols.nextId, db.outside);
      ArrivesAdded(db.symbols.entries, facts, overlay, tuples, f);
      ok := Finish(listener, listenerOk, tuples + multiset{Texts(f)});
    }

    /** linda_consume_one on a tuple that was just found: an occurrence of the overlay, or the fact itself. */
    method ConsumeOne(f: Fact, memory: bool) returns (removed: int)
      requires Open() && IsAsserted(db.facts, f) && (f in overlay ==> overlay[f] >= 2)
      modifies `overlay, db, db.symbols, db.hexastore
      ensures Open() && db.snapshot == old(db.snapshot)
      ensures removed == if f in old(overlay) || memory then 1 else -1
      ensures overlay == if f in old(overlay) then OneLess(old(overlay), f) else old(overlay)
      ensures db.facts == if f !in old(overlay) && memory then Removed(old(db.facts), f, Asserted) else old(db.facts)
      ensures f in old(overlay) || !memory ==> db.undo == old(db.undo)
    {
      hide Consistent, Logged, Undoes, Indexes, FactLive, Texts;
      if f in overlay {
        if overlay[f] > 2 {
          SetCount(f, overlay[f] - 1);
        } else {
          EntryRemove(f);
        }
        return 1;
      }
      removed := db.RemoveFact(f, Asserted, memory);
    }

    /** The found branch of linda_inp_pattern and linda_in_wait, inside their transaction. The first gives up when
        the removal fails for want of memory; the second takes that for a removal. */
    method Take(f: Fact, memory: bool, strict: bool, listener: seq<Op>, listenerOk: bool) returns (ok: bool)
      requires Open() && db.undo == [] && db.snapshot == db.facts && IsAsserted(db.facts, f)
      requires Represents(db.facts, overlay, tuples) && DerivedOnly(listener) && StaysOpen(listener, 1)
      modifies this, db, db.symbols, db.hexastore
      ensures Valid() && others == old(others)
      ensures tuples == if ok && (f in old(overlay) || memory) then old(tuples) - multiset{Texts(f)} else old(tuples)
      ensures ok == (f in old(overlay) || if memory then listenerOk else !strict)
    {
      hide Represents, Consistent, Logged, Undoes, Indexes, StaysOpen, DerivedOnly, FactLive, SameAsserted, Texts;
      ghost var taken := f in overlay || memory;
      Liveness(db.facts, db.undo, db.symbols.entries, db.symbols.nextId, db.outside);
      TakenEither(db.symbols.entries, db.facts, overlay, tuples, f);
      var removed := ConsumeOne(f, memory);
      if removed == 0 || (strict && removed < 0) {
        var undone := db.Rollback();
        return false;
      }
      if f !in old(overlay) && memory { SomethingRemoved(db.facts, db.undo, db.snapshot, f); }
      ok := Finish(listener, listenerOk, if taken then tuples - multiset{Texts(f)} else tuples);
    }

    /** Committing what was done; if the listener fails, the store is as it was, and the overlay was not touched. */
    method Finish(listener: seq<Op>, listenerOk: bool, ghost after: multiset<Triple>) returns (ok: bool)
      requires Open() && DerivedOnly(listener) && StaysOpen(listener, 1) && Represents(db.facts, overlay, after)
      requires db.undo != [] ==> Represents(db.snapshot, overlay, tuples)
      modifies this, db, db.symbols, db.hexastore
      ensures Valid() && others == old(others) && overlay == old(overlay)
      ensures ok == (old(db.undo) == [] || listenerOk)
      ensures old(db.undo) == [] ==> db.facts == old(db.facts)
      ensures tuples == if ok then after else old(tuples)
    {
      hide Represents, Consistent, Logged, Undoes, Indexes, StaysOpen, DerivedOnly, FactLive, SameAsserted;
      ghost var before := db.facts;
      var committed := db.Commit(listener, listenerOk);
      if committed != 0 {
        var undone := db.Rollback();
        return false;
      }
      tuples := after;
      Unchanged(before, db.facts, overlay, tuples);
      ok := true;
    }

    /** linda_rdp_pattern, and one look of linda_rd_wait: a tuple that matches, if there is one. */
    method Rd(pattern: Pattern) returns (result: int, t: Triple)
      requires Valid()
      ensures result in {0, 1} && (result == 1 ==> Matches(pattern, t) && t in tuples)
      ensures result == 0 <==> forall u | u in tuples :: !Matches(pattern, u)
    {
      hide Matches, Represents, Consistent, Logged, Indexes;
      var found, f := MatchOne(db.facts, pattern);
      if found {
        CountsTwice(db.facts, overlay, tuples, f);
        return 1, Texts(f);
      }
      NothingMatches(db.facts, overlay, tuples, pattern);
      result, t := 0, Triple("", "", "");
    }

    /** linda_inp_pattern: 1 with one occurrence of a matching tuple taken, 0 exactly when none matches, -1 with
        nothing changed exactly when the tuple found occurs once and memory or the commit's listener fails. */
    method Inp(pattern: Pattern, memory: bool, listener: seq<Op>, listenerOk: bool) returns (result: int, t: Triple)
      requires Valid() && DerivedOnly(listener) && StaysOpen(listener, 1)
      modifies this, db, db.symbols, db.hexastore
      ensures Valid() && others == old(others) && -1 <= result <= 1
      ensures result == 0 <==> forall u | u in old(tuples) :: !Matches(pattern, u)
      ensures result != 0 ==> Matches(pattern, t) && t in old(tuples)
      ensures result != 0 ==> (result == 1 <==> old(tuples)[t] > 1 || (memory && listenerOk))
      ensures tuples == if result == 1 then old(tuples) - multiset{t} else old(tuples)
    {
      result, t := Try(pattern, memory, true, listener, listenerOk);
    }

    /** One turn of linda_in_wait with the lock held. Without memory for the undo entry it still reports success, and
        hands out a tuple that occurs once without taking it; otherwise it takes exactly one. */
    method InOnce(pattern: Pattern, memory: bool, listener: seq<Op>, listenerOk: bool) returns (result: int, t: Triple)
      requires Valid() && DerivedOnly(listener) && StaysOpen(listener, 1)
      modifies this, db, db.symbols, db.hexastore
      ensures Valid() && others == old(others) && -1 <= result <= 1
      ensures result == 0 <==> forall u | u in old(tuples) :: !Matches(pattern, u)
      ensures result != 0 ==> Matches(pattern, t) && t in old(tuples)
      ensures result != 0 ==> (result == 1 <==> old(tuples)[t] > 1 || !memory || listenerOk)
      ensures tuples == if result == 1 && (memory || old(tuples)[t] > 1) then old(tuples) - multiset{t} else old(tuples)
    {
      result, t := Try(pattern, memory, false, listener, listenerOk);
    }

    method Try(pattern: Pattern, memory: bool, strict: bool, listener: seq<Op>, listenerOk: bool)
      returns (result: int, t: Triple)
      requires Valid() && DerivedOnly(listener) && StaysOpen(listener, 1)
      modifies this, db, db.symbols, db.hexastore
      ensures Valid() && others == old(others) && -1 <= result <= 1
      ensures result == 0 <==> forall u | u in old(tuples) :: !Matches(pattern, u)
      ensures result != 0 ==> Matches(pattern, t) && t in old(tuples)
      ensures result != 0 ==> (result == 1 <==> old(tuples)[t] > 1 || if memory then listenerOk else !strict)
      ensures tuples == if result == 1 && (memory || old(tuples)[t] > 1) then old(tuples) - multiset{t} else old(tuples)
    {
      hide Represents, Consistent, Logged, Undoes, Indexes, StaysOpen, DerivedOnly, FactLive, SameAsserted, Matches;
      t := Triple("", "", "");
      db.Begin();
      var found, f := MatchOne(db.facts, pattern);
      if !found {
        NothingMatches(db.facts, overlay, tuples, pattern);
        var done := Finish(listener, listenerOk, tuples);
        return 0, t;
      }
      t := Texts(f);
      CountsTwice(db.facts, overlay, tuples, f);
      var taken := Take(f, memory, strict, listener, listenerOk);
      result := if taken then 1 else -1;
    }
  }

  /** The allocations `out` needs for a tuple that is not there: an undo entry if the fact is stored as derived, else
      all that a new fact needs. */
  ghost function OutNeeds(facts: Facts, entries: map<string, Interned>, s: string, p: string, o: string): nat {
    if exists f :: f in facts && Texts(f) == Triple(s, p, o) then 1 else NewTexts(entries, s, p, o) + 6
  }

  /** When `out` succeeds: a second occurrence takes an overlay entry, a further one only a count, and a first one
      the fact and a listener that agrees. */
  ghost predicate CanOut(tuples: multiset<Triple>, facts: Facts, entries: map<string, Interned>, s: string, p: string,
                         o: string, room: nat, listenerOk: bool)
  {
    var n := tuples[Triple(s, p, o)];
    if n == 0 then listenerOk && room >= OutNeeds(facts, entries, s, p, o)
    else if n == 1 then room >= 1
    else n != SIZE_MAX
  }

  lemma NeedsToOut(facts: Facts, entries: map<string, Interned>, s: string, p: string, o: string, f: Fact)
    requires Names(facts, f, Triple(s, p, o)) && !IsAsserted(facts, f)
    ensures Needs(facts, f, Asserted, 1, NewTexts(entries, s, p, o)) == OutNeeds(facts, entries, s, p, o)
  {
    hide NewTexts, Texts;
    assert f in facts ==> exists g :: g in facts && Texts(g) == Triple(s, p, o);
  }

  lemma SomethingUndone(facts: Facts, undo: seq<Entry>, before: Facts, f: Fact)
    requires Undoes(facts, undo, before) && facts == Added(before, f, Asserted) && !IsAsserted(before, f)
    ensures undo != []
  {
    assert IsAsserted(facts, f);
  }

  lemma SomethingRemoved(facts: Facts, undo: seq<Entry>, before: Facts, f: Fact)
    requires Undoes(facts, undo, before) && facts == Removed(before, f, Asserted) && IsAsserted(before, f)
    ensures undo != []
  {
    assert !IsAsserted(facts, f);
  }

  lemma Present(facts: Facts, overlay: Overlay, tuples: multiset<Triple>, t: Triple)
    requires Represents(facts, overlay, tuples)
    ensures t in tuples <==> exists f :: IsAsserted(facts, f) && Texts(f) == t
  {
    if t in tuples {
      var f :| f in facts && facts[f].asserted && Texts(f) == t;
      assert IsAsserted(facts, f);
    }
    forall f | IsAsserted(facts, f) && Texts(f) == t ensures t in tuples { Counted(facts, overlay, tuples, f); }
  }

  lemma CountsTwice(facts: Facts, overlay: Overlay, tuples: multiset<Triple>, f: Fact)
    requires Represents(facts, overlay, tuples) && IsAsserted(facts, f)
    ensures Texts(f) in tuples && (f in overlay <==> tuples[Texts(f)] > 1)
  {
    Counted(facts, overlay, tuples, f);
    CountsTwo(facts, overlay, tuples, f);
  }

  lemma NothingMatches(facts: Facts, overlay: Overlay, tuples: multiset<Triple>, pattern: Pattern)
    requires Represents(facts, overlay, tuples) && forall g | IsAsserted(facts, g) :: !Matches(pattern, Texts(g))
    ensures forall u | u in tuples :: !Matches(pattern, u)
  {
    hide Matches;
    forall u | u in tuples ensures !Matches(pattern, u) {
      var g :| g in facts && facts[g].asserted && Texts(g) == u;
      assert IsAsserted(facts, g);
    }
  }

  /** Taking one occurrence, whether the overlay or the fact itself gives it. */
  lemma TakenEither(entries: map<string, Interned>, facts: Facts, overlay: Overlay, tuples: multiset<Triple>, f: Fact)
    requires Represents(facts, overlay, tuples) && AllLive(entries, facts) && IsAsserted(facts, f)
    ensures Texts(f) in tuples
    ensures f in overlay ==> overlay[f] >= 2 && Represents(facts, OneLess(overlay, f), tuples - multiset{Texts(f)})
    ensures f !in overlay ==> Represents(Removed(facts, f, Asserted), overlay, tuples - multiset{Texts(f)})
  {
    hide Represents;
    if f in overlay {
      CountedDown(entries, facts, overlay, tuples, f);
    } else {
      LeavesRemoved(entries, facts, overlay, tuples, f);
    }
  }

  // ---- whole runs ----

  /** The operations of a run, with what memory and the listener do during each. */
  datatype Operation =
    | OutOp(s: string, p: string, o: string, room: nat, listener: seq<Op>, listenerOk: bool)
    | RdOp(pattern: Pattern)
    | InpOp(pattern: Pattern, memory: bool, listener: seq<Op>, listenerOk: bool)
    | InOp(pattern: Pattern, memory: bool, listener: seq<Op>, listenerOk: bool)

  /** What an operation answered: for `out` whether it succeeded, for the others 1 with a tuple, 0 or -1. */
  datatype Answer = Answer(result: int, t: Triple)

  predicate Operates(op: Operation) {
    op.RdOp? || (DerivedOnly(op.listener) && StaysOpen(op.listener, 1))
  }

  /** `in` and `inp` have handed out a tuple. */
  predicate HandsOut(op: Operation, a: Answer) {
    (op.InpOp? || op.InOp?) && a.result == 1
  }

  /** `in` has taken what it handed out: with memory, or when the tuple occurred more than once. */
  predicate Paid(op: Operation, a: Answer, before: multiset<Triple>) {
    op.InOp? ==> op.memory || before[a.t] > 1
  }

  /** Whether an operation that found a tuple which occurs `n` times reports success. */
  predicate Succeeds(op: Operation, n: nat)
    requires !op.OutOp?
  {
    match op
    case RdOp(_) => true
    case InpOp(_, memory, _, listenerOk) => n > 1 || (memory && listenerOk)
    case InOp(_, memory, _, listenerOk) => n > 1 || !memory || listenerOk
  }

  /** One operation on the multiset. */
  ghost predicate Stepped(op: Operation, a: Answer, before: multiset<Triple>, after: multiset<Triple>) {
    if op.OutOp? then
      a.t == Triple(op.s, op.p, op.o) && after == if a.result == 1 then before + multiset{a.t} else before
    else
      && (a.result == 0 <==> forall u | u in before :: !Matches(op.pattern, u))
      && (a.result != 0 ==> Matches(op.pattern, a.t) && a.t in before && (a.result == 1 <==> Succeeds(op, before[a.t])))
      && after == if HandsOut(op, a) && Paid(op, a, before) then before - multiset{a.t} else before
  }

  ghost predicate Steps(ops: seq<Operation>, answers: seq<Answer>, states: seq<multiset<Triple>>) {
    && |answers| == |ops| && |states| == |ops| + 1
    && forall k | 0 <= k < |ops| :: Stepped(ops[k], answers[k], states[k], states[k + 1])
  }

  function One(counted: bool, t: Triple): multiset<Triple> {
    if counted then multiset{t} else multiset{}
  }

  /** The occurrences put in by the first `n` operations. */
  function PutIn(ops: seq<Operation>, answers: seq<Answer>, n: nat): multiset<Triple>
    requires n <= |ops| == |answers|
  {
    if n == 0 then multiset{}
    else PutIn(ops, answers, n - 1) + One(ops[n - 1].OutOp? && answers[n - 1].result == 1, answers[n - 1].t)
  }

  function HandedOut(ops: seq<Operation>, answers: seq<Answer>, n: nat): multiset<Triple>
    requires n <= |ops| == |answers|
  {
    if n == 0 then multiset{}
    else HandedOut(ops, answers, n - 1) + One(HandsOut(ops[n - 1], answers[n - 1]), answers[n - 1].t)
  }

  /** Those of them that were not taken. */
  ghost function Unpaid(ops: seq<Operation>, answers: seq<Answer>, states: seq<multiset<Triple>>, n: nat): multiset<Triple>
    requires n <= |ops| == |answers| && |states| == |ops| + 1
  {
    if n == 0 then multiset{}
    else Unpaid(ops, answers, states, n - 1)
         + One(HandsOut(ops[n - 1], answers[n - 1]) && !Paid(ops[n - 1], answers[n - 1], states[n - 1]), answers[n - 1].t)
  }

  /** Over any run: what was there, what was put in and what was handed out without being taken is what was handed
      out and what is there. */
  lemma {:induction false} RunBalances(ops: seq<Operation>, answers: seq<Answer>, states: seq<multiset<Triple>>, n: nat)
    requires Steps(ops, answers, states) && n <= |ops|
    ensures states[0] + PutIn(ops, answers, n) + Unpaid(ops, answers, states, n) == HandedOut(ops, answers, n) + states[n]
  {
    hide Stepped, HandsOut, Paid, One;
    if n > 0 {
      RunBalances(ops, answers, states, n - 1);
      StepBalances(ops[n - 1], answers[n - 1], states[n - 1], states[n], states[0], PutIn(ops, answers, n - 1),
                   Unpaid(ops, answers, states, n - 1), HandedOut(ops, answers, n - 1));
    }
  }

  lemma StepBalances(op: Operation, a: Answer, before: multiset<Triple>, after: multiset<Triple>, start: multiset<Triple>,
                     put: multiset<Triple>, unpaid: multiset<Triple>, out: multiset<Triple>)
    requires Stepped(op, a, before, after) && start + put + unpaid == out + before
    ensures start + (put + One(op.OutOp? && a.result == 1, a.t)) + (unpaid + One(HandsOut(op, a) && !Paid(op, a, before), a.t)) ==
            (out + One(HandsOut(op, a), a.t)) + after
  {
    hide Matches;
    OneStep(start, put, unpaid, out, before, op.OutOp? && a.result == 1, HandsOut(op, a), HandsOut(op, a) && !Paid(op, a, before), a.t);
  }

  lemma OneStep(start: multiset<Triple>, put: multiset<Triple>, unpaid: multiset<Triple>, out: multiset<Triple>,
                before: multiset<Triple>, puts: bool, hands: bool, owes: bool, t: Triple)
    requires start + put + unpaid == out + before && (owes ==> hands) && !(puts && hands) && (hands ==> t in before)
    ensures var after := if puts then before + multiset{t} else if hands && !owes then before - multiset{t} else before;
            start + (put + One(puts, t)) + (unpaid + One(owes, t)) == (out + One(hands, t)) + after
  {
    assert start + (put + One(puts, t)) + (unpaid + One(owes, t)) == (start + put + unpaid) + One(puts, t) + One(owes, t);
    assert hands ==> before == (before - multiset{t}) + multiset{t};
  }

  /** Nothing is handed out without being taken exactly when every successful `in` had memory for its undo entry or
      found more than one occurrence; then what was put in is taken out together with what is there. */
  lemma {:induction false} UnpaidIff(ops: seq<Operation>, answers: seq<Answer>, states: seq<multiset<Triple>>, n: nat)
    requires Steps(ops, answers, states) && n <= |ops|
    ensures Unpaid(ops, answers, states, n) == multiset{} <==>
            forall k | 0 <= k < n && ops[k].InOp? && answers[k].result == 1 :: ops[k].memory || states[k][answers[k].t] > 1
  {
    hide Stepped, One;
    if n > 0 {
      UnpaidIff(ops, answers, states, n - 1);
      var owes := HandsOut(ops[n - 1], answers[n - 1]) && !Paid(ops[n - 1], answers[n - 1], states[n - 1]);
      NothingMore(Unpaid(ops, answers, states, n - 1), owes, answers[n - 1].t);
    }
  }

  lemma NothingMore(m: multiset<Triple>, counted: bool, t: Triple)
    ensures m + One(counted, t) == multiset{} <==> m == multiset{} && !counted
  {
    if counted { assert t in m + One(counted, t); }
    if x :| x in m { assert x in m + One(counted, t); }
  }

  /** One operation of a run on the tuple space itself. */
  method Operate(space: Space, op: Operation) returns (a: Answer)
    requires space.Valid() && Operates(op)
    modifies space, space.db, space.db.symbols, space.db.hexastore
    ensures space.Valid() && Stepped(op, a, old(space.tuples), space.tuples)
  {
    hide Represents, Consistent, Logged, Undoes, Indexes, StaysOpen, DerivedOnly, Matches, CanOut, Stepped, Space.Valid;
    match op
    case OutOp(s, p, o, room, listener, listenerOk) =>
      var ok := space.Out(s, p, o, room, listener, listenerOk);
      a := Answer(if ok then 1 else -1, Triple(s, p, o));
      OutSteps(op, a, old(space.tuples), space.tuples);
    case RdOp(pattern) =>
      var result, t := space.Rd(pattern);
      a := Answer(result, t);
      OtherSteps(op, a, old(space.tuples), space.tuples);
    case InpOp(pattern, memory, listener, listenerOk) =>
      var result, t := space.Inp(pattern, memory, listener, listenerOk);
      a := Answer(result, t);
      OtherSteps(op, a, old(space.tuples), space.tuples);
    case InOp(pattern, memory, listener, listenerOk) =>
      var result, t := space.InOnce(pattern, memory, listener, listenerOk);
      a := Answer(result, t);
      OtherSteps(op, a, old(space.tuples), space.tuples);
  }

  lemma OutSteps(op: Operation, a: Answer, before: multiset<Triple>, after: multiset<Triple>)
    requires op.OutOp? && a.t == Triple(op.s, op.p, op.o) && after == if a.result == 1 then before + multiset{a.t} else before
    ensures Stepped(op, a, before, after)
  {
  }

  lemma OtherSteps(op: Operation, a: Answer, before: multiset<Triple>, after: multiset<Triple>)
    requires !op.OutOp? && (a.result == 0 <==> forall u | u in before :: !Matches(op.pattern, u))
    requires a.result != 0 ==> Matches(op.pattern, a.t) && a.t in before && (a.result == 1 <==> Succeeds(op, before[a.t]))
    requires after == if HandsOut(op, a) && Paid(op, a, before) then before - multiset{a.t} else before
    ensures Stepped(op, a, before, after)
  {
  }

  /** Any run, with rule evaluation behind every commit, any of them aborted, and memory failing at will. */
  method RunOperations(space: Space, ops: seq<Operation>) returns (answers: seq<Answer>, ghost states: seq<multiset<Triple>>)
    requires space.Valid() && forall op | op in ops :: Operates(op)
    modifies space, space.db, space.db.symbols, space.db.hexastore
    ensures space.Valid() && Steps(ops, answers, states) && states[0] == old(space.tuples) && states[|ops|] == space.tuples
    ensures old(space.tuples) + PutIn(ops, answers, |ops|) + Unpaid(ops, answers, states, |ops|) ==
            HandedOut(ops, answers, |ops|) + space.tuples
  {
    hide Represents, Consistent, Logged, Undoes, Indexes, Operates, Stepped;
    answers, states := [], [space.tuples];
    for k := 0 to |ops|
      invariant space.Valid() && |answers| == k && |states| == k + 1
      invariant states[0] == old(space.tuples) && states[k] == space.tuples
      invariant forall i | 0 <= i < k :: Stepped(ops[i], answers[i], states[i], states[i + 1])
    {
      assert ops[k] in ops;
      var a := Operate(space, ops[k]);
      answers, states := answers + [a], states + [space.tuples];
    }
    RunBalances(ops, answers, states, |ops|);
  }

  /** The only occurrence of a tuple, and one `in` for it without memory: the tuple is handed out, and still there. */
  lemma HandedOutAndKept(t: Triple, op: Operation, a: Answer, after: multiset<Triple>)
    requires op.InOp? && !op.memory && Matches(op.pattern, t) && Stepped(op, a, multiset{t}, after)
    ensures a == Answer(1, t) && after == multiset{t} && Unpaid([op], [a], [multiset{t}, after], 1) == multiset{t}
  {
    hide Matches;
    assert t in multiset{t};
    assert Unpaid([op], [a], [multiset{t}, after], 0) == multiset{};
  }

  function OneLess(overlay: Overlay, f: Fact): Overlay
    requires f in overlay && overlay[f] >= 2
  {
    if overlay[f] > 2 then overlay[f := overlay[f] - 1] else overlay - {f}
  }

  lemma CountedDown(entries: map<string, Interned>, facts: Facts, overlay: Overlay, tuples: multiset<Triple>, f: Fact)
    requires Represents(facts, overlay, tuples) && AllLive(entries, facts) && f in overlay
    ensures overlay[f] >= 2 && Represents(facts, OneLess(overlay, f), tuples - multiset{Texts(f)}) && Texts(f) in tuples
  {
    CountsTwo(facts, overlay, tuples, f);
    Counted(facts, overlay, tuples, f);
    assert tuples - multiset{Texts(f)} == tuples[Texts(f) := overlay[f] - 1];
    Recounted(entries, facts, overlay, OneLess(overlay, f), tuples, f, tuples - multiset{Texts(f)});
  }

  lemma LeavesRemoved(entries: map<string, Interned>, facts: Facts, overlay: Overlay, tuples: multiset<Triple>, f: Fact)
    requires Represents(facts, overlay, tuples) && AllLive(entries, facts) && f !in overlay && IsAsserted(facts, f)
    ensures Represents(Removed(facts, f, Asserted), overlay, tuples - multiset{Texts(f)}) && Texts(f) in tuples
  {
    hide Represents;
    Leaves(entries, facts, Removed(facts, f, Asserted), overlay, tuples, f);
  }

  lemma AddedNothing(facts: Facts, f: Fact)
    requires IsAsserted(facts, f)
    ensures Added(facts, f, Asserted) == facts
  {
  }

  lemma ArrivesAdded(entries: map<string, Interned>, facts: Facts, overlay: Overlay, tuples: multiset<Triple>, f: Fact)
    requires Represents(facts, overlay, tuples) && !IsAsserted(facts, f)
    requires AllLive(entries, Added(facts, f, Asserted))
    ensures Represents(Added(facts, f, Asserted), overlay, tuples + multiset{Texts(f)})
  {
    hide Represents;
    Arrives(entries, facts, Added(facts, f, Asserted), overlay, tuples, f);
  }

  lemma Counted(facts: Facts, overlay: Overlay, tuples: multiset<Triple>, f: Fact)
    requires Represents(facts, overlay, tuples) && IsAsserted(facts, f)
    ensures tuples[Texts(f)] == Occurrences(overlay, f) > 0
  {
  }

  function OneMore(overlay: Overlay, f: Fact): nat {
    if f in overlay then overlay[f] + 1 else 2
  }

  lemma SameKeys(overlay: Overlay, f: Fact, count: nat)
    requires f in overlay
    ensures overlay[f := count].Keys == overlay.Keys
  {
  }

  lemma CountedUp(entries: map<string, Interned>, facts: Facts, overlay: Overlay, tuples: multiset<Triple>, f: Fact)
    requires Represents(facts, overlay, tuples) && AllLive(entries, facts) && IsAsserted(facts, f)
    ensures Represents(facts, overlay[f := OneMore(overlay, f)], tuples + multiset{Texts(f)})
  {
    hide Represents;
    Counted(facts, overlay, tuples, f);
    CountsTwo(facts, overlay, tuples, f);
    var more := OneMore(overlay, f);
    assert tuples + multiset{Texts(f)} == tuples[Texts(f) := more];
    Recounted(entries, facts, overlay, overlay[f := more], tuples, f, tuples + multiset{Texts(f)});
  }

  lemma CountsTwo(facts: Facts, overlay: Overlay, tuples: multiset<Triple>, f: Fact)
    requires Represents(facts, overlay, tuples)
    ensures f in overlay ==> overlay[f] >= 2
  {
  }

  lemma OverlayMore(overlay: Overlay, f: Fact, count: nat, others: multiset<string>)
    requires f !in overlay
    ensures others + StoredRefs(overlay[f := count].Keys) == others + StoredRefs(overlay.Keys) + Refs(f)
  {
    StoredRefsRemove(overlay[f := count].Keys, f);
    assert overlay[f := count].Keys - {f} == overlay.Keys;
  }

  lemma OverlayLess(overlay: Overlay, f: Fact, others: multiset<string>)
    requires f in overlay
    ensures Refs(f) <= others + StoredRefs(overlay.Keys)
    ensures others + StoredRefs((overlay - {f}).Keys) == others + StoredRefs(overlay.Keys) - Refs(f)
  {
    StoredRefsRemove(overlay.Keys, f);
    assert (overlay - {f}).Keys == overlay.Keys - {f};
  }

  /** match_and_extract, with the cursor's order left open. */
  method MatchOne(facts: Facts, pattern: Pattern) returns (found: bool, f: Fact)
    ensures found ==> IsAsserted(facts, f) && Matches(pattern, Texts(f))
    ensures !found ==> forall g | IsAsserted(facts, g) :: !Matches(pattern, Texts(g))
  {
    hide Matches, TermsMatch;
    var rest := facts.Keys;
    while rest != {}
      invariant rest <= facts.Keys
      invariant forall g | g in facts && g !in rest :: !(facts[g].asserted && Matches(pattern, Texts(g)))
      decreases rest
    {
      f :| f in rest;
      TermsMatchIff(pattern, Texts(f));
      if facts[f].asserted && TermsMatch(pattern, Texts(f)) { return true, f; }
      rest := rest - {f};
    }
    found, f := false, Fact(Symbol(0, ""), Symbol(0, ""), Symbol(0, ""));
  }
}
