/** The fact store and its transactions (lib/facts.c, lib/transaction.c). */
module Stores {
  import opened Symbols
  import opened Hexastores
  import opened Journal

  class Store {
    const symbols: SymbolTable
    const hexastore: Hexastore
    var facts: Facts
    var level: nat
    var undo: seq<Entry>
    var log: seq<LogLine>
    /** References held by callers, and the facts when the open transaction began. */
    ghost var outside: multiset<string>
    ghost var snapshot: Facts

    /** Symbols and indexes agree with the stored facts and the undo entries. */
    ghost predicate Sound()
      reads this, symbols, hexastore
    {
      && Consistent(facts, undo, symbols.entries, symbols.nextId, outside)
      && hexastore.Holds(facts.Keys)
    }

    ghost predicate Valid()
      reads this, symbols, hexastore
    {
      && Sound() && Logged(log, facts)
      && if level == 0 then undo == [] else Undoes(facts, undo, snapshot)
    }

    constructor ()
      ensures Valid() && facts == map[] && level == 0 && outside == multiset{} && fresh(symbols) && fresh(hexastore)
    {
      symbols := new SymbolTable();
      hexastore := new Hexastore();
      facts, level, undo, log, outside, snapshot := map[], 0, [], [], multiset{}, map[];
    }

    /** facts_intern: a text that is not there yet takes one of the `room` allocations that memory has left. */
    method Intern(text: string, room: nat) returns (ok: bool, sym: Symbol, left: nat)
      requires Sound()
      modifies symbols, `outside
      ensures Sound() && ok == (text in old(symbols.entries) || room > 0)
      ensures outside == old(outside) + If(ok, text)
      ensures symbols.entries.Keys == if ok then old(symbols.entries.Keys) + {text} else old(symbols.entries.Keys)
      ensures left == if ok && text !in old(symbols.entries) then room - 1 else room
      ensures ok ==> sym.text == text && Live(symbols.entries, sym)
      ensures forall s | Live(old(symbols.entries), s) :: Live(symbols.entries, s)
    {
      hide Consistent, Balanced, Used, Live;
      ghost var used, before, nextId := Used(facts, undo, outside), symbols.entries, symbols.nextId;
      assert Balanced(before, nextId, used) by { UsedBalanced(facts, undo, before, nextId, outside); }
      left := room;
      var known := text in symbols.entries;
      ok, sym := symbols.Intern(text, room > 0, used);
      if ok {
        OutsideMore(facts, undo, before, symbols.entries, nextId, symbols.nextId, outside, text);
        outside := outside + multiset{text};
        left := if known then room else room - 1;
      } else {
        OutsideSame(facts, undo, before, nextId, symbols.nextId, outside);
      }
    }

    /** facts_unintern */
    method Unintern(sym: Symbol)
      requires Sound() && sym.text in outside
      modifies symbols, `outside
      ensures Sound() && outside == old(outside) - multiset{sym.text}
    {
      hide Consistent, Balanced, Used, Live;
      ghost var used, before := Used(facts, undo, outside), symbols.entries;
      UsedBalanced(facts, undo, before, symbols.nextId, outside);
      UsedOutside(facts, undo, outside, sym.text);
      symbols.Unintern(sym, used);
      OutsideLess(facts, undo, before, symbols.entries, symbols.nextId, outside, sym.text);
      outside := outside - multiset{sym.text};
    }

    /** All three texts are interned, whether or not memory has failed on the way. */
    method InternAll(s: string, p: string, o: string, room: nat)
      returns (okS: bool, a: Symbol, okP: bool, b: Symbol, okO: bool, c: Symbol, left: nat)
      requires Sound()
      modifies symbols, `outside
      ensures Sound() && (okS && okP && okO <==> room >= NewTexts(old(symbols.entries), s, p, o))
      ensures outside == Plus(old(outside), If(okS, s), If(okP, p), If(okO, o))
      ensures a.text == s || !okS
      ensures b.text == p || !okP
      ensures c.text == o || !okO
      ensures okS && okP && okO ==> Texts(Fact(a, b, c)) == Triple(s, p, o) && FactLive(symbols.entries, Fact(a, b, c))
      ensures okS && okP && okO ==> left == room - NewTexts(old(symbols.entries), s, p, o)
      ensures forall g | FactLive(old(symbols.entries), g) :: FactLive(symbols.entries, g)
    {
      hide Consistent, Sound, NewTexts, If;
      ghost var known := symbols.entries;
      var leftS, leftP;
      okS, a, leftS := Intern(s, room);
      ghost var first := symbols.entries.Keys;
      okP, b, leftP := Intern(p, leftS);
      ghost var second := symbols.entries.Keys;
      okO, c, left := Intern(o, leftP);
      RoomCounted(known, first, second, s, p, o, room, leftS, leftP, left, okS, okP, okO);
    }

    /** The three references of a fact, or none of them when memory cannot take its new texts. */
    method Hold(s: string, p: string, o: string, room: nat) returns (ok: bool, f: Fact, left: nat)
      requires Sound()
      modifies symbols, `outside
      ensures Sound() && ok == (room >= NewTexts(old(symbols.entries), s, p, o))
      ensures outside == if ok then old(outside) + Refs(f) else old(outside)
      ensures ok ==> Texts(f) == Triple(s, p, o) && FactLive(symbols.entries, f)
      ensures ok ==> left == room - NewTexts(old(symbols.entries), s, p, o)
      ensures ok ==> forall g | FactLive(old(symbols.entries), g) :: FactLive(symbols.entries, g)
    {
      hide Consistent, Sound, NewTexts, If, Plus, FactLive;
      var okS, a, okP, b, okO, c;
      okS, a, okP, b, okO, c, left := InternAll(s, p, o, room);
      ok, f := okS && okP && okO, Fact(a, b, c);
      AllHeld(old(outside), s, p, o);
      GivenBack(old(outside), If(okS, s), If(okP, p), If(okO, o));
      if !ok {
        LetGo(okS, a, s);
        LetGo(okP, b, p);
        LetGo(okO, c, o);
      }
    }

    method LetGo(held: bool, sym: Symbol, text: string)
      requires Sound() && If(held, text) <= outside && (held ==> sym.text == text)
      modifies symbols, `outside
      ensures Sound() && outside == old(outside) - If(held, text)
    {
      hide Consistent, Sound;
      assert held ==> text in If(held, text);
      if held { Unintern(sym); }
    }

    method Release(f: Fact)
      requires Sound() && Refs(f) <= outside
      modifies symbols, `outside
      ensures Sound() && outside == old(outside) - Refs(f)
    {
      hide Consistent, Sound;
      RefsIn(f, outside);
      Unintern(f.s);
      Unintern(f.p);
      Unintern(f.o);
    }

    /** facts_rollback_push: an entry, with references of its own, while a transaction is open. */
    method Push(e: Entry, memory: bool) returns (ok: bool)
      requires Sound() && FactLive(symbols.entries, e.fact) && Supported(e.support)
      modifies symbols, `outside, `undo
      ensures Sound() && outside == old(outside) && ok == (level == 0 || memory)
      ensures undo == if level > 0 && ok then old(undo) + [e] else old(undo)
    {
      hide Consistent, Refs, Live;
      if level == 0 { return true; }
      if !memory { return false; }
      ghost var before := outside;
      NothingNew(symbols.entries, e.fact);
      var held, f, left := Hold(e.fact.s.text, e.fact.p.text, e.fact.o.text, 0);
      SameTexts(symbols.entries, f, e.fact);
      HeldRefs(before, Refs(f));
      PushOne(facts, undo, symbols.entries, symbols.nextId, outside, e);
      undo := undo + [e];
      outside := outside - Refs(f);
      ok := true;
    }

    /** The first half of facts_insert_fact_copy: the fact itself, references, three indexes, the hash set. The texts
        are in use, so that only the other five need memory. */
    method InsertIndexed(f: Fact, x: Support, room: nat) returns (ok: bool)
      requires Sound() && f !in facts && FactLive(symbols.entries, f) && Supported(x)
      modifies symbols, hexastore, `outside, `facts
      ensures Sound() && outside == old(outside) && ok == (room >= 5)
      ensures facts == if ok then old(facts)[f := x] else old(facts)
    {
      hide Consistent, Refs, Live, Indexes;
      if room < 1 { return false; }
      ghost var keys, refs := facts.Keys, outside;
      NothingNew(symbols.entries, f);
      var held, g, left := Hold(f.s.text, f.p.text, f.o.text, room - 1);
      SameTexts(symbols.entries, g, f);
      HeldRefs(refs, Refs(f));
      KeysDifferAll(facts, undo, symbols.entries, symbols.nextId, outside, f);
      ok := hexastore.Insert(f, left, keys);
      if !ok {
        Release(f);
        return false;
      }
      if left < 4 {
        hexastore.Remove(f, keys + {f});
        assert keys + {f} - {f} == keys;
        Release(f);
        return false;
      }
      StoreOne(facts, undo, symbols.entries, symbols.nextId, outside, f, x);
      facts := facts[f := x];
      outside := outside - Refs(f);
      assert facts.Keys == keys + {f};
    }

    /** facts_insert_fact_copy, when memory lasts for `room` allocations: the fact, three indexes, the hash set, the
        undo entry. Whatever fails, the steps before it are undone. */
    method InsertCopy(f: Fact, x: Support, record: bool, room: nat) returns (ok: bool)
      requires Sound() && f !in facts && FactLive(symbols.entries, f) && Supported(x)
      modifies symbols, hexastore, `outside, `undo, `facts
      ensures Sound() && outside == old(outside) && ok == (room >= if record && level > 0 then 6 else 5)
      ensures facts == if ok then old(facts)[f := x] else old(facts)
      ensures undo == if ok && record && level > 0 then old(undo) + [Entry(Remove, f, x)] else old(undo)
    {
      hide Balanced, Refs, Live, Indexes, Used;
      ok := InsertIndexed(f, x, room);
      if !ok || !record { return; }
      ok := Push(Entry(Remove, f, x), room >= 6);
      if !ok {
        RemoveFound(f);
        assert facts == old(facts);
      }
    }

    /** facts_remove_found */
    method RemoveFound(f: Fact)
      requires Sound() && f in facts
      modifies symbols, hexastore, `outside, `facts
      ensures Sound() && outside == old(outside) && facts == old(facts) - {f}
    {
      hide Consistent, Refs, Live, Indexes;
      ghost var keys, refs := facts.Keys, outside;
      DropOne(facts, undo, symbols.entries, symbols.nextId, outside, f);
      facts := facts - {f};
      outside := outside + Refs(f);
      assert facts.Keys == keys - {f};
      hexastore.Remove(f, keys);
      HeldRefs(refs, Refs(f));
      Release(f);
    }

    /** facts_add_fact_origin for a stored fact. */
    method GainSupport(f: Fact, origin: Origin, memory: bool) returns (ok: bool)
      requires Valid() && f in facts
      modifies symbols, hexastore, `outside, `undo, `facts, `log
      ensures Valid() && outside == old(outside)
      ensures ok == (Has(old(facts)[f], origin) || level == 0 || memory)
      ensures facts == if ok then Added(old(facts), f, origin) else old(facts)
      ensures Has(old(facts)[f], origin) ==> undo == old(undo)
    {
      hide Consistent, Logged, Undoes, Live;
      if Has(facts[f], origin) { return true; }
      ghost var live, x := symbols.entries, Set(facts[f], origin, true);
      EntryUndoes(facts, f, x);
      Liveness(facts, undo, live, symbols.nextId, outside);
      ok := Push(Entry(State, f, facts[f]), memory);
      if !ok { return; }
      SetSupport(facts, undo, symbols.entries, symbols.nextId, outside, f, x);
      if origin.Asserted? { log := log + [LogLine(true, Texts(f))]; }
      facts := facts[f := Set(facts[f], origin, true)];
      assert facts.Keys == old(facts).Keys;
      if level > 0 { Recorded(old(facts), old(undo), snapshot, facts, EntryFor(old(facts), f, x)); }
      LoggedStep(live, old(log), old(facts), facts, f, x, log);
    }

    /** facts_add_fact_origin: the fact gains one kind of support, with the undo entry and the log line for it. */
    method AddFact(f: Fact, origin: Origin, room: nat) returns (ok: bool)
      requires Valid() && FactLive(symbols.entries, f)
      modifies symbols, hexastore, `outside, `undo, `facts, `log
      ensures Valid() && outside == old(outside)
      ensures facts == if ok then Added(old(facts), f, origin) else old(facts)
      ensures ok == (room >= Needs(old(facts), f, origin, level, 0))
      ensures Has(SupportOf(old(facts), f), origin) ==> undo == old(undo)
    {
      hide Consistent, Logged, Undoes, Live;
      if f in facts {
        ok := GainSupport(f, origin, room >= 1);
        return;
      }
      ghost var live, x := symbols.entries, Set(NONE, origin, true);
      EntryUndoes(facts, f, x);
      Liveness(facts, undo, live, symbols.nextId, outside);
      ok := InsertCopy(f, Set(NONE, origin, true), true, room);
      if !ok { return; }
      if origin.Asserted? { log := log + [LogLine(true, Texts(f))]; }
      if level > 0 { Recorded(old(facts), old(undo), snapshot, facts, EntryFor(old(facts), f, x)); }
      LoggedStep(live, old(log), old(facts), facts, f, x, log);
    }

    /** facts_remove_fact_origin: -1 without memory for the undo entry, 0 when there is no such support. */
    method RemoveFact(f: Fact, origin: Origin, memory: bool) returns (result: int)
      requires Valid()
      modifies symbols, hexastore, `outside, `undo, `facts, `log
      ensures Valid() && outside == old(outside)
      ensures result == if !Has(SupportOf(old(facts), f), origin) then 0 else if level == 0 || memory then 1 else -1
      ensures facts == if result == 1 then Removed(old(facts), f, origin) else old(facts)
      ensures result != 1 ==> undo == old(undo)
    {
      hide Consistent, Logged, Undoes, Live;
      if f !in facts || !Has(facts[f], origin) { return 0; }
      ghost var live, x := symbols.entries, Set(facts[f], origin, false);
      EntryUndoes(facts, f, x);
      Liveness(facts, undo, live, symbols.nextId, outside);
      var action := if facts[f].asserted && facts[f].derived then State else Add;
      var ok := Push(Entry(action, f, facts[f]), memory);
      if !ok { return -1; }
      if origin.Asserted? { log := log + [LogLine(false, Texts(f))]; }
      if action.State? {
        SetSupport(facts, undo, symbols.entries, symbols.nextId, outside, f, x);
        facts := facts[f := Set(facts[f], origin, false)];
        assert facts.Keys == old(facts).Keys;
      } else {
        RemoveFound(f);
      }
      if level > 0 { Recorded(old(facts), old(undo), snapshot, facts, EntryFor(old(facts), f, x)); }
      LoggedStep(live, old(log), old(facts), facts, f, x, log);
      result := 1;
    }

    /** facts_lookup_spo_locked */
    method Lookup(s: string, p: string, o: string) returns (found: bool, f: Fact)
      requires Valid()
      ensures found ==> f in facts && Texts(f) == Triple(s, p, o)
      ensures !found ==> forall g | g in facts :: Texts(g) != Triple(s, p, o)
      ensures found ==> forall g | g in facts && Texts(g) == Triple(s, p, o) :: g == f
    {
      f := Fact(Symbol(0, s), Symbol(0, p), Symbol(0, o));
      Liveness(facts, undo, symbols.entries, symbols.nextId, outside);
      if s !in symbols.entries || p !in symbols.entries || o !in symbols.entries { return false, f; }
      f := Fact(Symbol(symbols.entries[s].id, s), Symbol(symbols.entries[p].id, p), Symbol(symbols.entries[o].id, o));
      found := f in facts;
      forall g | g in facts && Texts(g) == Triple(s, p, o) ensures g == f {
        SameTexts(symbols.entries, f, g);
      }
    }

    /** facts_add_spo_origin: the texts are held while the fact is added. */
    method AddSpo(s: string, p: string, o: string, origin: Origin, room: nat) returns (ok: bool, ghost f: Fact)
      requires Valid()
      modifies symbols, hexastore, `outside, `undo, `facts, `log
      ensures Valid() && outside == old(outside)
      ensures Names(old(facts), f, Triple(s, p, o))
      ensures facts == if ok then Added(old(facts), f, origin) else old(facts)
      ensures ok == (room >= Needs(old(facts), f, origin, level, NewTexts(old(symbols.entries), s, p, o)))
      ensures Has(SupportOf(old(facts), f), origin) ==> undo == old(undo)
    {
      hide Consistent, Logged, Undoes, Live, Refs;
      ghost var before := outside;
      Liveness(facts, undo, symbols.entries, symbols.nextId, outside);
      StoredTexts(symbols.entries, facts, s, p, o);
      var held, g, left := Hold(s, p, o, room);
      f := g;
      if !held {
        f := Fact(Symbol(0, s), Symbol(0, p), Symbol(0, o));
        return false, f;
      }
      HeldRefs(before, Refs(g));
      Liveness(facts, undo, symbols.entries, symbols.nextId, outside);
      forall g | g in facts && Texts(g) == Triple(s, p, o) ensures g == f {
        SameTexts(symbols.entries, f, g);
      }
      ok := AddFact(g, origin, left);
      Release(g);
    }

    /** facts_remove_spo_origin */
    method RemoveSpo(s: string, p: string, o: string, origin: Origin, memory: bool) returns (result: int)
      requires Valid()
      modifies symbols, hexastore, `outside, `undo, `facts, `log
      ensures Valid() && outside == old(outside)
      ensures result == 1 ==> exists f :: f in old(facts) && Names(old(facts), f, Triple(s, p, o)) && facts == Removed(old(facts), f, origin)
      ensures result != 1 ==> facts == old(facts)
      ensures -1 <= result <= 1 && (memory ==> result != -1)
      ensures result == 0 ==> forall f | f in facts && Texts(f) == Triple(s, p, o) :: !Has(facts[f], origin)
    {
      hide Consistent, Logged, Undoes, Live;
      var found, f := Lookup(s, p, o);
      if !found { return 0; }
      Liveness(facts, undo, symbols.entries, symbols.nextId, outside);
      forall g | g in facts && Texts(g) == Triple(s, p, o) ensures g == f {
        SameTexts(symbols.entries, f, g);
      }
      result := RemoveFact(f, origin, memory);
    }

    /** facts_apply_rollback_entry, with the memory it needs. */
    method ApplyEntry(e: Entry)
      requires Sound() && FactLive(symbols.entries, e.fact) && Supported(e.support)
      requires Logged(log, facts) && Fits(facts, e)
      modifies symbols, hexastore, `outside, `facts, `log
      ensures Sound() && outside == old(outside) && Logged(log, facts)
      ensures facts == Undo(old(facts), e)
    {
      hide Consistent, Logged, Live;
      ghost var live := symbols.entries;
      ghost var had := SupportOf(facts, e.fact);
      Liveness(facts, undo, live, symbols.nextId, outside);
      match e.action
      case Remove =>
        if e.support.asserted { log := log + [LogLine(false, Texts(e.fact))]; }
        RemoveFound(e.fact);
        LoggedStep(live, old(log), old(facts), facts, e.fact, NONE, log);
      case Add =>
        if e.support.asserted { log := log + [LogLine(true, Texts(e.fact))]; }
        var ok := InsertIndexed(e.fact, e.support, 5);
        LoggedStep(live, old(log), old(facts), facts, e.fact, e.support, log);
      case State =>
        if facts[e.fact].asserted != e.support.asserted { log := log + [LogLine(e.support.asserted, Texts(e.fact))]; }
        SetSupport(facts, undo, symbols.entries, symbols.nextId, outside, e.fact, e.support);
        facts := facts[e.fact := e.support];
        assert facts.Keys == old(facts).Keys;
        LoggedStep(live, old(log), old(facts), facts, e.fact, e.support, log);
    }

    /** facts_transaction_begin */
    method Begin()
      requires Valid()
      modifies `level, `snapshot
      ensures Valid() && level == old(level) + 1
      ensures snapshot == if old(level) == 0 then facts else old(snapshot)
    {
      hide Consistent, Logged, Indexes;
      if level == 0 { snapshot := facts; }
      level := level + 1;
    }

    /** transaction_rollback: entries are undone last first, and their references dropped. */
    method Rollback() returns (result: int)
      requires Valid()
      modifies symbols, hexastore, `outside, `undo, `facts, `log, `level
      ensures Valid() && level == 0 && outside == old(outside)
      ensures result == if old(level) == 0 then -1 else 0
      ensures facts == if old(level) == 0 then old(facts) else snapshot
    {
      hide Consistent, Logged, Live, Refs, Supported, Undo, Fits;
      if level == 0 { return -1; }
      while undo != []
        invariant Sound() && Logged(log, facts) && outside == old(outside) && Undoes(facts, undo, snapshot)
        decreases |undo|
      {
        var e := undo[|undo| - 1];
        ghost var before := outside;
        PopOne(facts, undo, symbols.entries, symbols.nextId, outside);
        outside := outside + Refs(e.fact);
        undo := undo[..|undo| - 1];
        ApplyEntry(e);
        HeldRefs(before, Refs(e.fact));
        Release(e.fact);
      }
      level := 0;
      result := 0;
    }

    /** The end of transaction_commit_impl: the undo entries give up their references. */
    method Forget()
      requires Valid() && level > 0
      modifies symbols, `outside, `undo, `level
      ensures Valid() && level == 0 && outside == old(outside)
    {
      hide Consistent, Logged, Live, Refs, Undoes;
      while undo != []
        invariant Sound() && outside == old(outside)
        decreases |undo|
      {
        var e := undo[0];
        ghost var before := outside;
        PopFront(facts, undo, symbols.entries, symbols.nextId, outside);
        outside := outside + Refs(e.fact);
        undo := undo[1..];
        HeldRefs(before, Refs(e.fact));
        Release(e.fact);
      }
      level := 0;
    }

    /** transaction_commit: an inner commit only closes its level. The outer one runs the listener, which may
        change facts itself, when something changed; if it fails, everything is undone. */
    method Commit(listener: seq<Op>, listenerOk: bool) returns (result: int)
      requires Valid() && (level == 1 ==> StaysOpen(listener, 1))
      modifies symbols, hexastore, `outside, `undo, `facts, `log, `level
      ensures Valid() && outside == old(outside)
      ensures level == if old(level) > 1 then old(level) - 1 else 0
      ensures result == if old(level) == 0 || (old(level) == 1 && old(undo) != [] && !listenerOk) then -1 else 0
      ensures old(level) != 1 || old(undo) == [] ==> facts == old(facts)
      ensures old(level) == 1 && result == -1 ==> facts == snapshot
      ensures DerivedOnly(listener) && result == 0 ==> SameAsserted(old(facts), facts)
      ensures old(level) == 1 && old(undo) != [] && result == 0 ==> Gives(listener, old(facts), facts)
    {
      hide Consistent, Logged, Indexes, StaysOpen, Undoable, Unwind;
      if level == 0 { return -1; }
      if level > 1 {
        level := level - 1;
        return 0;
      }
      if undo != [] {
        RunOps(listener);
        if !listenerOk {
          var undone := Rollback();
          return -1;
        }
      }
      Forget();
      result := 0;
    }

    method RunOp(op: Op) returns (ghost took: bool)
      requires Valid() && level > 0 && (op.InnerCommitOp? ==> level > 1)
      modifies symbols, hexastore, `outside, `undo, `facts, `log, `level
      ensures Valid() && outside == old(outside) && level == old(level) + LevelChange(op)
      ensures ((op.AddOp? || op.RemoveOp?) ==> op.origin == Derived) ==> SameAsserted(old(facts), facts)
      ensures Affords(op) ==> took
      ensures forall o: Origin :: Marked(facts, o) == if took then Effect(op, o, Marked(old(facts), o)) else Marked(old(facts), o)
    {
      hide Consistent, Logged, Indexes, Undoable, Unwind, Marked, Names;
      match op
      case AddOp(s, p, o, origin, room) =>
        var ok, f := AddSpo(s, p, o, origin, room);
        AddedMarks(old(facts), f, Triple(s, p, o), origin);
        took := ok;
      case RemoveOp(s, p, o, origin, memory) =>
        var removed := RemoveSpo(s, p, o, origin, memory);
        RemovedMarks(old(facts), facts, Triple(s, p, o), origin, removed);
        took := removed != -1;
      case BeginOp =>
        level := level + 1;
        took := true;
      case InnerCommitOp =>
        level := level - 1;
        took := true;
    }

    /** Any run of additions, removals, nested begins and inner commits: each one that memory does not stop adds one
        kind of support to one triple or takes it away, and nothing else changes. */
    method RunOps(ops: seq<Op>)
      requires Valid() && level > 0 && StaysOpen(ops, level)
      modifies symbols, hexastore, `outside, `undo, `facts, `log, `level
      ensures Valid() && level == LevelAfter(ops, old(level)) && level > 0 && outside == old(outside)
      ensures DerivedOnly(ops) ==> SameAsserted(old(facts), facts)
      ensures Gives(ops, old(facts), facts)
    {
      hide Consistent, Logged, Indexes, Undoable, Unwind, Marked, Names;
      ghost var took: seq<bool> := [];
      for k := 0 to |ops|
        invariant Valid() && level > 0 && outside == old(outside) && StaysOpen(ops[k..], level)
        invariant LevelAfter(ops[k..], level) == LevelAfter(ops, old(level))
        invariant DerivedOnly(ops) ==> SameAsserted(old(facts), facts)
        invariant |took| == k && forall i | 0 <= i < k && Affords(ops[i]) :: took[i]
        invariant forall o: Origin :: Marked(facts, o) == TextsAfter(ops, took, o, Marked(old(facts), o), k)
      {
        ghost var done, ok := took, false;
        assert ops[k..][1..] == ops[k + 1..] && ops[k..][0] == ops[k];
        ok := RunOp(ops[k]);
        took := took + [ok];
        forall o: Origin ensures Marked(facts, o) == TextsAfter(ops, took, o, Marked(old(facts), o), k + 1) {
          TookMore(ops, done, took, o, Marked(old(facts), o), k);
        }
      }
      assert ops[|ops|..] == [];
    }

    /** Whatever runs between begin and rollback, the facts with their supports, the three indexes and every
        symbol's usage count are afterwards what they were. */
    method BeginRunRollback(ops: seq<Op>)
      requires Valid() && level == 0 && StaysOpen(ops, 1)
      modifies this, symbols, hexastore
      ensures Valid() && level == 0 && outside == old(outside) && facts == old(facts)
      ensures hexastore.spo == old(hexastore.spo) && hexastore.pos == old(hexastore.pos) && hexastore.osp == old(hexastore.osp)
      ensures forall text :: Count(symbols.entries, text) == Count(old(symbols.entries), text)
      ensures forall f | f in facts :: FactLive(old(symbols.entries), f) && FactLive(symbols.entries, f)
    {
      hide Consistent, Logged, Indexes, Undoes, StaysOpen;
      ghost var entries, nextId := symbols.entries, symbols.nextId;
      ghost var spo, pos, osp := hexastore.spo, hexastore.pos, hexastore.osp;
      Liveness(facts, undo, entries, nextId, outside);
      Begin();
      RunOps(ops);
      var undone := Rollback();
      Liveness(facts, undo, symbols.entries, symbols.nextId, outside);
      SameUsage(facts, entries, nextId, symbols.entries, symbols.nextId, outside);
      IndexesUnique(spo, hexastore.spo, SPO, facts.Keys);
      IndexesUnique(pos, hexastore.pos, POS, facts.Keys);
      IndexesUnique(osp, hexastore.osp, OSP, facts.Keys);
    }
  }

  /** The texts of a triple that the table does not hold yet, each counted once. */
  function NewTexts(entries: map<string, Interned>, s: string, p: string, o: string): (n: nat)
    ensures n <= 3
  {
    (if s in entries then 0 else 1) + (if p in entries || p == s then 0 else 1)
    + if o in entries || o == s || o == p then 0 else 1
  }

  /** How many allocations it takes to give a fact one kind of support: none if it has it, an undo entry if the fact
      is stored, and otherwise its new texts, the fact, three indexes and the hash set. */
  function Needs(facts: Facts, f: Fact, origin: Origin, level: nat, texts: nat): nat {
    var entry := if level > 0 then 1 else 0;
    if f !in facts then texts + 5 + entry else if Has(facts[f], origin) then 0 else entry
  }

  lemma RoomCounted(entries: map<string, Interned>, first: set<string>, second: set<string>, s: string, p: string, o: string,
                    room: nat, leftS: nat, leftP: nat, leftO: nat, okS: bool, okP: bool, okO: bool)
    requires okS == (s in entries || room > 0) && first == if okS then entries.Keys + {s} else entries.Keys
    requires okP == (p in first || leftS > 0) && second == if okP then first + {p} else first
    requires okO == (o in second || leftP > 0)
    requires leftS == if okS && s !in entries then room - 1 else room
    requires leftP == if okP && p !in first then leftS - 1 else leftS
    requires leftO == if okO && o !in second then leftP - 1 else leftP
    ensures okS && okP && okO <==> room >= NewTexts(entries, s, p, o)
    ensures okS && okP && okO ==> leftO == room - NewTexts(entries, s, p, o)
  {
  }

  ghost function If(held: bool, text: string): multiset<string> {
    if held then multiset{text} else multiset{}
  }

  ghost function Plus(m: multiset<string>, x: multiset<string>, y: multiset<string>, z: multiset<string>): multiset<string> {
    m + x + y + z
  }

  lemma GivenBack(before: multiset<string>, x: multiset<string>, y: multiset<string>, z: multiset<string>)
    ensures var all := Plus(before, x, y, z);
            x <= all && y <= all - x && z <= all - x - y && all - x - y - z == before
  {
  }

  lemma AllHeld(before: multiset<string>, s: string, p: string, o: string)
    ensures Plus(before, If(true, s), If(true, p), If(true, o)) == before + multiset{s, p, o}
  {
  }

  lemma NothingNew(entries: map<string, Interned>, f: Fact)
    requires FactLive(entries, f)
    ensures NewTexts(entries, f.s.text, f.p.text, f.o.text) == 0
  {
  }

  /** A stored triple has no new texts. */
  lemma StoredTexts(entries: map<string, Interned>, facts: Facts, s: string, p: string, o: string)
    requires AllLive(entries, facts)
    ensures NewTexts(entries, s, p, o) > 0 ==> forall f | f in facts :: Texts(f) != Triple(s, p, o)
  {
    forall f | f in facts && Texts(f) == Triple(s, p, o) ensures NewTexts(entries, s, p, o) == 0 {
      NothingNew(entries, f);
    }
  }

  /** What can happen inside an open transaction; `room` and `memory` say how long memory lasts. */
  datatype Op =
    | AddOp(s: string, p: string, o: string, origin: Origin, room: nat)
    | RemoveOp(s: string, p: string, o: string, origin: Origin, memory: bool)
    | BeginOp
    | InnerCommitOp

  // ---- what a run does ----

  /** The triples that have this kind of support. */
  ghost function Marked(facts: Facts, origin: Origin): set<Triple> {
    set f | f in facts && Has(facts[f], origin) :: Texts(f)
  }

  /** `f` spells `t`, and no other stored fact does. */
  ghost predicate Names(facts: Facts, f: Fact, t: Triple) {
    Texts(f) == t && forall g | g in facts && Texts(g) == t :: g == f
  }

  predicate Affords(op: Op) {
    (op.AddOp? ==> op.room >= 9) && (op.RemoveOp? ==> op.memory)
  }

  ghost function Effect(op: Op, origin: Origin, marked: set<Triple>): set<Triple> {
    if op.AddOp? && op.origin == origin then marked + {Triple(op.s, op.p, op.o)}
    else if op.RemoveOp? && op.origin == origin then marked - {Triple(op.s, op.p, op.o)}
    else marked
  }

  /** The effect of the first `n` operations, those that memory stopped having none. */
  ghost function TextsAfter(ops: seq<Op>, took: seq<bool>, origin: Origin, marked: set<Triple>, n: nat): set<Triple>
    requires n <= |took| && n <= |ops|
  {
    if n == 0 then marked
    else
      var before := TextsAfter(ops, took, origin, marked, n - 1);
      if took[n - 1] then Effect(ops[n - 1], origin, before) else before
  }

  /** Running the operations leads from one set of supported facts to the other; whatever memory sufficed for was done. */
  ghost predicate Gives(ops: seq<Op>, before: Facts, after: Facts) {
    exists took: seq<bool> ::
      && |took| == |ops| && (forall i | 0 <= i < |ops| && Affords(ops[i]) :: took[i])
      && forall o: Origin :: Marked(after, o) == TextsAfter(ops, took, o, Marked(before, o), |ops|)
  }

  lemma {:induction false} TookPrefix(ops: seq<Op>, a: seq<bool>, b: seq<bool>, origin: Origin, marked: set<Triple>, n: nat)
    requires n <= |a| && a <= b && n <= |ops|
    ensures TextsAfter(ops, a, origin, marked, n) == TextsAfter(ops, b, origin, marked, n)
  {
    if n > 0 {
      TookPrefix(ops, a, b, origin, marked, n - 1);
    }
  }

  lemma TookMore(ops: seq<Op>, a: seq<bool>, b: seq<bool>, origin: Origin, marked: set<Triple>, k: nat)
    requires |a| == k < |ops| && |b| == k + 1 && a <= b
    ensures var before := TextsAfter(ops, a, origin, marked, k);
            TextsAfter(ops, b, origin, marked, k + 1) == if b[k] then Effect(ops[k], origin, before) else before
  {
    TookPrefix(ops, a, b, origin, marked, k);
  }

  lemma MarkedChange(facts: Facts, f: Fact, t: Triple, x: Support, o: Origin)
    requires Names(facts, f, t)
    ensures Marked(WithSupport(facts, f, x), o) == if Has(x, o) then Marked(facts, o) + {t} else Marked(facts, o) - {t}
    ensures Has(SupportOf(facts, f), o) <==> t in Marked(facts, o)
  {
    var after := WithSupport(facts, f, x);
    forall g | g in facts && Has(facts[g], o) && g != f ensures g in after && Has(after[g], o) {
    }
  }

  lemma AddedMarks(facts: Facts, f: Fact, t: Triple, origin: Origin)
    requires Names(facts, f, t)
    ensures forall o :: Marked(Added(facts, f, origin), o) == if o == origin then Marked(facts, o) + {t} else Marked(facts, o)
  {
    hide Marked, Names, WithSupport;
    forall o ensures Marked(Added(facts, f, origin), o) == if o == origin then Marked(facts, o) + {t} else Marked(facts, o) {
      MarkedChange(facts, f, t, Set(SupportOf(facts, f), origin, true), o);
    }
  }

  lemma RemovedMarks(facts: Facts, after: Facts, t: Triple, origin: Origin, result: int)
    requires result == 1 ==> exists f :: f in facts && Names(facts, f, t) && after == Removed(facts, f, origin)
    requires result != 1 ==> after == facts
    requires result == 0 ==> forall f | f in facts && Texts(f) == t :: !Has(facts[f], origin)
    ensures result in {0, 1} ==>
              forall o :: Marked(after, o) == if o == origin then Marked(facts, o) - {t} else Marked(facts, o)
  {
    if result == 1 {
      var f :| f in facts && Names(facts, f, t) && after == Removed(facts, f, origin);
      hide Marked, Names, WithSupport;
      forall o ensures Marked(after, o) == if o == origin then Marked(facts, o) - {t} else Marked(facts, o) {
        MarkedChange(facts, f, t, Set(SupportOf(facts, f), origin, false), o);
      }
    } else if result == 0 {
      assert t !in Marked(facts, origin);
    }
  }

  /** A listener that touches derived support only, as rule evaluation does. */
  predicate DerivedOnly(ops: seq<Op>) {
    forall op | op in ops :: (op.AddOp? || op.RemoveOp?) ==> op.origin == Derived
  }

  ghost predicate SameAsserted(before: Facts, after: Facts) {
    forall f :: IsAsserted(before, f) == IsAsserted(after, f)
  }

  function LevelChange(op: Op): int {
    if op.BeginOp? then 1 else if op.InnerCommitOp? then -1 else 0
  }

  function LevelAfter(ops: seq<Op>, level: int): int {
    if ops == [] then level else LevelAfter(ops[1..], level + LevelChange(ops[0]))
  }

  /** Each commit closes an inner level. */
  predicate StaysOpen(ops: seq<Op>, level: int) {
    ops == [] || ((ops[0].InnerCommitOp? ==> level > 1)
                  && StaysOpen(ops[1..], level + LevelChange(ops[0])))
  }

  /** Usage counts follow from the stored facts and the outside references. */
  lemma SameUsage(facts: Facts, before: map<string, Interned>, nextBefore: nat, after: map<string, Interned>,
                  nextAfter: nat, outside: multiset<string>)
    requires Consistent(facts, [], before, nextBefore, outside) && Consistent(facts, [], after, nextAfter, outside)
    ensures forall text :: Count(after, text) == Count(before, text)
  {
  }

  lemma Liveness(facts: Facts, undo: seq<Entry>, entries: map<string, Interned>, nextId: nat, outside: multiset<string>)
    requires Consistent(facts, undo, entries, nextId, outside)
    ensures AllLive(entries, facts) && forall f | f in facts :: FactLive(entries, f) && Supported(facts[f])
  {
  }

  lemma LoggedStep(entries: map<string, Interned>, log: seq<LogLine>, facts: Facts, after: Facts, f: Fact, x: Support,
                   logAfter: seq<LogLine>)
    requires AllLive(entries, facts) && FactLive(entries, f) && Logged(log, facts)
    requires after == WithSupport(facts, f, x)
    requires logAfter == log + LineFor(f, SupportOf(facts, f).asserted, x.asserted)
    ensures Logged(logAfter, after)
  {
    hide Logged, FactLive, Texts;
    LoggedChange(entries, log, facts, after, f);
  }

  lemma HeldRefs(outside: multiset<string>, r: multiset<string>)
    ensures r <= outside + r && outside + r - r == outside
  {
  }

  lemma KeysDifferAll(facts: Facts, undo: seq<Entry>, entries: map<string, Interned>, nextId: nat,
                      outside: multiset<string>, f: Fact)
    requires Consistent(facts, undo, entries, nextId, outside) && FactLive(entries, f) && f !in facts
    ensures forall g | g in facts :: KeyOf(SPO, g) != KeyOf(SPO, f)
  {
    forall g | g in facts ensures KeyOf(SPO, g) != KeyOf(SPO, f) {
      KeysDiffer(entries, nextId, Used(facts, undo, outside), f, g);
    }
  }

  lemma UsedBalanced(facts: Facts, undo: seq<Entry>, entries: map<string, Interned>, nextId: nat, outside: multiset<string>)
    requires Consistent(facts, undo, entries, nextId, outside)
    ensures Balanced(entries, nextId, Used(facts, undo, outside))
  {
  }

  lemma UsedOutside(facts: Facts, undo: seq<Entry>, outside: multiset<string>, text: string)
    requires text in outside
    ensures text in Used(facts, undo, outside)
  {
  }

  lemma RefsIn(f: Fact, outside: multiset<string>)
    requires Refs(f) <= outside
    ensures f.s.text in outside && f.p.text in outside - multiset{f.s.text}
    ensures f.o.text in outside - multiset{f.s.text} - multiset{f.p.text}
    ensures outside - multiset{f.s.text} - multiset{f.p.text} - multiset{f.o.text} == outside - Refs(f)
  {
    assert f.s.text in Refs(f) && f.p.text in Refs(f) && f.o.text in Refs(f);
    assert Refs(f) == multiset{f.s.text} + multiset{f.p.text} + multiset{f.o.text};
    MinusThree(outside, f.s.text, f.p.text, f.o.text);
  }

  lemma MinusThree(m: multiset<string>, a: string, b: string, c: string)
    requires multiset{a} + multiset{b} + multiset{c} <= m
    ensures a in m && b in m - multiset{a} && c in m - multiset{a} - multiset{b}
    ensures m - multiset{a} - multiset{b} - multiset{c} == m - (multiset{a} + multiset{b} + multiset{c})
  {
    var abc := multiset{a} + multiset{b} + multiset{c};
    assert m == abc + (m - abc);
    assert m - multiset{a} == multiset{b} + multiset{c} + (m - abc);
    assert m - multiset{a} - multiset{b} == multiset{c} + (m - abc);
    assert m - multiset{a} - multiset{b} - multiset{c} == m - abc;
  }
}
