/** What the store keeps, as values: supported facts, the undo log that leads back to the start of a transaction,
    and the references that hold the symbols (lib/facts.c, lib/transaction.c). */
module Journal {
  import opened Symbols
  import opened Hexastores

  datatype Support = Support(asserted: bool, derived: bool)
  datatype Origin = Asserted | Derived
  type Facts = map<Fact, Support>

  datatype Action = Add | Remove | State
  datatype Entry = Entry(action: Action, fact: Fact, support: Support)

  datatype Triple = Triple(s: string, p: string, o: string)
  datatype LogLine = LogLine(add: bool, fact: Triple)

  predicate Supported(x: Support) {
    x.asserted || x.derived
  }

  function Has(x: Support, origin: Origin): bool {
    if origin.Asserted? then x.asserted else x.derived
  }

  function Set(x: Support, origin: Origin, value: bool): Support {
    if origin.Asserted? then x.(asserted := value) else x.(derived := value)
  }

  // ---- references to symbols ----

  function Refs(f: Fact): multiset<string> {
    multiset{f.s.text, f.p.text, f.o.text}
  }

  ghost function StoredRefs(facts: set<Fact>): multiset<string> {
    if facts == {} then multiset{}
    else var f :| f in facts; StoredRefs(facts - {f}) + Refs(f)
  }

  lemma {:induction false} StoredRefsRemove(facts: set<Fact>, f: Fact)
    requires f in facts
    ensures StoredRefs(facts) == StoredRefs(facts - {f}) + Refs(f)
  {
    var g :| g in facts && StoredRefs(facts) == StoredRefs(facts - {g}) + Refs(g);
    if g != f {
      StoredRefsRemove(facts - {g}, f);
      StoredRefsRemove(facts - {f}, g);
      assert facts - {g} - {f} == facts - {f} - {g};
    }
  }

  function UndoRefs(undo: seq<Entry>): multiset<string> {
    if undo == [] then multiset{} else UndoRefs(undo[..|undo| - 1]) + Refs(undo[|undo| - 1].fact)
  }

  predicate FactLive(entries: map<string, Interned>, f: Fact) {
    Live(entries, f.s) && Live(entries, f.p) && Live(entries, f.o)
  }

  ghost function Used(facts: Facts, undo: seq<Entry>, outside: multiset<string>): multiset<string> {
    StoredRefs(facts.Keys) + UndoRefs(undo) + outside
  }

  /** Usage counts are stored facts plus undo entries plus outside references, and every fact in either place is
      made of live symbols. */
  ghost predicate Consistent(facts: Facts, undo: seq<Entry>, entries: map<string, Interned>, nextId: nat,
                             outside: multiset<string>)
  {
    && Balanced(entries, nextId, Used(facts, undo, outside))
    && (forall f | f in facts :: FactLive(entries, f) && Supported(facts[f]))
    && forall e | e in undo :: FactLive(entries, e.fact) && Supported(e.support)
  }

  lemma StoreOne(facts: Facts, undo: seq<Entry>, entries: map<string, Interned>, nextId: nat, outside: multiset<string>,
                 f: Fact, x: Support)
    requires Consistent(facts, undo, entries, nextId, outside) && f !in facts && Refs(f) <= outside
    requires FactLive(entries, f) && Supported(x)
    ensures Consistent(facts[f := x], undo, entries, nextId, outside - Refs(f))
  {
    hide Balanced, Refs, FactLive;
    StoredRefsRemove(facts[f := x].Keys, f);
    assert facts[f := x].Keys - {f} == facts.Keys;
    Transfer(StoredRefs(facts.Keys), UndoRefs(undo), outside, Refs(f));
  }

  lemma Transfer(a: multiset<string>, b: multiset<string>, c: multiset<string>, r: multiset<string>)
    requires r <= c
    ensures (a + r) + b + (c - r) == a + b + c && a + (b + r) + (c - r) == a + b + c
  {
  }

  lemma DropOne(facts: Facts, undo: seq<Entry>, entries: map<string, Interned>, nextId: nat, outside: multiset<string>,
                f: Fact)
    requires Consistent(facts, undo, entries, nextId, outside) && f in facts
    ensures Consistent(facts - {f}, undo, entries, nextId, outside + Refs(f))
  {
    hide Balanced, Refs, FactLive;
    StoredRefsRemove(facts.Keys, f);
    assert (facts - {f}).Keys == facts.Keys - {f};
    var rest := StoredRefs(facts.Keys - {f});
    assert (rest + Refs(f)) + UndoRefs(undo) + outside == rest + UndoRefs(undo) + (outside + Refs(f));
  }

  lemma SetSupport(facts: Facts, undo: seq<Entry>, entries: map<string, Interned>, nextId: nat, outside: multiset<string>,
                   f: Fact, x: Support)
    requires Consistent(facts, undo, entries, nextId, outside) && f in facts && Supported(x)
    ensures Consistent(facts[f := x], undo, entries, nextId, outside)
  {
    hide Balanced, FactLive;
    assert facts[f := x].Keys == facts.Keys;
  }

  lemma PushOne(facts: Facts, undo: seq<Entry>, entries: map<string, Interned>, nextId: nat, outside: multiset<string>,
                e: Entry)
    requires Consistent(facts, undo, entries, nextId, outside) && Refs(e.fact) <= outside
    requires FactLive(entries, e.fact) && Supported(e.support)
    ensures Consistent(facts, undo + [e], entries, nextId, outside - Refs(e.fact))
  {
    hide Balanced, Refs, FactLive;
    assert (undo + [e])[..|undo|] == undo;
    Transfer(StoredRefs(facts.Keys), UndoRefs(undo), outside, Refs(e.fact));
  }

  lemma PopOne(facts: Facts, undo: seq<Entry>, entries: map<string, Interned>, nextId: nat, outside: multiset<string>)
    requires Consistent(facts, undo, entries, nextId, outside) && undo != []
    ensures var e := undo[|undo| - 1];
            Consistent(facts, undo[..|undo| - 1], entries, nextId, outside + Refs(e.fact)) && FactLive(entries, e.fact)
            && Supported(e.support)
  {
    hide Balanced, Refs, FactLive;
    var rest, r := undo[..|undo| - 1], Refs(undo[|undo| - 1].fact);
    assert StoredRefs(facts.Keys) + (UndoRefs(rest) + r) + outside == StoredRefs(facts.Keys) + UndoRefs(rest) + (outside + r);
    assert forall e | e in rest :: e in undo;
  }

  /** One outside reference more, or one less, touches no stored fact and no undo entry. */
  lemma OutsideMore(facts: Facts, undo: seq<Entry>, before: map<string, Interned>, after: map<string, Interned>,
                    nextId: nat, nextAfter: nat, outside: multiset<string>, text: string)
    requires Consistent(facts, undo, before, nextId, outside)
    requires Balanced(after, nextAfter, Used(facts, undo, outside) + multiset{text})
    requires forall s | Live(before, s) :: Live(after, s)
    ensures Consistent(facts, undo, after, nextAfter, outside + multiset{text})
  {
    hide Balanced, StoredRefs, UndoRefs;
    assert Used(facts, undo, outside) + multiset{text} == Used(facts, undo, outside + multiset{text});
  }

  lemma OutsideSame(facts: Facts, undo: seq<Entry>, entries: map<string, Interned>, nextId: nat, nextAfter: nat,
                    outside: multiset<string>)
    requires Consistent(facts, undo, entries, nextId, outside) && nextId <= nextAfter
    ensures Consistent(facts, undo, entries, nextAfter, outside)
  {
    hide Used, FactLive;
  }

  lemma {:induction false} UndoRefsHold(undo: seq<Entry>, e: Entry)
    requires e in undo
    ensures Refs(e.fact) <= UndoRefs(undo)
  {
    if e != undo[|undo| - 1] { UndoRefsHold(undo[..|undo| - 1], e); }
  }

  lemma UsedBy(facts: Facts, undo: seq<Entry>, f: Fact)
    requires f in facts || exists e :: e in undo && e.fact == f
    ensures Refs(f) <= StoredRefs(facts.Keys) + UndoRefs(undo)
  {
    if f in facts {
      StoredRefsRemove(facts.Keys, f);
    } else {
      var e :| e in undo && e.fact == f;
      UndoRefsHold(undo, e);
    }
  }

  lemma StaysLive(before: map<string, Interned>, after: map<string, Interned>, used: multiset<string>, f: Fact)
    requires FactLive(before, f) && Refs(f) <= used
    requires forall s | Live(before, s) && s.text in used :: Live(after, s)
    ensures FactLive(after, f)
  {
    assert f.s.text in Refs(f) && f.p.text in Refs(f) && f.o.text in Refs(f);
  }

  lemma OutsideLess(facts: Facts, undo: seq<Entry>, before: map<string, Interned>, after: map<string, Interned>,
                    nextId: nat, outside: multiset<string>, text: string)
    requires Consistent(facts, undo, before, nextId, outside) && text in outside
    requires Balanced(after, nextId, Used(facts, undo, outside) - multiset{text})
    requires forall s | Live(before, s) && s.text in Used(facts, undo, outside) - multiset{text} :: Live(after, s)
    ensures Consistent(facts, undo, after, nextId, outside - multiset{text})
  {
    hide Balanced, FactLive, Live, StoredRefs, UndoRefs, Refs;
    var used := Used(facts, undo, outside) - multiset{text};
    assert used == Used(facts, undo, outside - multiset{text});
    forall f | f in facts ensures FactLive(after, f) {
      UsedBy(facts, undo, f);
      StaysLive(before, after, used, f);
    }
    forall e | e in undo ensures FactLive(after, e.fact) {
      UsedBy(facts, undo, e.fact);
      StaysLive(before, after, used, e.fact);
    }
  }

  // ---- undoing ----

  /** facts_apply_rollback_entry on the supported facts. */
  function Undo(facts: Facts, e: Entry): Facts {
    match e.action
    case Remove => facts - {e.fact}
    case Add => if e.fact in facts then facts else facts[e.fact := e.support]
    case State => if e.fact in facts then facts[e.fact := e.support] else facts
  }

  /** The entry fits the facts it is applied to. */
  predicate Fits(facts: Facts, e: Entry) {
    match e.action
    case Remove => e.fact in facts && facts[e.fact] == e.support
    case Add => e.fact !in facts
    case State => e.fact in facts
  }

  function Unwind(facts: Facts, undo: seq<Entry>): Facts
    decreases |undo|
  {
    if undo == [] then facts else Unwind(Undo(facts, undo[|undo| - 1]), undo[..|undo| - 1])
  }

  predicate Undoable(facts: Facts, undo: seq<Entry>)
    decreases |undo|
  {
    undo == [] || (Fits(facts, undo[|undo| - 1]) && Undoable(Undo(facts, undo[|undo| - 1]), undo[..|undo| - 1]))
  }

  /** The undo log leads back to `snapshot`. */
  predicate Undoes(facts: Facts, undo: seq<Entry>, snapshot: Facts) {
    Undoable(facts, undo) && Unwind(facts, undo) == snapshot
  }

  /** A change with the entry that undoes it. */
  lemma Recorded(facts: Facts, undo: seq<Entry>, snapshot: Facts, after: Facts, e: Entry)
    requires Undoes(facts, undo, snapshot) && Fits(after, e) && Undo(after, e) == facts
    ensures Undoes(after, undo + [e], snapshot)
  {
    assert (undo + [e])[..|undo|] == undo;
  }

  // ---- the operation log ----

  function Texts(f: Fact): Triple {
    Triple(f.s.text, f.p.text, f.o.text)
  }

  function AssertedTexts(facts: Facts): set<Triple> {
    set f | f in facts && facts[f].asserted :: Texts(f)
  }

  function Replayed(log: seq<LogLine>): set<Triple> {
    if log == [] then {}
    else
      var last, before := log[|log| - 1], Replayed(log[..|log| - 1]);
      if last.add then before + {last.fact} else before - {last.fact}
  }

  /** No line removes a fact that is not there, which reading the log back would reject. */
  predicate Replayable(log: seq<LogLine>) {
    log == [] || (Replayable(log[..|log| - 1]) && (log[|log| - 1].add || log[|log| - 1].fact in Replayed(log[..|log| - 1])))
  }

  predicate Logged(log: seq<LogLine>, facts: Facts) {
    Replayable(log) && Replayed(log) == AssertedTexts(facts)
  }

  ghost predicate AllLive(entries: map<string, Interned>, facts: Facts) {
    forall f | f in facts :: FactLive(entries, f)
  }

  /** The line, if any, that goes with changing the support of one fact. */
  function LineFor(f: Fact, before: bool, after: bool): seq<LogLine> {
    if before == after then [] else [LogLine(after, Texts(f))]
  }

  function IsAsserted(facts: Facts, f: Fact): bool {
    f in facts && facts[f].asserted
  }

  lemma LoggedChange(entries: map<string, Interned>, log: seq<LogLine>, facts: Facts, after: Facts, f: Fact)
    requires AllLive(entries, facts) && FactLive(entries, f) && Logged(log, facts)
    requires forall g | g != f :: IsAsserted(facts, g) == IsAsserted(after, g)
    ensures Logged(log + LineFor(f, IsAsserted(facts, f), IsAsserted(after, f)), after)
  {
    hide Replayable, Replayed;
    AssertedChange(entries, facts, after, f);
    if IsAsserted(facts, f) == IsAsserted(after, f) {
      assert log + [] == log;
    } else {
      OneLine(log, LogLine(IsAsserted(after, f), Texts(f)));
      if IsAsserted(facts, f) { assert Texts(f) in AssertedTexts(facts); }
    }
  }

  lemma OneLine(log: seq<LogLine>, line: LogLine)
    ensures Replayed(log + [line]) == if line.add then Replayed(log) + {line.fact} else Replayed(log) - {line.fact}
    ensures Replayable(log + [line]) <==> Replayable(log) && (line.add || line.fact in Replayed(log))
  {
    assert (log + [line])[..|log|] == log;
  }

  lemma AssertedChange(entries: map<string, Interned>, facts: Facts, after: Facts, f: Fact)
    requires AllLive(entries, facts) && FactLive(entries, f)
    requires forall g | g != f :: IsAsserted(facts, g) == IsAsserted(after, g)
    ensures AssertedTexts(after) ==
            if IsAsserted(after, f) then AssertedTexts(facts) + {Texts(f)}
            else if IsAsserted(facts, f) then AssertedTexts(facts) - {Texts(f)} else AssertedTexts(facts)
  {
    forall t
      ensures t in AssertedTexts(after) <==>
              ((IsAsserted(after, f) && t == Texts(f)) || (t in AssertedTexts(facts) && !(IsAsserted(facts, f) && t == Texts(f))))
    {
      if t in AssertedTexts(after) {
        var g :| IsAsserted(after, g) && Texts(g) == t;
        if g != f {
          assert IsAsserted(facts, g);
          SameTexts(entries, f, g);
        }
      }
      if t in AssertedTexts(facts) {
        var g :| IsAsserted(facts, g) && Texts(g) == t;
        if g != f {
          assert IsAsserted(after, g);
        }
      }
    }
  }

  lemma SameTexts(entries: map<string, Interned>, f: Fact, g: Fact)
    requires FactLive(entries, f) && FactLive(entries, g)
    ensures Texts(f) == Texts(g) <==> f == g
  {
  }

  // ---- what adding and removing mean ----

  const NONE := Support(false, false)

  function SupportOf(facts: Facts, f: Fact): Support {
    if f in facts then facts[f] else NONE
  }

  /** `f` with the given support, or without a place if it has none. */
  function WithSupport(facts: Facts, f: Fact, x: Support): Facts {
    if Supported(x) then facts[f := x] else facts - {f}
  }

  function Added(facts: Facts, f: Fact, origin: Origin): Facts {
    WithSupport(facts, f, Set(SupportOf(facts, f), origin, true))
  }

  function Removed(facts: Facts, f: Fact, origin: Origin): Facts {
    WithSupport(facts, f, Set(SupportOf(facts, f), origin, false))
  }

  /** The entry pushed before the support of `f` changes to `x`. */
  function EntryFor(facts: Facts, f: Fact, x: Support): Entry {
    if f !in facts then Entry(Remove, f, x) else if Supported(x) then Entry(State, f, facts[f]) else Entry(Add, f, facts[f])
  }

  /** That entry undoes the change. */
  lemma EntryUndoes(facts: Facts, f: Fact, x: Support)
    requires f in facts || Supported(x)
    ensures Fits(WithSupport(facts, f, x), EntryFor(facts, f, x))
    ensures Undo(WithSupport(facts, f, x), EntryFor(facts, f, x)) == facts
  {
  }

  /** Distinct live facts have distinct keys. */
  lemma KeysDiffer(entries: map<string, Interned>, nextId: nat, used: multiset<string>, f: Fact, g: Fact)
    requires Balanced(entries, nextId, used) && FactLive(entries, f) && FactLive(entries, g) && f != g
    ensures KeyOf(SPO, f) != KeyOf(SPO, g)
  {
  }

  lemma {:induction false} UndoRefsFront(undo: seq<Entry>)
    requires undo != []
    ensures UndoRefs(undo) == Refs(undo[0].fact) + UndoRefs(undo[1..])
  {
    hide Refs;
    if |undo| == 1 {
      assert undo[..0] == [] && undo[1..] == [];
    } else {
      UndoRefsFront(undo[..|undo| - 1]);
      assert undo[..|undo| - 1][1..] == undo[1..][..|undo[1..]| - 1];
    }
  }

  lemma PopFront(facts: Facts, undo: seq<Entry>, entries: map<string, Interned>, nextId: nat, outside: multiset<string>)
    requires Consistent(facts, undo, entries, nextId, outside) && undo != []
    ensures Consistent(facts, undo[1..], entries, nextId, outside + Refs(undo[0].fact))
  {
    hide Balanced, Refs, FactLive;
    UndoRefsFront(undo);
    var rest, r := undo[1..], Refs(undo[0].fact);
    assert StoredRefs(facts.Keys) + (r + UndoRefs(rest)) + outside == StoredRefs(facts.Keys) + UndoRefs(rest) + (outside + r);
    assert forall e | e in rest :: e in undo;
  }
}
