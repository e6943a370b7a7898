/** The symbol table: one live symbol per text, counted by use (lib/intern.c). */
module Symbols {
  datatype Symbol = Symbol(id: nat, text: string)
  datatype Interned = Interned(id: nat, usage: nat)

  function Count(entries: map<string, Interned>, text: string): nat {
    if text in entries then entries[text].usage else 0
  }

  /** Every text has one entry for as long as it is used, counted exactly, and ids are never shared. */
  ghost predicate Balanced(entries: map<string, Interned>, nextId: nat, used: multiset<string>) {
    && (forall x :: Count(entries, x) == used[x])
    && (forall x | x in entries :: entries[x].usage > 0 && entries[x].id < nextId)
    && forall x, y | x in entries && y in entries && entries[x].id == entries[y].id :: x == y
  }

  predicate Live(entries: map<string, Interned>, sym: Symbol) {
    sym.text in entries && entries[sym.text].id == sym.id
  }

  class SymbolTable {
    var entries: map<string, Interned>
    var nextId: nat

    constructor ()
      ensures entries == map[] && Balanced(entries, nextId, multiset{})
    {
      entries, nextId := map[], 1;
    }

    /** intern_string_view: a new text needs memory, and may use up an id even when it gets none. */
    method Intern(text: string, memory: bool, ghost used: multiset<string>) returns (ok: bool, sym: Symbol)
      requires Balanced(entries, nextId, used)
      modifies this
      ensures ok == (text in old(entries) || memory)
      ensures ok ==> Balanced(entries, nextId, used + multiset{text}) && sym.text == text && Live(entries, sym)
      ensures !ok ==> Balanced(entries, nextId, used) && entries == old(entries)
      ensures entries.Keys == if ok then old(entries.Keys) + {text} else old(entries.Keys)
      ensures forall s | Live(old(entries), s) :: Live(entries, s)
      ensures old(nextId) <= nextId && forall x | x in entries && x !in old(entries) :: entries[x].id >= old(nextId)
    {
      hide Balanced;
      BalancedMore(entries, nextId, used, text);
      sym := Symbol(0, text);
      if text !in entries {
        if !memory {
          if * { nextId := nextId + 1; }
          return false, sym;
        }
        entries := entries[text := Interned(nextId, 1)];
        nextId := nextId + 1;
      } else {
        entries := entries[text := entries[text].(usage := entries[text].usage + 1)];
      }
      ok, sym := true, Symbol(entries[text].id, text);
    }

    /** intern_unstring: the entry goes away with its last use. */
    method Unintern(sym: Symbol, ghost used: multiset<string>)
      requires Balanced(entries, nextId, used) && sym.text in used
      modifies `entries
      ensures Balanced(entries, nextId, used - multiset{sym.text})
      ensures forall s | Live(old(entries), s) && s.text in used - multiset{sym.text} :: Live(entries, s)
    {
      assert Count(entries, sym.text) == used[sym.text];
      var e := entries[sym.text];
      if e.usage == 1 {
        entries := entries - {sym.text};
      } else {
        entries := entries[sym.text := e.(usage := e.usage - 1)];
      }
      ghost var after := used - multiset{sym.text};
      forall x ensures Count(entries, x) == after[x] {
        assert Count(old(entries), x) == used[x];
      }
      forall s | Live(old(entries), s) && s.text in after ensures Live(entries, s) {
        assert Count(entries, s.text) == after[s.text];
      }
    }
  }

  /** One more use of a text, which is new or not; an id that goes unused does no harm. */
  lemma BalancedMore(entries: map<string, Interned>, nextId: nat, used: multiset<string>, text: string)
    requires Balanced(entries, nextId, used)
    ensures text in entries ==>
              Balanced(entries[text := entries[text].(usage := entries[text].usage + 1)], nextId, used + multiset{text})
    ensures text !in entries ==> Balanced(entries[text := Interned(nextId, 1)], nextId + 1, used + multiset{text})
    ensures Balanced(entries, nextId + 1, used)
    ensures forall x | x in entries :: entries[x].id < nextId
  {
    assert Count(entries, text) == used[text];
  }

  /** A text keeps its symbol while it is used, so equal texts mean equal live symbols. */
  lemma LiveUnique(entries: map<string, Interned>, a: Symbol, b: Symbol)
    requires Live(entries, a) && Live(entries, b) && a.text == b.text
    ensures a == b
  {
  }
}
