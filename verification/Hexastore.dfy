/** The three ordered indexes over stored facts (lib/hexastore.c). */
module Hexastores {
  import opened Symbols

  datatype Fact = Fact(s: Symbol, p: Symbol, o: Symbol)
  datatype Order = SPO | POS | OSP
  datatype Key = Key(first: nat, second: nat, third: nat)
  type Index = map<Key, Fact>

  function KeyOf(order: Order, f: Fact): Key {
    match order
    case SPO => Key(f.s.id, f.p.id, f.o.id)
    case POS => Key(f.p.id, f.o.id, f.s.id)
    case OSP => Key(f.o.id, f.s.id, f.p.id)
  }

  /** The index holds exactly these facts, each under its own key. */
  ghost predicate Indexes(m: Index, order: Order, facts: set<Fact>) {
    && (forall f | f in facts :: KeyOf(order, f) in m && m[KeyOf(order, f)] == f)
    && forall k | k in m :: m[k] in facts && KeyOf(order, m[k]) == k
  }

  lemma KeysTogether(f: Fact, g: Fact, a: Order, b: Order)
    ensures KeyOf(a, f) == KeyOf(a, g) <==> KeyOf(b, f) == KeyOf(b, g)
  {
  }

  lemma IndexesInsert(m: Index, order: Order, facts: set<Fact>, f: Fact)
    requires Indexes(m, order, facts) && KeyOf(order, f) !in m
    ensures Indexes(m[KeyOf(order, f) := f], order, facts + {f})
  {
  }

  lemma IndexesRemove(m: Index, order: Order, facts: set<Fact>, f: Fact)
    requires Indexes(m, order, facts) && f in facts
    ensures Indexes(m - {KeyOf(order, f)}, order, facts - {f})
  {
  }

  /** Two indexes over the same facts are the same. */
  lemma IndexesUnique(a: Index, b: Index, order: Order, facts: set<Fact>)
    requires Indexes(a, order, facts) && Indexes(b, order, facts)
    ensures a == b
  {
    forall k ensures (k in a <==> k in b) && (k in a ==> a[k] == b[k]) {
      if k in a { assert KeyOf(order, a[k]) == k; }
      if k in b { assert KeyOf(order, b[k]) == k; }
    }
  }

  class Hexastore {
    var spo: Index
    var pos: Index
    var osp: Index

    ghost predicate Holds(facts: set<Fact>)
      reads this
    {
      Indexes(spo, SPO, facts) && Indexes(pos, POS, facts) && Indexes(osp, OSP, facts)
    }

    constructor ()
      ensures Holds({})
    {
      spo, pos, osp := map[], map[], map[];
    }

    ghost predicate Clashes(f: Fact, facts: set<Fact>) {
      exists g :: g in facts && KeyOf(SPO, g) == KeyOf(SPO, f)
    }

    /** hexastore_insert, when memory lasts for `room` trie insertions: all three indexes gain the fact or none.
        Only when the key is taken does a failure leave a trace: the first trie has overwritten its value by then. */
    method Insert(f: Fact, room: nat, ghost facts: set<Fact>) returns (ok: bool)
      requires Holds(facts)
      modifies this
      ensures ok <==> room >= 3 && !Clashes(f, facts)
      ensures !Clashes(f, facts) ==> Holds(if ok then facts + {f} else facts)
      ensures !ok ==> pos == old(pos) && osp == old(osp)
      ensures !ok ==> spo == if Clashes(f, facts) then old(spo)[KeyOf(SPO, f) := f] else old(spo)
    {
      forall g, order { KeysTogether(f, g, SPO, order); }
      var spoKey, posKey, ospKey := KeyOf(SPO, f), KeyOf(POS, f), KeyOf(OSP, f);
      if spoKey in spo {
        spo := spo[spoKey := f];
        return false;
      }
      if room < 1 { return false; }
      spo := spo[spoKey := f];
      if posKey in pos || room < 2 {
        spo := spo - {spoKey};
        assert spo == old(spo);
        return false;
      }
      pos := pos[posKey := f];
      if ospKey in osp || room < 3 {
        pos := pos - {posKey};
        spo := spo - {spoKey};
        assert spo == old(spo) && pos == old(pos);
        return false;
      }
      osp := osp[ospKey := f];
      IndexesInsert(old(spo), SPO, facts, f);
      IndexesInsert(old(pos), POS, facts, f);
      IndexesInsert(old(osp), OSP, facts, f);
      ok := true;
    }

    /** hexastore_remove */
    method Remove(f: Fact, ghost facts: set<Fact>)
      requires Holds(facts) && f in facts
      modifies this
      ensures Holds(facts - {f})
    {
      IndexesRemove(spo, SPO, facts, f);
      IndexesRemove(pos, POS, facts, f);
      IndexesRemove(osp, OSP, facts, f);
      spo, pos, osp := spo - {KeyOf(SPO, f)}, pos - {KeyOf(POS, f)}, osp - {KeyOf(OSP, f)};
    }

    /** hexastore_compact, when memory lasts for `room` trie insertions: three new tries are filled from the first one
        and swapped in, unless memory runs out on the way. Either way the indexes hold what they held. */
    method Compact(room: nat, ghost facts: set<Fact>) returns (swapped: bool)
      requires Holds(facts)
      modifies this
      ensures Holds(facts) && spo == old(spo) && pos == old(pos) && osp == old(osp)
      ensures swapped <==> room >= 3 * |spo|
    {
      var newSpo, newPos, newOsp;
      swapped, newSpo, newPos, newOsp := Refill(spo, room, facts);
      if !swapped { return; }
      IndexesUnique(spo, newSpo, SPO, facts);
      IndexesUnique(pos, newPos, POS, facts);
      IndexesUnique(osp, newOsp, OSP, facts);
      spo, pos, osp := newSpo, newPos, newOsp;
    }
  }

  /** The three indexes of the facts of one of them. */
  method Refill(from: Index, room: nat, ghost facts: set<Fact>)
    returns (ok: bool, spo: Index, pos: Index, osp: Index)
    requires Indexes(from, SPO, facts)
    ensures ok <==> room >= 3 * |from|
    ensures ok ==> Indexes(spo, SPO, facts) && Indexes(pos, POS, facts) && Indexes(osp, OSP, facts)
  {
    hide KeyOf, Indexes;
    spo, pos, osp := map[], map[], map[];
    ghost var copied: set<Fact> := {};
    EmptyIndexes();
    var rest, left: nat := from.Keys, room;
    while rest != {}
      invariant rest <= from.Keys && copied == set k | k in from.Keys - rest :: from[k]
      invariant Indexes(spo, SPO, copied) && Indexes(pos, POS, copied) && Indexes(osp, OSP, copied)
      invariant left + 3 * (|from| - |rest|) == room
      decreases rest
    {
      var k :| k in rest;
      var f := from[k];
      NotCopied(from, facts, rest, copied, k);
      NotIn(spo, SPO, copied, f);
      NotIn(pos, POS, copied, f);
      NotIn(osp, OSP, copied, f);
      assert |rest| == |rest - {k}| + 1;
      if left < 3 { return false, spo, pos, osp; }
      IndexesInsert(spo, SPO, copied, f);
      IndexesInsert(pos, POS, copied, f);
      IndexesInsert(osp, OSP, copied, f);
      spo, pos, osp := spo[KeyOf(SPO, f) := f], pos[KeyOf(POS, f) := f], osp[KeyOf(OSP, f) := f];
      copied, rest, left := copied + {f}, rest - {k}, left - 3;
    }
    AllCopied(from, facts, copied);
    ok := true;
  }

  lemma EmptyIndexes()
    ensures forall order :: Indexes(map[], order, {})
  {
  }

  lemma NotIn(m: Index, order: Order, facts: set<Fact>, f: Fact)
    requires Indexes(m, order, facts) && forall g | g in facts :: KeyOf(order, g) != KeyOf(order, f)
    ensures KeyOf(order, f) !in m
  {
  }

  lemma NotCopied(spo: Index, facts: set<Fact>, rest: set<Key>, copied: set<Fact>, k: Key)
    requires Indexes(spo, SPO, facts) && k in rest && rest <= spo.Keys
    requires copied == set j | j in spo.Keys - rest :: spo[j]
    ensures forall g, order | g in copied :: KeyOf(order, g) != KeyOf(order, spo[k])
  {
    forall g, order | g in copied ensures KeyOf(order, g) != KeyOf(order, spo[k]) {
      KeysTogether(g, spo[k], order, SPO);
    }
  }

  lemma AllCopied(spo: Index, facts: set<Fact>, copied: set<Fact>)
    requires Indexes(spo, SPO, facts) && copied == set k | k in spo.Keys :: spo[k]
    ensures copied == facts
  {
    forall f | f in facts ensures f in copied {
      assert spo[KeyOf(SPO, f)] == f;
    }
  }
}
