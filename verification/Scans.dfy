/** Range scans over the three indexes: keys of 24 bytes, the choice of the index for a pattern, and the cursor
    (lib/hexastore.c, lib/facts.c). */
module Scans {
  import opened Collections
  import opened Symbols
  import opened Hexastores
  import opened Journal
  import opened RaxTree
  import R = RaxIterators

  const LAST_ID := 0xFFFF_FFFF_FFFF_FFFF

  // ---- key bytes ----

  predicate Fits(n: nat, width: nat) {
    if width == 0 then n == 0 else Fits(n / 256, width - 1)
  }

  /** encode_uint64_be for any width: the most significant byte first. */
  function BigEndian(n: nat, width: nat): (b: Bytes)
    ensures |b| == width
  {
    if width == 0 then [] else BigEndian(n / 256, width - 1) + [n % 256]
  }

  lemma FitsEight(n: nat)
    requires n <= LAST_ID
    ensures Fits(n, 8)
  {
    assert Power(2) == 0x1_0000 && Power(4) == 0x1_0000_0000 && Power(6) == 0x1_0000_0000_0000;
    FitsStep(n, 8, 0x1_0000_0000_0000_0000);
  }

  lemma {:induction false} FitsStep(n: nat, width: nat, bound: nat)
    requires n < bound && bound == Power(width)
    ensures Fits(n, width)
  {
    if width > 0 {
      assert bound == 256 * Power(width - 1);
      assert n / 256 < Power(width - 1);
      FitsStep(n / 256, width - 1, Power(width - 1));
    }
  }

  function Power(width: nat): nat {
    if width == 0 then 1 else 256 * Power(width - 1)
  }

  lemma LastByte(c: Byte, d: Byte)
    ensures R.Above([c], [d]) <==> c < d
  {
    R.AboveOne(c, [d]);
  }

  lemma AboveSame(p: Bytes)
    ensures !R.Above(p, p)
  {
  }

  /** Big-endian byte order is the order of the numbers. */
  lemma {:induction false} BigEndianOrder(a: nat, b: nat, width: nat)
    requires Fits(a, width) && Fits(b, width)
    ensures R.Above(BigEndian(a, width), BigEndian(b, width)) <==> a < b
    ensures BigEndian(a, width) == BigEndian(b, width) <==> a == b
  {
    if width > 0 {
      BigEndianOrder(a / 256, b / 256, width - 1);
      Appended(BigEndian(a / 256, width - 1), BigEndian(b / 256, width - 1), a % 256, b % 256);
      Quotients(a, b);
    }
  }

  lemma Quotients(a: nat, b: nat)
    ensures a < b <==> a / 256 < b / 256 || (a / 256 == b / 256 && a % 256 < b % 256)
    ensures a == b <==> a / 256 == b / 256 && a % 256 == b % 256
  {
  }

  lemma Appended(p: Bytes, q: Bytes, c: Byte, d: Byte)
    requires |p| == |q|
    ensures R.Above(p + [c], q + [d]) <==> R.Above(p, q) || (p == q && c < d)
    ensures p + [c] == q + [d] <==> p == q && c == d
  {
    Joined(p, q, [c], [d]);
    LastByte(c, d);
  }

  lemma Joined(p: Bytes, q: Bytes, r: Bytes, t: Bytes)
    requires |p| == |q| && |r| == |t|
    ensures R.Above(p + r, q + t) <==> R.Above(p, q) || (p == q && R.Above(r, t))
    ensures p + r == q + t <==> p == q && r == t
  {
    R.AboveAppend(p, r, q + t);
    AboveLonger(p, q, t);
    assert (q + t)[..|p|] == q && (q + t)[|p|..] == t;
    assert (p + r)[..|p|] == p && (p + r)[|p|..] == r;
    assert p <= q + t <==> p == q;
  }

  lemma AboveLonger(p: Bytes, q: Bytes, t: Bytes)
    requires |p| == |q|
    ensures R.Above(p, q + t) <==> R.Above(p, q)
  {
    forall i: nat | i < |p| ensures (q + t)[..i] == q[..i] && (q + t)[i] == q[i] {
    }
    if R.Above(p, q) {
      var i: nat :| i < |p| && i < |q| && p[..i] == q[..i] && p[i] < q[i];
      assert p[..i] == (q + t)[..i];
    }
  }

  predicate FitsKey(k: Key) {
    k.first <= LAST_ID && k.second <= LAST_ID && k.third <= LAST_ID
  }

  /** encode_triple_key */
  function KeyBytes(k: Key): (b: Bytes)
    ensures |b| == 24
  {
    BigEndian(k.first, 8) + (BigEndian(k.second, 8) + BigEndian(k.third, 8))
  }

  predicate KeyLess(a: Key, b: Key) {
    a.first < b.first || (a.first == b.first && (a.second < b.second || (a.second == b.second && a.third < b.third)))
  }

  /** Byte order of the keys is the lexicographic order of the ids, and no two keys share their bytes. */
  lemma KeyBytesOrder(a: Key, b: Key)
    requires FitsKey(a) && FitsKey(b)
    ensures R.Less(KeyBytes(a), KeyBytes(b)) <==> KeyLess(a, b)
    ensures KeyBytes(a) == KeyBytes(b) <==> a == b
  {
    FitsEight(a.first);
    FitsEight(a.second);
    FitsEight(a.third);
    FitsEight(b.first);
    FitsEight(b.second);
    FitsEight(b.third);
    hide Fits, BigEndian, R.Above;
    BigEndianOrder(a.first, b.first, 8);
    BigEndianOrder(a.second, b.second, 8);
    BigEndianOrder(a.third, b.third, 8);
    Joined(BigEndian(a.second, 8), BigEndian(b.second, 8), BigEndian(a.third, 8), BigEndian(b.third, 8));
    Joined(BigEndian(a.first, 8), BigEndian(b.first, 8), BigEndian(a.second, 8) + BigEndian(a.third, 8),
           BigEndian(b.second, 8) + BigEndian(b.third, 8));
  }

  // ---- the cursor ----

  predicate FitsFact(f: Fact) {
    f.s.id <= LAST_ID && f.p.id <= LAST_ID && f.o.id <= LAST_ID
  }

  /** The tree of an index: each fact under the bytes of its key, nothing else. */
  ghost predicate IndexTree(tree: Node<Fact>, order: Order, facts: set<Fact>) {
    && Wf(tree) && (forall f | f in facts :: FitsFact(f))
    && (forall f, g | f in facts && g in facts && KeyOf(order, f) == KeyOf(order, g) :: f == g)
    && (forall f | f in facts :: Get(tree, KeyBytes(KeyOf(order, f))) == Some(f))
    && forall x | Get(tree, x).Some? :: Get(tree, x).value in facts && x == KeyBytes(KeyOf(order, Get(tree, x).value))
  }

  /** raxInsert of a fact under its key and raxRemove of that key keep the tree an index, of one fact more or less. */
  lemma IndexTreeInsert(t0: Node<Fact>, t1: Node<Fact>, order: Order, facts: set<Fact>, f: Fact)
    requires IndexTree(t0, order, facts) && Wf(t1) && FitsFact(f)
    requires forall g | g in facts :: KeyOf(order, g) != KeyOf(order, f)
    requires forall x :: Get(t1, x) == if x == KeyBytes(KeyOf(order, f)) then Some(f) else Get(t0, x)
    ensures IndexTree(t1, order, facts + {f})
  {
    hide Get, Wf, KeyBytes, KeyOf;
    forall g | g in facts ensures KeyBytes(KeyOf(order, g)) != KeyBytes(KeyOf(order, f)) {
      FactFits(order, f);
      FactFits(order, g);
      KeyBytesOrder(KeyOf(order, g), KeyOf(order, f));
    }
  }

  lemma IndexTreeRemove(t0: Node<Fact>, t1: Node<Fact>, order: Order, facts: set<Fact>, f: Fact)
    requires IndexTree(t0, order, facts) && Wf(t1) && f in facts
    requires forall x :: Get(t1, x) == if x == KeyBytes(KeyOf(order, f)) then None else Get(t0, x)
    ensures IndexTree(t1, order, facts - {f})
  {
    hide Get, Wf, KeyBytes, KeyOf;
    forall g | g in facts - {f} ensures KeyBytes(KeyOf(order, g)) != KeyBytes(KeyOf(order, f)) {
      FactFits(order, f);
      FactFits(order, g);
      KeyBytesOrder(KeyOf(order, g), KeyOf(order, f));
    }
  }

  predicate InRange(k: Key, start: Key, end: Key) {
    !KeyLess(k, start) && !KeyLess(end, k)
  }

  ghost predicate InOrder(out: seq<Fact>, order: Order) {
    forall i, j | 0 <= i < j < |out| :: KeyLess(KeyOf(order, out[i]), KeyOf(order, out[j]))
  }

  /** The facts whose keys are still ahead. */
  ghost function Ahead(facts: set<Fact>, order: Order, at: Key): set<Fact> {
    set f | f in facts && !KeyLess(KeyOf(order, f), at)
  }

  /** What the iterator's answer means for the facts: the first one from (or behind) a key on. */
  ghost predicate FirstFrom(facts: set<Fact>, order: Order, from: Key, strict: bool, found: bool, f: Fact) {
    && (found ==> f in facts && !KeyLess(KeyOf(order, f), from) && (strict ==> KeyOf(order, f) != from)
                  && forall g | g in facts && !KeyLess(KeyOf(order, g), from) && (strict ==> KeyOf(order, g) != from) ::
                       g == f || KeyLess(KeyOf(order, f), KeyOf(order, g)))
    && (!found ==> forall g | g in facts :: KeyLess(KeyOf(order, g), from) || (strict && KeyOf(order, g) == from))
  }

  lemma AnswerIsFirst(tree: Node<Fact>, order: Order, facts: set<Fact>, from: Key, strict: bool, found: bool,
                      stack: Stack<Fact>, node: Node<Fact>, key: Bytes, other: Fact)
    requires IndexTree(tree, order, facts) && FitsKey(from)
    requires R.Answer(tree, if strict then R.Behind(KeyBytes(from)) else R.From(KeyBytes(from)), found, stack, node, key)
    ensures found ==> node.key.Some? && key == KeyBytes(KeyOf(order, node.key.value))
    ensures found ==> R.At(tree, stack, node) && WfStack(stack) && Path(stack) == key
    ensures FirstFrom(facts, order, from, strict, found, if found then node.key.value else other)
  {
    hide KeyBytes, KeyOf, R.Less, Get, Wf;
    var wanted := if strict then R.Behind(KeyBytes(from)) else R.From(KeyBytes(from));
    forall g | g in facts
      ensures R.Stored(tree, KeyBytes(KeyOf(order, g)))
      ensures KeyBytes(KeyOf(order, g)) in wanted <==> !KeyLess(KeyOf(order, g), from) && (strict ==> KeyOf(order, g) != from)
    {
      FactFits(order, g);
      KeyBytesOrder(from, KeyOf(order, g));
    }
    if found {
      var f := node.key.value;
      FactFits(order, f);
      forall g | g in facts && !KeyLess(KeyOf(order, g), from) && (strict ==> KeyOf(order, g) != from)
        ensures g == f || KeyLess(KeyOf(order, f), KeyOf(order, g))
      {
        FactFits(order, g);
        KeyBytesOrder(KeyOf(order, f), KeyOf(order, g));
        assert KeyBytes(KeyOf(order, g)) in wanted;
      }
    }
  }

  lemma FactFits(order: Order, f: Fact)
    ensures FitsFact(f) ==> FitsKey(KeyOf(order, f))
  {
  }

  /** memcmp on keys of one length. */
  method BytesLess(a: Bytes, b: Bytes) returns (less: bool)
    requires |a| == |b|
    ensures less <==> R.Above(a, b)
  {
    var i := 0;
    while i < |a|
      invariant i <= |a| && a[..i] == b[..i]
    {
      if a[i] != b[i] {
        if a[i] > b[i] { R.NotAbove(a, b, i); }
        return a[i] < b[i];
      }
      assert a[..i + 1] == a[..i] + [a[i]] && b[..i + 1] == b[..i] + [b[i]];
      i := i + 1;
    }
    assert a == a[..i] && b == b[..i];
    AboveSame(a);
    less := false;
  }

  lemma EqualLengths(a: Bytes, b: Bytes)
    requires |a| == |b|
    ensures R.Less(a, b) <==> R.Above(a, b)
  {
  }

  /** What the cursor has returned before it stands on `f`, or at the end. */
  ghost predicate Returned(out: seq<Fact>, facts: set<Fact>, order: Order, start: Key, found: bool, f: Fact) {
    && InOrder(out, order)
    && forall g :: g in out <==> g in facts && !KeyLess(KeyOf(order, g), start) && (found ==> KeyLess(KeyOf(order, g), KeyOf(order, f)))
  }

  /** Returning `f` and stepping on. */
  lemma ReturnedMore(out: seq<Fact>, facts: set<Fact>, order: Order, start: Key, f: Fact, found: bool, next: Fact)
    requires forall a, b | a in facts && b in facts && KeyOf(order, a) == KeyOf(order, b) :: a == b
    requires Returned(out, facts, order, start, true, f) && f in facts && !KeyLess(KeyOf(order, f), start)
    requires FirstFrom(facts, order, KeyOf(order, f), true, found, next)
    ensures Returned(out + [f], facts, order, start, found, next)
    ensures found ==> |Ahead(facts, order, KeyOf(order, next))| < |Ahead(facts, order, KeyOf(order, f))|
  {
    hide KeyOf;
    var more := out + [f];
    forall g ensures g in more <==> g in facts && !KeyLess(KeyOf(order, g), start) && (found ==> KeyLess(KeyOf(order, g), KeyOf(order, next))) {
      KeyTotal(KeyOf(order, g), KeyOf(order, f));
      if found { KeyTotal(KeyOf(order, g), KeyOf(order, next)); }
    }
    forall i, j | 0 <= i < j < |more| ensures KeyLess(KeyOf(order, more[i]), KeyOf(order, more[j])) {
      assert more[i] == out[i] && out[i] in out;
    }
    if found {
      var a, b := Ahead(facts, order, KeyOf(order, next)), Ahead(facts, order, KeyOf(order, f));
      assert f in b && f !in a;
      SubsetSize(a, b - {f});
    }
  }

  lemma KeyTotal(a: Key, b: Key)
    ensures KeyLess(a, b) || KeyLess(b, a) || a == b
    ensures !(KeyLess(a, b) && KeyLess(b, a)) && !KeyLess(a, a)
  {
  }

  /** facts_cursor_init, then facts_cursor_next until it answers NULL: the facts between two keys, in order. */
  method ScanRange(tree: Node<Fact>, order: Order, start: Key, end: Key, ghost facts: set<Fact>) returns (out: seq<Fact>)
    requires IndexTree(tree, order, facts) && FitsKey(start) && FitsKey(end)
    ensures InOrder(out, order) && forall f :: f in out <==> f in facts && InRange(KeyOf(order, f), start, end)
  {
    hide IndexTree, R.Answer, R.From, R.Behind, KeyBytes, FirstFrom, KeyOf, Returned, InOrder, R.At, KeyLess;
    TreeFacts(tree, order, facts);
    out := [];
    ghost var f := Fact(Symbol(0, ""), Symbol(0, ""), Symbol(0, ""));
    var found, stack, node, key := R.SeekFrom(tree, KeyBytes(start));
    AnswerIsFirst(tree, order, facts, start, false, found, stack, node, key, f);
    if found { f := node.key.value; }
    StartReturned(facts, order, start, found, f);
    while found
      invariant Returned(out, facts, order, start, found, f)
      invariant forall g | g in out :: !KeyLess(end, KeyOf(order, g))
      invariant found ==> f in facts && !KeyLess(KeyOf(order, f), start) && R.At(tree, stack, node)
      invariant found ==> WfStack(stack) && Path(stack) == key && node.key == Some(f) && key == KeyBytes(KeyOf(order, f))
      decreases if found then |Ahead(facts, order, KeyOf(order, f))| + 1 else 0
    {
      FactFits(order, f);
      KeyBytesOrder(end, KeyOf(order, f));
      EqualLengths(KeyBytes(end), key);
      var behind := BytesLess(KeyBytes(end), key);
      if behind {
        StopsBehind(out, facts, order, start, end, f);
        return;
      }
      out := out + [node.key.value];
      ghost var at := f;
      found, stack, node, key := R.Next(tree, stack, node, key);
      AnswerIsFirst(tree, order, facts, KeyOf(order, at), true, found, stack, node, key, at);
      if found { f := node.key.value; }
      FirstIsAhead(facts, order, KeyOf(order, at), start, found, f);
      ReturnedMore(out[..|out| - 1], facts, order, start, at, found, f);
    }
    AllReturned(out, facts, order, start, end, f);
  }

  lemma StartReturned(facts: set<Fact>, order: Order, start: Key, found: bool, f: Fact)
    requires FirstFrom(facts, order, start, false, found, f)
    ensures Returned([], facts, order, start, found, f)
    ensures found ==> f in facts && !KeyLess(KeyOf(order, f), start)
  {
    hide KeyOf;
    forall g | g in facts && !KeyLess(KeyOf(order, g), start) ensures found && !KeyLess(KeyOf(order, g), KeyOf(order, f)) {
      KeyTotal(KeyOf(order, g), KeyOf(order, f));
    }
  }

  lemma FirstIsAhead(facts: set<Fact>, order: Order, at: Key, start: Key, found: bool, f: Fact)
    requires FirstFrom(facts, order, at, true, found, f) && !KeyLess(at, start)
    ensures found ==> f in facts && !KeyLess(KeyOf(order, f), start)
  {
  }

  lemma StopsBehind(out: seq<Fact>, facts: set<Fact>, order: Order, start: Key, end: Key, f: Fact)
    requires Returned(out, facts, order, start, true, f) && KeyLess(end, KeyOf(order, f))
    requires forall g | g in out :: !KeyLess(end, KeyOf(order, g))
    ensures InOrder(out, order) && forall g :: g in out <==> g in facts && InRange(KeyOf(order, g), start, end)
  {
    hide KeyOf;
  }

  lemma AllReturned(out: seq<Fact>, facts: set<Fact>, order: Order, start: Key, end: Key, f: Fact)
    requires Returned(out, facts, order, start, false, f)
    requires forall g | g in out :: !KeyLess(end, KeyOf(order, g))
    ensures InOrder(out, order) && forall g :: g in out <==> g in facts && InRange(KeyOf(order, g), start, end)
  {
    hide KeyOf;
  }

  lemma TreeFacts(tree: Node<Fact>, order: Order, facts: set<Fact>)
    requires IndexTree(tree, order, facts)
    ensures Wf(tree) && forall f | f in facts :: FitsFact(f)
    ensures forall a, b | a in facts && b in facts && KeyOf(order, a) == KeyOf(order, b) :: a == b
  {
  }

  // ---- patterns ----

  /** A term is a text or, for None, a variable. */
  datatype Pattern = Pattern(s: Option<string>, p: Option<string>, o: Option<string>)

  predicate TermMatches(term: Option<string>, text: string) {
    term.None? || term.value == text
  }

  predicate Matches(pattern: Pattern, f: Fact) {
    TermMatches(pattern.s, f.s.text) && TermMatches(pattern.p, f.p.text) && TermMatches(pattern.o, f.o.text)
  }

  /** The index facts_with_spo and facts_with_1_2 choose. */
  function OrderFor(pattern: Pattern): Order {
    if pattern.s.None? && pattern.p.None? && pattern.o.None? then SPO
    else if pattern.s.Some? && pattern.p.Some? && pattern.o.Some? then SPO
    else if pattern.s.Some? && pattern.o.None? then SPO
    else if pattern.p.Some? then POS
    else OSP
  }

  /** The symbol of a term, or the given end of the id range for a variable. */
  function Bound(entries: map<string, Interned>, term: Option<string>, free: nat): Symbol
    requires term.Some? ==> term.value in entries
  {
    if term.Some? then Symbol(entries[term.value].id, term.value) else Symbol(free, "")
  }

  predicate Known(entries: map<string, Interned>, term: Option<string>) {
    term.Some? ==> term.value in entries
  }

  function Corner(entries: map<string, Interned>, pattern: Pattern, free: nat): Fact
    requires Known(entries, pattern.s) && Known(entries, pattern.p) && Known(entries, pattern.o)
  {
    Fact(Bound(entries, pattern.s, free), Bound(entries, pattern.p, free), Bound(entries, pattern.o, free))
  }

  /** A term's ids agree exactly when its texts do. */
  lemma BoundMatches(entries: map<string, Interned>, term: Option<string>, sym: Symbol)
    requires Known(entries, term) && Live(entries, sym)
    requires forall x, y | x in entries && y in entries && entries[x].id == entries[y].id :: x == y
    ensures term.Some? ==> (TermMatches(term, sym.text) <==> Bound(entries, term, 0).id == sym.id)
  {
  }

  /** The chosen index has the bound columns in front, so the range between the two corners is the pattern. */
  lemma RangeIsPattern(entries: map<string, Interned>, pattern: Pattern, f: Fact)
    requires Known(entries, pattern.s) && Known(entries, pattern.p) && Known(entries, pattern.o)
    requires FactLive(entries, f) && FitsFact(f)
    requires forall x, y | x in entries && y in entries && entries[x].id == entries[y].id :: x == y
    ensures var order := OrderFor(pattern);
            InRange(KeyOf(order, f), KeyOf(order, Corner(entries, pattern, 0)), KeyOf(order, Corner(entries, pattern, LAST_ID)))
            <==> Matches(pattern, f)
  {
    BoundMatches(entries, pattern.s, f.s);
    BoundMatches(entries, pattern.p, f.p);
    BoundMatches(entries, pattern.o, f.o);
  }

  /** facts_with_spo and the cursor: exactly the facts that match the pattern, once each, in the index's order. */
  method Scan(spo: Node<Fact>, pos: Node<Fact>, osp: Node<Fact>, entries: map<string, Interned>, pattern: Pattern,
              ghost facts: set<Fact>) returns (out: seq<Fact>)
    requires IndexTree(spo, SPO, facts) && IndexTree(pos, POS, facts) && IndexTree(osp, OSP, facts)
    requires forall f | f in facts :: FactLive(entries, f)
    requires forall x | x in entries :: entries[x].id <= LAST_ID
    requires forall x, y | x in entries && y in entries && entries[x].id == entries[y].id :: x == y
    ensures Ascends(out, pattern) && forall f :: f in out <==> f in facts && Matches(pattern, f)
  {
    hide IndexTree, InOrder, InRange, KeyOf, FitsFact;
    if !(Known(entries, pattern.s) && Known(entries, pattern.p) && Known(entries, pattern.o)) {
      NothingInOrder(OrderFor(pattern));
      return [];
    }
    var order := OrderFor(pattern);
    var start, end := KeyOf(order, Corner(entries, pattern, 0)), KeyOf(order, Corner(entries, pattern, LAST_ID));
    CornersFit(entries, pattern, order);
    TreeFacts(spo, SPO, facts);
    out := ScanRange(if order.SPO? then spo else if order.POS? then pos else osp, order, start, end, facts);
    forall f | f in facts ensures InRange(KeyOf(order, f), start, end) <==> Matches(pattern, f) {
      RangeIsPattern(entries, pattern, f);
    }
    InOrderAscends(entries, pattern, out);
  }

  lemma InOrderAscends(entries: map<string, Interned>, pattern: Pattern, out: seq<Fact>)
    requires InOrder(out, OrderFor(pattern)) && forall f | f in out :: FactLive(entries, f) && Matches(pattern, f)
    ensures Ascends(out, pattern)
  {
    hide FactLive, Matches, OrderFor, Below, KeyOf, KeyLess;
    forall i, j | 0 <= i < j < |out| ensures Below(FreeColumns(pattern, out[i]), FreeColumns(pattern, out[j])) {
      OrderIsFree(entries, pattern, out[i], out[j]);
    }
  }

  /** The ids by which the results ascend: the variable columns, beginning behind the bound ones. */
  function FreeColumns(pattern: Pattern, f: Fact): seq<nat> {
    match (pattern.s.Some?, pattern.p.Some?, pattern.o.Some?)
    case (false, false, false) => [f.s.id, f.p.id, f.o.id]
    case (true, false, false) => [f.p.id, f.o.id]
    case (false, true, false) => [f.o.id, f.s.id]
    case (false, false, true) => [f.s.id, f.p.id]
    case (true, true, false) => [f.o.id]
    case (true, false, true) => [f.p.id]
    case (false, true, true) => [f.s.id]
    case (true, true, true) => []
  }

  predicate Below(a: seq<nat>, b: seq<nat>)
    requires |a| == |b|
  {
    a != [] && (a[0] < b[0] || (a[0] == b[0] && Below(a[1..], b[1..])))
  }

  ghost predicate Ascends(out: seq<Fact>, pattern: Pattern) {
    forall i, j | 0 <= i < j < |out| :: Below(FreeColumns(pattern, out[i]), FreeColumns(pattern, out[j]))
  }

  lemma SameBound(entries: map<string, Interned>, term: Option<string>, x: Symbol, y: Symbol)
    requires Live(entries, x) && Live(entries, y) && term.Some? && TermMatches(term, x.text) && TermMatches(term, y.text)
    ensures x.id == y.id
  {
  }

  /** The order of the index chosen is the order of the variable columns. */
  lemma OrderIsFree(entries: map<string, Interned>, pattern: Pattern, f: Fact, g: Fact)
    requires FactLive(entries, f) && FactLive(entries, g) && Matches(pattern, f) && Matches(pattern, g)
    ensures KeyLess(KeyOf(OrderFor(pattern), f), KeyOf(OrderFor(pattern), g)) <==>
            Below(FreeColumns(pattern, f), FreeColumns(pattern, g))
  {
    if pattern.s.Some? { SameBound(entries, pattern.s, f.s, g.s); }
    if pattern.p.Some? { SameBound(entries, pattern.p, f.p, g.p); }
    if pattern.o.Some? { SameBound(entries, pattern.o, f.o, g.o); }
    hide Live;
    var a, b := FreeColumns(pattern, f), FreeColumns(pattern, g);
    if |a| > 1 { assert Below(a[1..], b[1..]) <==> a[1] < b[1] || (a[1] == b[1] && Below(a[1..][1..], b[1..][1..])); }
    if |a| > 2 { assert a[1..][1..][0] == a[2] && b[1..][1..][0] == b[2] && a[1..][1..][1..] == []; }
  }

  lemma NothingInOrder(order: Order)
    ensures InOrder([], order)
  {
  }

  lemma CornersFit(entries: map<string, Interned>, pattern: Pattern, order: Order)
    requires Known(entries, pattern.s) && Known(entries, pattern.p) && Known(entries, pattern.o)
    requires forall x | x in entries :: entries[x].id <= LAST_ID
    ensures FitsKey(KeyOf(order, Corner(entries, pattern, 0))) && FitsKey(KeyOf(order, Corner(entries, pattern, LAST_ID)))
  {
  }
}
