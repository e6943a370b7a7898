/** The radix tree as values: nodes with an edge per character, or one edge for a run of characters, and the place a
    walk has reached (deps/rax/rax.c). */
module RaxTree {
  import opened Collections

  type Byte = x: int | 0 <= x < 256
  type Bytes = seq<Byte>

  /** A compressed node has one child behind all its characters; any other node one child per character. */
  datatype Node<V> = Node(key: Option<V>, compr: bool, chars: Bytes, children: seq<Node<V>>)

  function Leaf<V>(): Node<V> {
    Node(None, false, [], [])
  }

  predicate Sorted(chars: Bytes) {
    forall i, j | 0 <= i < j < |chars| :: chars[i] < chars[j]
  }

  predicate Shape<V>(n: Node<V>) {
    if n.compr then |n.chars| >= 2 && |n.children| == 1 else |n.children| == |n.chars| && Sorted(n.chars)
  }

  /** Edges are strictly sorted everywhere. */
  predicate Wf<V>(n: Node<V>) {
    Shape(n) && forall i | 0 <= i < |n.children| :: Wf(n.children[i])
  }

  /** A node that only leads on: no key, one way down. */
  predicate Passes<V>(n: Node<V>) {
    n.key.None? && (n.compr || |n.chars| == 1)
  }

  function IndexOf(chars: Bytes, c: Byte): (k: nat)
    ensures k <= |chars| && (k < |chars| ==> chars[k] == c) && (k == |chars| <==> c !in chars)
  {
    if chars == [] then 0 else if chars[0] == c then 0 else 1 + IndexOf(chars[1..], c)
  }

  /** What the tree stores under a string. */
  function Get<V>(n: Node<V>, s: Bytes): Option<V>
    requires Wf(n)
    decreases n
  {
    if s == [] then n.key
    else if n.compr then if n.chars <= s then Get(n.children[0], s[|n.chars|..]) else None
    else
      var k := IndexOf(n.chars, s[0]);
      if k < |n.chars| then Get(n.children[k], s[1..]) else None
  }

  // ---- places ----

  /** A node on the way down and the child that was taken. */
  datatype Frame<V> = Frame(node: Node<V>, k: nat)

  /** The nodes above the current one (the stack of raxLowWalk). */
  datatype Stack<V> = Root | Push(rest: Stack<V>, top: Frame<V>)

  predicate WfFrame<V>(f: Frame<V>) {
    Wf(f.node) && f.k < |f.node.children|
  }

  predicate WfStack<V>(stack: Stack<V>) {
    stack.Push? ==> WfFrame(stack.top) && WfStack(stack.rest)
  }

  function Fill<V>(f: Frame<V>, child: Node<V>): Node<V>
    requires WfFrame(f)
  {
    f.node.(children := f.node.children[f.k := child])
  }

  function Piece<V>(f: Frame<V>): Bytes
    requires WfFrame(f)
  {
    if f.node.compr then f.node.chars else [f.node.chars[f.k]]
  }

  function Plug<V>(stack: Stack<V>, h: Node<V>): Node<V>
    requires WfStack(stack)
  {
    if stack.Root? then h else Plug(stack.rest, Fill(stack.top, h))
  }

  function Path<V>(stack: Stack<V>): Bytes
    requires WfStack(stack)
  {
    if stack.Root? then [] else Path(stack.rest) + Piece(stack.top)
  }

  lemma FillWf<V>(f: Frame<V>, child: Node<V>)
    requires WfFrame(f) && Wf(child)
    ensures Wf(Fill(f, child))
  {
  }

  lemma {:induction false} PlugWf<V>(stack: Stack<V>, h: Node<V>)
    requires WfStack(stack) && Wf(h)
    ensures Wf(Plug(stack, h))
  {
    if stack.Push? {
      FillWf(stack.top, h);
      PlugWf(stack.rest, Fill(stack.top, h));
    }
  }

  lemma SortedIndex(chars: Bytes, k: nat)
    requires k < |chars| && Sorted(chars)
    ensures IndexOf(chars, chars[k]) == k
  {
    var m := IndexOf(chars, chars[k]);
    assert chars[m] == chars[k];
  }

  /** Behind its piece a frame shows its child. */
  lemma GetInside<V>(f: Frame<V>, child: Node<V>, t: Bytes)
    requires WfFrame(f) && Wf(child)
    ensures Wf(Fill(f, child)) && Get(Fill(f, child), Piece(f) + t) == Get(child, t)
  {
    FillWf(f, child);
    var s := Piece(f) + t;
    assert s[|Piece(f)|..] == t;
    if !f.node.compr { SortedIndex(f.node.chars, f.k); }
  }

  /** Anywhere else it does not depend on the child. */
  lemma GetOutside<V>(f: Frame<V>, a: Node<V>, b: Node<V>, s: Bytes)
    requires WfFrame(f) && Wf(a) && Wf(b) && !(Piece(f) <= s)
    ensures Wf(Fill(f, a)) && Wf(Fill(f, b)) && Get(Fill(f, a), s) == Get(Fill(f, b), s)
  {
    FillWf(f, a);
    FillWf(f, b);
    assert s != [] ==> [s[0]] <= s;
  }

  lemma {:induction false} GetPlug<V>(stack: Stack<V>, h: Node<V>, t: Bytes)
    requires WfStack(stack) && Wf(h)
    ensures Wf(Plug(stack, h)) && Get(Plug(stack, h), Path(stack) + t) == Get(h, t)
  {
    hide Wf, Get, Fill, Piece;
    PlugWf(stack, h);
    if stack.Push? {
      var f := stack.top;
      FillWf(f, h);
      GetInside(f, h, t);
      GetPlug(stack.rest, Fill(f, h), Piece(f) + t);
      assert Path(stack.rest) + (Piece(f) + t) == Path(stack) + t;
    } else {
      assert [] + t == t;
    }
  }

  lemma PrefixSplit(a: Bytes, b: Bytes, s: Bytes)
    requires a <= s
    ensures s == a + s[|a|..]
    ensures a + b <= s <==> b <= s[|a|..]
  {
    if b <= s[|a|..] {
      assert s[|a|..] == b + s[|a|..][|b|..];
      assert s == (a + b) + s[|a|..][|b|..];
    }
    if a + b <= s {
      assert s == (a + b) + s[|a| + |b|..];
      assert s[|a|..] == b + s[|a| + |b|..];
    }
  }

  lemma LongerPrefix(a: Bytes, b: Bytes, s: Bytes)
    ensures a + b <= s ==> a <= s
  {
    if a + b <= s { assert s[..|a|] == (a + b)[..|a|]; }
  }

  lemma {:induction false} GetElsewhere<V>(stack: Stack<V>, a: Node<V>, b: Node<V>, s: Bytes)
    requires WfStack(stack) && Wf(a) && Wf(b) && !(Path(stack) <= s)
    ensures Wf(Plug(stack, a)) && Wf(Plug(stack, b)) && Get(Plug(stack, a), s) == Get(Plug(stack, b), s)
  {
    hide Wf, Get, Fill, Piece;
    PlugWf(stack, a);
    PlugWf(stack, b);
    if stack.Push? {
      var f := stack.top;
      FillWf(f, a);
      FillWf(f, b);
      if Path(stack.rest) <= s {
        var u := s[|Path(stack.rest)|..];
        PrefixSplit(Path(stack.rest), Piece(f), s);
        GetOutside(f, a, b, u);
        GetPlug(stack.rest, Fill(f, a), u);
        GetPlug(stack.rest, Fill(f, b), u);
      } else {
        GetElsewhere(stack.rest, Fill(f, a), Fill(f, b), s);
      }
    }
  }

  /** Two nodes that store the same. */
  ghost predicate Same<V(!new)>(a: Node<V>, b: Node<V>)
    requires Wf(a) && Wf(b)
  {
    forall t :: Get(a, t) == Get(b, t)
  }

  /** Replacing a node by one that stores the same changes nothing in the tree. */
  lemma PlugSame<V(!new)>(stack: Stack<V>, a: Node<V>, b: Node<V>)
    requires WfStack(stack) && Wf(a) && Wf(b) && Same(a, b)
    ensures Wf(Plug(stack, a)) && Wf(Plug(stack, b)) && Same(Plug(stack, a), Plug(stack, b))
  {
    hide Wf, Get, Plug, Path, WfStack;
    PlugWf(stack, a);
    PlugWf(stack, b);
    forall s ensures Get(Plug(stack, a), s) == Get(Plug(stack, b), s) {
      if Path(stack) <= s {
        var t := s[|Path(stack)|..];
        assert s == Path(stack) + t;
        GetPlug(stack, a, t);
        GetPlug(stack, b, t);
      } else {
        GetElsewhere(stack, a, b, s);
      }
    }
  }

  lemma KeyOnly<V(!new)>(h: Node<V>, key: Option<V>)
    requires Wf(h)
    ensures Wf(h.(key := key)) && Get(h.(key := key), []) == key
    ensures forall t | t != [] :: Get(h.(key := key), t) == Get(h, t)
  {
  }

  /** Changing the key of the node at a place changes what is stored under its path, and nothing else. */
  lemma PlugKey<V(!new)>(stack: Stack<V>, h: Node<V>, key: Option<V>)
    requires WfStack(stack) && Wf(h)
    ensures Wf(h.(key := key)) && Wf(Plug(stack, h)) && Wf(Plug(stack, h.(key := key)))
    ensures forall s :: Get(Plug(stack, h.(key := key)), s) == if s == Path(stack) then key else Get(Plug(stack, h), s)
  {
    var g := h.(key := key);
    assert Wf(g) && Get(g, []) == key && forall t | t != [] :: Get(g, t) == Get(h, t) by { KeyOnly(h, key); }
    hide Wf, Get, Plug, Path, WfStack;
    PlugWf(stack, h);
    PlugWf(stack, g);
    forall s ensures Get(Plug(stack, g), s) == if s == Path(stack) then key else Get(Plug(stack, h), s) {
      if Path(stack) <= s {
        var t := s[|Path(stack)|..];
        assert s == Path(stack) + t;
        GetPlug(stack, g, t);
        GetPlug(stack, h, t);
        assert s == Path(stack) <==> t == [];
      } else {
        GetElsewhere(stack, g, h, s);
      }
    }
  }

  // ---- runs of characters ----

  /** One node for a run of characters: compressed if there is more than one. */
  function Chain<V>(key: Option<V>, chars: Bytes, child: Node<V>): Node<V> {
    Node(key, |chars| > 1, chars, [child])
  }

  lemma ChainGet<V>(key: Option<V>, chars: Bytes, child: Node<V>, t: Bytes)
    requires Wf(child) && chars != []
    ensures Wf(Chain(key, chars, child))
    ensures Get(Chain(key, chars, child), t) ==
            if t == [] then key else if chars <= t then Get(child, t[|chars|..]) else None
  {
    if |chars| == 1 && t != [] {
      assert chars == [chars[0]];
      assert chars <= t <==> t[0] == chars[0];
    }
  }

  /** A run may be cut in two: the second part is a node without a key. */
  lemma ChainSplit<V(!new)>(key: Option<V>, a: Bytes, b: Bytes, child: Node<V>)
    requires Wf(child) && a != [] && b != []
    ensures Wf(Chain(key, a + b, child)) && Wf(Chain(None, b, child)) && Wf(Chain(key, a, Chain(None, b, child)))
    ensures Same(Chain(key, a + b, child), Chain(key, a, Chain(None, b, child)))
  {
    hide Wf, Get, Chain;
    ChainGet(key, a + b, child, []);
    ChainGet(None, b, child, []);
    ChainGet(key, a, Chain(None, b, child), []);
    forall t ensures Get(Chain(key, a + b, child), t) == Get(Chain(key, a, Chain(None, b, child)), t) {
      ChainGet(key, a + b, child, t);
      ChainGet(key, a, Chain(None, b, child), t);
      if a <= t {
        PrefixSplit(a, b, t);
        ChainGet(None, b, child, t[|a|..]);
        if a + b <= t { assert t[|a|..][|b|..] == t[|a + b|..]; }
      } else {
        LongerPrefix(a, b, t);
      }
    }
  }

  lemma {:induction false} SameTrans<V(!new)>(a: Node<V>, b: Node<V>, c: Node<V>)
    requires Wf(a) && Wf(b) && Wf(c) && Same(a, b) && Same(b, c)
    ensures Same(a, c) && Same(c, a)
  {
    forall t ensures Get(a, t) == Get(c, t) {
      assert Get(a, t) == Get(b, t);
    }
  }

  /** Below the same characters the same is stored. */
  lemma ChainSame<V(!new)>(key: Option<V>, chars: Bytes, x: Node<V>, y: Node<V>)
    requires Wf(x) && Wf(y) && Same(x, y) && chars != []
    ensures Wf(Chain(key, chars, x)) && Wf(Chain(key, chars, y)) && Same(Chain(key, chars, x), Chain(key, chars, y))
  {
    hide Wf, Get, Chain;
    ChainGet(key, chars, x, []);
    ChainGet(key, chars, y, []);
    forall t ensures Get(Chain(key, chars, x), t) == Get(Chain(key, chars, y), t) {
      ChainGet(key, chars, x, t);
      ChainGet(key, chars, y, t);
    }
  }

  /** A compressed node is the run it stands for. */
  lemma ComprIsChain<V>(h: Node<V>)
    requires Wf(h) && (h.compr || |h.chars| == 1)
    ensures h == Chain(h.key, h.chars, h.children[0]) && Wf(h.children[0]) && h.chars != []
  {
    assert h.children == [h.children[0]];
  }

  // ---- what insertion does to a node ----

  /** The nodes that split a run at the mismatching character `j` (algorithm 1). */
  function Postfix<V>(h: Node<V>, j: nat): Node<V>
    requires |h.children| == 1 && j < |h.chars|
  {
    if j + 1 < |h.chars| then Chain(None, h.chars[j + 1..], h.children[0]) else h.children[0]
  }

  function SplitNode<V>(h: Node<V>, j: nat): Node<V>
    requires |h.children| == 1 && j < |h.chars|
  {
    Node(if j == 0 then h.key else None, false, [h.chars[j]], [Postfix(h, j)])
  }

  /** Splitting keeps what is stored. */
  lemma SplitSame<V(!new)>(h: Node<V>, j: nat)
    requires Wf(h) && h.compr && j < |h.chars|
    ensures Wf(SplitNode(h, j)) && (j == 0 ==> Same(h, SplitNode(h, j)))
    ensures j > 0 ==> Wf(Chain(h.key, h.chars[..j], SplitNode(h, j))) && Same(h, Chain(h.key, h.chars[..j], SplitNode(h, j)))
  {
    ComprIsChain(h);
    var next, c, rest := h.children[0], [h.chars[j]], h.chars[j + 1..];
    var split := SplitNode(h, j);
    SplitTail(h, j);
    hide Wf, Get, Chain, SplitNode;
    if j > 0 {
      assert h.chars == h.chars[..j] + h.chars[j..];
      ChainSplit(h.key, h.chars[..j], h.chars[j..], next);
      ChainSame(h.key, h.chars[..j], Chain(None, h.chars[j..], next), split);
      SameTrans(h, Chain(h.key, h.chars[..j], Chain(None, h.chars[j..], next)), Chain(h.key, h.chars[..j], split));
    } else {
      assert h.chars[0..] == h.chars;
    }
  }

  /** From the mismatching character on. */
  lemma SplitTail<V(!new)>(h: Node<V>, j: nat)
    requires Wf(h) && h.compr && j < |h.chars|
    ensures var key := if j == 0 then h.key else None;
            Wf(SplitNode(h, j)) && Wf(Chain(key, h.chars[j..], h.children[0]))
            && Same(Chain(key, h.chars[j..], h.children[0]), SplitNode(h, j))
  {
    var next, c, rest := h.children[0], [h.chars[j]], h.chars[j + 1..];
    var key := if j == 0 then h.key else None;
    assert h.chars[j..] == c + rest;
    assert SplitNode(h, j) == Chain(key, c, Postfix(h, j));
    if rest == [] {
      assert c + rest == c;
      ChainGet(key, c, next, []);
    } else {
      ChainSplit(key, c, rest, next);
    }
  }

  /** Splitting a run where the new string ends (algorithm 2). */
  lemma EndSplitSame<V(!new)>(h: Node<V>, j: nat)
    requires Wf(h) && h.compr && 0 < j < |h.chars|
    ensures var postfix := Chain(None, h.chars[j..], h.children[0]);
            Wf(postfix) && Wf(Chain(h.key, h.chars[..j], postfix)) && Same(h, Chain(h.key, h.chars[..j], postfix))
  {
    ComprIsChain(h);
    assert h.chars == h.chars[..j] + h.chars[j..];
    ChainSplit(h.key, h.chars[..j], h.chars[j..], h.children[0]);
  }

  lemma LeafGet<V>(t: Bytes)
    ensures Wf(Leaf<V>()) && Get(Leaf<V>(), t) == None
  {
  }

  /** A node without children can grow a run to an empty leaf. */
  lemma GrowSame<V(!new)>(h: Node<V>, chars: Bytes)
    requires Wf(h) && h.chars == [] && chars != []
    ensures Wf(Chain(h.key, chars, Leaf())) && Same(h, Chain(h.key, chars, Leaf()))
  {
    var g := Chain(h.key, chars, Leaf());
    ChainGet(h.key, chars, Leaf(), []);
    forall t ensures Get(h, t) == Get(g, t) {
      ChainGet(h.key, chars, Leaf(), t);
      if chars <= t { LeafGet<V>(t[|chars|..]); }
    }
  }

  /** Where a new edge belongs: behind the smaller characters. */
  function Position(chars: Bytes, c: Byte): (p: nat)
    ensures p <= |chars| && (forall i | 0 <= i < p :: chars[i] <= c) && (p < |chars| ==> chars[p] > c)
  {
    if chars == [] then 0 else if chars[0] > c then 0 else 1 + Position(chars[1..], c)
  }

  function AddChild<V>(h: Node<V>, c: Byte): Node<V>
    requires |h.children| == |h.chars|
  {
    var p := Position(h.chars, c);
    h.(chars := h.chars[..p] + [c] + h.chars[p..], children := h.children[..p] + [Leaf()] + h.children[p..])
  }

  lemma AddedSorted(chars: Bytes, p: nat, c: Byte)
    requires Sorted(chars) && c !in chars && p == Position(chars, c)
    ensures Sorted(chars[..p] + [c] + chars[p..])
  {
    hide Position;
    PositionSplits(chars, c);
    var after := chars[..p] + [c] + chars[p..];
    forall i, j | 0 <= i < j < |after| ensures after[i] < after[j] {
      assert after[i] == (if i < p then chars[i] else if i == p then c else chars[i - 1]);
      assert after[j] == (if j < p then chars[j] else if j == p then c else chars[j - 1]);
    }
  }

  lemma PositionSplits(chars: Bytes, c: Byte)
    requires Sorted(chars) && c !in chars
    ensures forall i | 0 <= i < Position(chars, c) :: chars[i] < c
    ensures forall i | Position(chars, c) <= i < |chars| :: c < chars[i]
  {
  }

  lemma AddedIndex(chars: Bytes, p: nat, c: Byte, x: Byte)
    requires Sorted(chars) && c !in chars && p == Position(chars, c)
    ensures var after := chars[..p] + [c] + chars[p..];
            if x == c then IndexOf(after, x) == p
            else if x in chars then IndexOf(after, x) == (if IndexOf(chars, x) < p then IndexOf(chars, x) else IndexOf(chars, x) + 1)
            else x !in after
  {
    AddedSorted(chars, p, c);
    hide Position, Sorted;
    var after := chars[..p] + [c] + chars[p..];
    if x == c {
      assert after[p] == x;
      SortedIndex(after, p);
    } else if x in chars {
      var k := IndexOf(chars, x);
      var m := if k < p then k else k + 1;
      assert after[m] == x;
      SortedIndex(after, m);
    }
  }

  /** A new edge to an empty leaf stores nothing new. */
  lemma AddChildSame<V(!new)>(h: Node<V>, c: Byte)
    requires Wf(h) && !h.compr && c !in h.chars
    ensures Wf(AddChild(h, c)) && Same(h, AddChild(h, c))
    ensures var p := Position(h.chars, c); p < |AddChild(h, c).children| && AddChild(h, c).children[p] == Leaf() && AddChild(h, c).chars[p] == c
  {
    AddChildWf(h, c);
    hide Wf, Get;
    forall t ensures Get(h, t) == Get(AddChild(h, c), t) {
      AddChildGet(h, c, t);
    }
  }

  lemma AddChildWf<V>(h: Node<V>, c: Byte)
    requires Wf(h) && !h.compr && c !in h.chars
    ensures Wf(AddChild(h, c))
    ensures var p := Position(h.chars, c); p < |AddChild(h, c).children| && AddChild(h, c).children[p] == Leaf() && AddChild(h, c).chars[p] == c
  {
    hide Position, Sorted;
    var g, p := AddChild(h, c), Position(h.chars, c);
    AddedSorted(h.chars, p, c);
    LeafGet<V>([]);
    forall i | 0 <= i < |g.children| ensures Wf(g.children[i]) {
      assert g.children[i] == if i < p then h.children[i] else if i == p then Leaf() else h.children[i - 1];
    }
  }

  lemma GetEmpty<V>(n: Node<V>)
    requires Wf(n)
    ensures Get(n, []) == n.key
  {
  }

  lemma GetEdge<V>(n: Node<V>, t: Bytes)
    requires Wf(n) && !n.compr && t != []
    ensures t[0] in n.chars ==> IndexOf(n.chars, t[0]) < |n.children| && Wf(n.children[IndexOf(n.chars, t[0])])
    ensures Get(n, t) == if t[0] in n.chars then Get(n.children[IndexOf(n.chars, t[0])], t[1..]) else None
  {
  }

  lemma Inserted<T>(xs: seq<T>, p: nat, y: T, k: nat)
    requires p <= |xs| && k < |xs|
    ensures (xs[..p] + [y] + xs[p..])[p] == y
    ensures (xs[..p] + [y] + xs[p..])[if k < p then k else k + 1] == xs[k]
  {
  }

  lemma AddChildGet<V>(h: Node<V>, c: Byte, t: Bytes)
    requires Wf(h) && !h.compr && c !in h.chars && Wf(AddChild(h, c))
    ensures Get(h, t) == Get(AddChild(h, c), t)
  {
    GetEmpty(h);
    GetEmpty(AddChild(h, c));
    if t != [] {
      GetEdge(h, t);
      GetEdge(AddChild(h, c), t);
      if t[0] == c {
        NewEdge(h, c);
        LeafGet<V>(t[1..]);
      } else if t[0] in h.chars {
        OldEdge(h, c, t[0]);
      } else {
        AddedIndex(h.chars, Position(h.chars, c), c, t[0]);
      }
    }
  }

  lemma NewEdge<V>(h: Node<V>, c: Byte)
    requires Wf(h) && !h.compr && c !in h.chars
    ensures var g := AddChild(h, c); c in g.chars && IndexOf(g.chars, c) < |g.children| && g.children[IndexOf(g.chars, c)] == Leaf()
  {
    assert Sorted(h.chars);
    hide Position, Sorted, IndexOf, Wf;
    AddChildWf(h, c);
    AddedIndex(h.chars, Position(h.chars, c), c, c);
  }

  lemma OldEdge<V>(h: Node<V>, c: Byte, x: Byte)
    requires Wf(h) && !h.compr && c !in h.chars && x in h.chars
    ensures var g := AddChild(h, c);
            x in g.chars && IndexOf(g.chars, x) < |g.children| && IndexOf(h.chars, x) < |h.children|
            && g.children[IndexOf(g.chars, x)] == h.children[IndexOf(h.chars, x)]
  {
    assert |h.children| == |h.chars| && Sorted(h.chars);
    hide Position, Sorted, IndexOf, Wf;
    var p, k := Position(h.chars, c), IndexOf(h.chars, x);
    AddedIndex(h.chars, p, c, x);
    Inserted(h.children, p, Leaf(), k);
    Inserted(h.chars, p, c, k);
  }

  // ---- no node is there for nothing ----

  /** Every way down ends at a key. */
  predicate Alive<V>(n: Node<V>)
    decreases n, 1
  {
    (n.chars == [] ==> n.key.Some?) && Kids(n)
  }

  predicate Kids<V>(n: Node<V>)
    decreases n, 0
  {
    forall i | 0 <= i < |n.children| :: Alive(n.children[i])
  }

  /** The same for everything beside the way to the current place. */
  ghost predicate Around<V>(stack: Stack<V>) {
    stack.Push? ==> Around(stack.rest) && Beside(stack.top)
  }

  ghost predicate Beside<V>(f: Frame<V>) {
    forall i | 0 <= i < |f.node.children| && i != f.k :: Alive(f.node.children[i])
  }

  lemma FillAlive<V>(f: Frame<V>, child: Node<V>)
    requires WfFrame(f) && Beside(f) && Alive(child)
    ensures Alive(Fill(f, child))
  {
    forall i | 0 <= i < |Fill(f, child).children| ensures Alive(Fill(f, child).children[i]) {
      assert i != f.k ==> Fill(f, child).children[i] == f.node.children[i];
    }
  }

  lemma {:induction false} AlivePlug<V>(stack: Stack<V>, h: Node<V>)
    requires WfStack(stack) && Around(stack) && Kids(h) && (stack.Push? ==> Alive(h))
    ensures Kids(Plug(stack, h))
  {
    if stack.Push? {
      FillAlive(stack.top, h);
      AlivePlug(stack.rest, Fill(stack.top, h));
    }
  }

  lemma {:induction false} AliveAround<V>(stack: Stack<V>, h: Node<V>)
    requires WfStack(stack) && Kids(Plug(stack, h))
    ensures Around(stack) && Kids(h) && (stack.Push? ==> Alive(h))
  {
    if stack.Push? {
      var filled := Fill(stack.top, h);
      AliveAround(stack.rest, filled);
      assert filled.children[stack.top.k] == h;
      forall i | 0 <= i < |stack.top.node.children| && i != stack.top.k ensures Alive(stack.top.node.children[i]) {
        assert filled.children[i] == stack.top.node.children[i];
      }
    }
  }

  lemma ChainAlive<V>(key: Option<V>, chars: Bytes, child: Node<V>)
    requires chars != [] && Alive(child)
    ensures Alive(Chain(key, chars, child)) && Beside(Frame(Chain(key, chars, child), 0))
  {
  }

  lemma SplitAlive<V>(h: Node<V>, j: nat)
    requires Wf(h) && h.compr && j < |h.chars| && Kids(h)
    ensures Alive(SplitNode(h, j)) && Alive(h.children[0])
  {
    assert Alive(h.children[0]);
    assert Alive(Postfix(h, j)) by { assert j + 1 < |h.chars| ==> h.chars[j + 1..] != []; }
  }

  lemma AddChildAlive<V>(h: Node<V>, c: Byte)
    requires |h.children| == |h.chars| && Kids(h)
    ensures Beside(Frame(AddChild(h, c), Position(h.chars, c)))
  {
    var p, g := Position(h.chars, c), AddChild(h, c);
    forall i | 0 <= i < |g.children| && i != p ensures Alive(g.children[i]) {
      assert g.children[i] == if i < p then h.children[i] else h.children[i - 1];
    }
  }
}
