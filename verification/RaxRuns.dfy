/** How far runs of characters are merged in the radix tree (deps/rax/rax.c): where insertion and removal keep them as
    long as possible, and where not. */
module RaxRuns {
  import opened Collections
  import opened RaxTree

  /** No node that only leads on stands directly above another. */
  predicate Maximal<V>(n: Node<V>)
    decreases n, 1
  {
    Joined(n) && KidsMaximal(n)
  }

  predicate Joined<V>(n: Node<V>) {
    Passes(n) && n.children != [] ==> !Passes(n.children[0])
  }

  predicate KidsMaximal<V>(n: Node<V>)
    decreases n, 0
  {
    forall i | 0 <= i < |n.children| :: Maximal(n.children[i])
  }

  // ---- along the way to a place ----

  /** The current place hangs from a node that only leads to it. */
  predicate Hangs<V>(stack: Stack<V>) {
    stack.Push? && Passes(stack.top.node)
  }

  ghost predicate MaximalAround<V>(stack: Stack<V>) {
    stack.Push? ==> MaximalAround(stack.rest) && MaximalBeside(stack.top) && !(Hangs(stack.rest) && Passes(stack.top.node))
  }

  ghost predicate MaximalBeside<V>(f: Frame<V>) {
    forall i | 0 <= i < |f.node.children| && i != f.k :: Maximal(f.node.children[i])
  }

  lemma FillMaximal<V>(f: Frame<V>, child: Node<V>)
    requires WfFrame(f)
    ensures Passes(Fill(f, child)) == Passes(f.node)
    ensures Maximal(Fill(f, child)) <==> MaximalBeside(f) && Maximal(child) && !(Passes(f.node) && Passes(child))
  {
    var g := Fill(f, child);
    assert g.children[f.k] == child;
    assert forall i | 0 <= i < |g.children| && i != f.k :: g.children[i] == f.node.children[i];
    if Passes(f.node) { assert |f.node.children| == 1; }
  }

  lemma {:induction false} PlugMaximal<V>(stack: Stack<V>, h: Node<V>)
    requires WfStack(stack)
    ensures Maximal(Plug(stack, h)) <==> MaximalAround(stack) && Maximal(h) && !(Hangs(stack) && Passes(h))
  {
    hide Maximal, MaximalBeside;
    if stack.Push? {
      FillMaximal(stack.top, h);
      PlugMaximal(stack.rest, Fill(stack.top, h));
    }
  }

  // ---- removal ----

  /** The key stands on a run of two characters or more, and the way to it or the way on from it is single: removal
      drops such a key without merging the run with its neighbour. `hangs` tells whether the node above only leads
      here. */
  ghost predicate LosesRun<V>(n: Node<V>, hangs: bool, s: Bytes)
    requires Wf(n)
    decreases n
  {
    if s == [] then n.key.Some? && n.compr && (hangs || Passes(n.children[0]))
    else if n.compr then n.chars <= s && LosesRun(n.children[0], Passes(n), s[|n.chars|..])
    else
      var k := IndexOf(n.chars, s[0]);
      k < |n.chars| && LosesRun(n.children[k], Passes(n), s[1..])
  }

  /** The tree without the key and otherwise the same. */
  function Unkeyed<V>(n: Node<V>, s: Bytes): Node<V>
    requires Wf(n)
    decreases n
  {
    if s == [] then n.(key := None)
    else if n.compr then
      if n.chars <= s then n.(children := n.children[0 := Unkeyed(n.children[0], s[|n.chars|..])]) else n
    else
      var k := IndexOf(n.chars, s[0]);
      if k < |n.chars| then n.(children := n.children[k := Unkeyed(n.children[k], s[1..])]) else n
  }

  lemma InsideFrame<V>(f: Frame<V>, child: Node<V>, t: Bytes)
    requires WfFrame(f) && Wf(child)
    ensures Wf(Fill(f, child)) && LosesRun(Fill(f, child), false, Piece(f) + t) == LosesRun(child, Passes(f.node), t)
    ensures forall hangs :: LosesRun(Fill(f, child), hangs, Piece(f) + t) == LosesRun(child, Passes(f.node), t)
    ensures BreaksRun(Fill(f, child), Piece(f) + t) == BreaksRun(child, t)
    ensures Unkeyed(Fill(f, child), Piece(f) + t) == Fill(f, Unkeyed(child, t))
  {
    FillWf(f, child);
    var s := Piece(f) + t;
    assert s[|Piece(f)|..] == t;
    assert Fill(f, child).children[f.k] == child;
    if !f.node.compr { SortedIndex(f.node.chars, f.k); }
    assert Passes(Fill(f, child)) == Passes(f.node);
  }

  lemma {:induction false} AtPlace<V>(stack: Stack<V>, h: Node<V>, t: Bytes)
    requires WfStack(stack) && Wf(h)
    ensures Wf(Plug(stack, h)) && LosesRun(Plug(stack, h), false, Path(stack) + t) == LosesRun(h, Hangs(stack), t)
    ensures BreaksRun(Plug(stack, h), Path(stack) + t) == BreaksRun(h, t)
    ensures WfStack(stack) && Unkeyed(Plug(stack, h), Path(stack) + t) == Plug(stack, Unkeyed(h, t))
  {
    hide Wf, LosesRun, BreaksRun, Unkeyed, Fill, Piece;
    PlugWf(stack, h);
    if stack.Push? {
      var f := stack.top;
      FillWf(f, h);
      InsideFrame(f, h, t);
      AtPlace(stack.rest, Fill(f, h), Piece(f) + t);
      assert Path(stack.rest) + (Piece(f) + t) == Path(stack) + t;
    } else {
      assert [] + t == t;
    }
  }

  lemma {:induction false} LosesStored<V>(n: Node<V>, hangs: bool, s: Bytes)
    requires Wf(n) && LosesRun(n, hangs, s)
    ensures Get(n, s).Some?
    decreases n
  {
    if s != [] {
      if n.compr {
        LosesStored(n.children[0], Passes(n), s[|n.chars|..]);
      } else {
        LosesStored(n.children[IndexOf(n.chars, s[0])], Passes(n), s[1..]);
      }
    }
  }

  /** The first node down a single way that is a key, a branch or an end. */
  function Landing<V>(n: Node<V>): Node<V>
    requires Wf(n)
    decreases n
  {
    if Passes(n) then Landing(n.children[0]) else n
  }

  lemma {:induction false} LandingMaximal<V>(n: Node<V>)
    requires Wf(n) && Maximal(n)
    ensures Maximal(Landing(n))
    decreases n
  {
    if Passes(n) { LandingMaximal(n.children[0]); }
  }

  lemma LandingBelow<V>(n: Node<V>)
    requires Wf(n) && Passes(n) && KidsMaximal(n)
    ensures |n.children| == 1 && Wf(n.children[0]) && Maximal(Landing(n)) && Landing(n) == Landing(n.children[0])
  {
    LandingMaximal(n.children[0]);
  }

  // ---- insertion ----

  /** The string leaves a run before its last character, and what follows the run only leads on: the rest of the run
      is cut off in front of it. */
  ghost predicate BreaksRun<V>(n: Node<V>, s: Bytes)
    requires Wf(n)
    decreases n
  {
    if s == [] then false
    else if n.compr then
      if n.chars <= s then BreaksRun(n.children[0], s[|n.chars|..])
      else Passes(n.children[0]) && exists j: nat :: LeavesAt(n.chars, s, j) && j + 1 < |n.chars|
    else
      var k := IndexOf(n.chars, s[0]);
      k < |n.chars| && BreaksRun(n.children[k], s[1..])
  }

  predicate LeavesAt(chars: Bytes, s: Bytes, j: nat) {
    j < |chars| && j < |s| && s[j] != chars[j] && forall i | 0 <= i < j :: s[i] == chars[i]
  }

  /** Stopping inside a run at `j`, on a mismatch or at the end of the string. */
  lemma BreaksAt<V>(h: Node<V>, t: Bytes, j: nat)
    requires Wf(h) && h.compr && j < |h.chars| && j <= |t| && t[..j] == h.chars[..j]
    requires j < |t| ==> t[j] != h.chars[j]
    ensures j < |t| ==> (BreaksRun(h, t) <==> Passes(h.children[0]) && j + 1 < |h.chars|)
    ensures j == |t| ==> !BreaksRun(h, t)
  {
    assert forall i | 0 <= i < j :: t[i] == t[..j][i] == h.chars[..j][i] == h.chars[i];
    if j < |t| {
      assert LeavesAt(h.chars, t, j);
      assert !(h.chars <= t);
      assert forall i: nat :: LeavesAt(h.chars, t, i) ==> i == j;
    } else {
      assert forall i: nat :: !LeavesAt(h.chars, t, i);
    }
  }

  lemma ChainMaximal<V>(key: Option<V>, chars: Bytes, child: Node<V>)
    requires chars != []
    ensures Maximal(Chain(key, chars, child)) <==> Maximal(child) && !(key.None? && Passes(child))
    ensures KidsMaximal(Chain(key, chars, child)) <==> Maximal(child)
    ensures Passes(Chain(key, chars, child)) == key.None?
    ensures MaximalBeside(Frame(Chain(key, chars, child), 0))
  {
    OnlyKid(Chain(key, chars, child), child);
  }

  lemma OnlyKid<V>(n: Node<V>, child: Node<V>)
    requires n.children == [child]
    ensures KidsMaximal(n) <==> Maximal(child)
    ensures Maximal(n) <==> Maximal(child) && !(Passes(n) && Passes(child))
  {
    assert n.children[0] == child;
    if Maximal(child) {
      forall i | 0 <= i < |n.children| ensures Maximal(n.children[i]) { assert i == 0; }
    }
  }

  lemma SplitMaximal<V>(h: Node<V>, j: nat)
    requires Wf(h) && h.compr && j < |h.chars| && Maximal(h)
    ensures KidsMaximal(SplitNode(h, j)) <==> !(j + 1 < |h.chars| && Passes(h.children[0]))
  {
    assert Maximal(h.children[0]);
    OnlyKid(SplitNode(h, j), Postfix(h, j));
    if j + 1 < |h.chars| { ChainMaximal<V>(None, h.chars[j + 1..], h.children[0]); }
  }

  lemma AddChildMaximal<V>(h: Node<V>, c: Byte)
    requires |h.children| == |h.chars|
    ensures MaximalBeside(Frame(AddChild(h, c), Position(h.chars, c))) <==> KidsMaximal(h)
  {
    var p, g := Position(h.chars, c), AddChild(h, c);
    hide Maximal, Position;
    assert forall i | 0 <= i < |g.children| && i != p :: g.children[i] == h.children[if i < p then i else i - 1];
    forall i | 0 <= i < |h.children| && MaximalBeside(Frame(g, p)) ensures Maximal(h.children[i]) {
      var j := if i < p then i else i + 1;
      assert Maximal(g.children[j]) && g.children[j] == h.children[i];
    }
  }

  // ---- one input for each ----

  /** "FOO" and, behind it, "FOOBAR". */
  function FooBar(): Node<nat> {
    Node(None, true, [70, 79, 79], [Node(Some(1), true, [66, 65, 82], [Node(Some(2), false, [], [])])])
  }

  /** Removing "FOO" leaves the runs "FOO" and "BAR", one directly above the other. */
  lemma FooBarLosesRun()
    ensures Wf(FooBar()) && Kids(FooBar()) && Maximal(FooBar()) && LosesRun(FooBar(), false, [70, 79, 79])
    ensures var after := Unkeyed(FooBar(), [70, 79, 79]);
            && after == Node(None, true, [70, 79, 79], [Node(None, true, [66, 65, 82], [Node(Some(2), false, [], [])])])
            && Passes(after) && Passes(after.children[0]) && !Maximal(after)
  {
    var foo: Bytes, bar: Bytes := [70, 79, 79], [66, 65, 82];
    var end: Node<nat> := Node(Some(2), false, [], []);
    var keyed: Node<nat> := Node(Some(1), true, bar, [end]);
    assert Wf(end) && Wf(keyed) && Alive(end) && Alive(keyed) && Maximal(end) && Maximal(keyed);
    assert FooBar().children[0] == keyed && foo[|FooBar().chars|..] == [];
    assert LosesRun(keyed, true, []);
    assert Unkeyed(keyed, []) == Node(None, true, bar, [end]);
  }

  /** A key on a run with a single way on. */
  function KeyOnRun(): Node<nat> {
    Node(Some(1), true, [79, 65], [Node(None, true, [66, 65, 82], [Node(Some(2), false, [], [])])])
  }

  /** Inserting "X" cuts the run "OA" behind its first character and leaves "A" directly above "BAR". */
  lemma KeyOnRunBreaks()
    ensures Wf(KeyOnRun()) && Kids(KeyOnRun()) && Maximal(KeyOnRun()) && BreaksRun(KeyOnRun(), [88])
  {
    var end: Node<nat> := Node(Some(2), false, [], []);
    var run: Node<nat> := Node(None, true, [66, 65, 82], [end]);
    assert Wf(end) && Wf(run) && Alive(end) && Alive(run) && Maximal(end) && Maximal(run);
    assert KeyOnRun().children[0] == run;
    assert LeavesAt([79, 65], [88], 0);
  }
}
