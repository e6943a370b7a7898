/** Walking, finding, inserting and removing in the radix tree (deps/rax/rax.c). */
module Rax {
  import opened Collections
  import opened RaxTree
  import opened RaxRuns

  /** Where raxLowWalk stops: `i` characters are consumed, `j` of them inside the compressed node `h`. */
  ghost predicate Stops<V>(head: Node<V>, s: Bytes, stack: Stack<V>, h: Node<V>, i: nat, j: nat) {
    && WfStack(stack) && Wf(h) && Plug(stack, h) == head
    && j <= i <= |s| && Path(stack) == s[..i - j]
    && (j > 0 ==> h.compr && j < |h.chars| && h.chars[..j] == s[i - j..i])
    && (i == |s| || h.chars == [] || (if h.compr then j < |h.chars| && h.chars[j] != s[i] else s[i] !in h.chars))
  }

  /** Before each turn of the walk. */
  ghost predicate Reaches<V>(head: Node<V>, s: Bytes, stack: Stack<V>, h: Node<V>, i: nat) {
    WfStack(stack) && Wf(h) && Plug(stack, h) == head && i <= |s| && Path(stack) == s[..i]
  }

  lemma StepDown<V>(head: Node<V>, s: Bytes, stack: Stack<V>, h: Node<V>, i: nat, k: nat)
    requires Reaches(head, s, stack, h, i) && k < |h.children|
    requires var piece := if h.compr then h.chars else [h.chars[k]]; i + |piece| <= |s| && s[i..i + |piece|] == piece
    ensures var piece := if h.compr then h.chars else [h.chars[k]];
            Reaches(head, s, Push(stack, Frame(h, k)), h.children[k], i + |piece|)
  {
    var f := Frame(h, k);
    assert h.children[k := h.children[k]] == h.children;
    assert Fill(f, h.children[k]) == h;
    var piece := if h.compr then h.chars else [h.chars[k]];
    assert s[..i + |piece|] == s[..i] + s[i..i + |piece|];
  }

  method MatchRun(chars: Bytes, s: Bytes, start: nat) returns (j: nat)
    requires start <= |s|
    ensures j <= |chars| && start + j <= |s| && chars[..j] == s[start..start + j]
    ensures j == |chars| || start + j == |s| || chars[j] != s[start + j]
  {
    j := 0;
    while j < |chars| && start + j < |s| && chars[j] == s[start + j]
      invariant j <= |chars| && start + j <= |s| && chars[..j] == s[start..start + j]
    {
      assert s[start..start + j + 1] == s[start..start + j] + [s[start + j]];
      j := j + 1;
    }
  }

  /** The edge of a branching node: the last one is looked at first, then the others in order. */
  method FindEdge(chars: Bytes, c: Byte) returns (k: nat)
    requires Sorted(chars) && chars != []
    ensures k <= |chars| && (k < |chars| ==> chars[k] == c) && (k == |chars| ==> c !in chars)
  {
    var last := |chars| - 1;
    if chars[last] == c { return last; }
    if c > chars[last] { return |chars|; }
    k := 0;
    while k < |chars| && chars[k] != c
      invariant k <= |chars| && c !in chars[..k]
    {
      k := k + 1;
    }
    assert chars[..|chars|] == chars;
  }

  /** raxLowWalk */
  method LowWalk<V>(head: Node<V>, s: Bytes) returns (i: nat, h: Node<V>, j: nat, stack: Stack<V>)
    requires Wf(head)
    ensures Stops(head, s, stack, h, i, j)
  {
    hide Wf, Plug, Path, WfStack;
    i, h, j, stack := 0, head, 0, Root;
    StartWalk(head, s);
    while |h.chars| > 0 && i < |s|
      invariant Reaches(head, s, stack, h, i) && j == 0
      decreases |s| - i
    {
      NodeShape(h);
      if h.compr {
        j := MatchRun(h.chars, s, i);
        i := i + j;
        if j != |h.chars| {
          StopsInRun(head, s, stack, h, i, j);
          return;
        }
        assert h.chars[..j] == h.chars;
        StepDown(head, s, stack, h, i - j, 0);
        stack, h, j := Push(stack, Frame(h, 0)), h.children[0], 0;
      } else {
        var k := FindEdge(h.chars, s[i]);
        if k == |h.chars| { return; }
        assert s[i..i + 1] == [s[i]];
        StepDown(head, s, stack, h, i, k);
        i := i + 1;
        stack, h := Push(stack, Frame(h, k)), h.children[k];
      }
    }
  }

  lemma StartWalk<V>(head: Node<V>, s: Bytes)
    requires Wf(head)
    ensures Reaches(head, s, Root, head, 0)
  {
  }

  lemma NodeShape<V>(h: Node<V>)
    requires Wf(h)
    ensures if h.compr then |h.chars| >= 2 && |h.children| == 1 else |h.children| == |h.chars| && Sorted(h.chars)
  {
  }

  lemma StopsInRun<V>(head: Node<V>, s: Bytes, stack: Stack<V>, h: Node<V>, i: nat, j: nat)
    requires j <= i <= |s| && Reaches(head, s, stack, h, i - j) && h.compr && j < |h.chars|
    requires h.chars[..j] == s[i - j..i] && (i == |s| || h.chars[j] != s[i])
    ensures Stops(head, s, stack, h, i, j)
  {
  }

  /** What the place of the stop says about the string. */
  lemma StopGet<V>(head: Node<V>, s: Bytes, stack: Stack<V>, h: Node<V>, i: nat, j: nat)
    requires Stops(head, s, stack, h, i, j)
    ensures Wf(head) && Get(head, s) == if i == |s| && j == 0 then h.key else None
  {
    var t := s[i - j..];
    assert s == Path(stack) + t;
    GetPlug(stack, h, t);
    if i == |s| && j == 0 {
      assert t == [];
    } else {
      assert |t| == |s| - (i - j) && (i < |s| ==> t[j] == s[i]);
    }
  }

  lemma {:induction false} InsertedKey<V(!new)>(head: Node<V>, stack: Stack<V>, h: Node<V>, s: Bytes, v: V)
    requires Wf(head) && WfStack(stack) && Wf(h) && Path(stack) == s && Wf(Plug(stack, h)) && Same(Plug(stack, h), head)
    ensures Wf(Plug(stack, h.(key := Some(v))))
    ensures forall t :: Get(Plug(stack, h.(key := Some(v))), t) == if t == s then Some(v) else Get(head, t)
  {
    hide Wf, Get, Plug, Path;
    PlugKey(stack, h, Some(v));
  }

  /** The tree stores exactly the map. */
  ghost predicate Represents<V(!new)>(head: Node<V>, contents: map<Bytes, V>)
    requires Wf(head)
  {
    forall s :: Get(head, s) == if s in contents then Some(contents[s]) else None
  }

  /** What the insertion loop keeps: the place spells the first `i` characters, and nothing new is stored yet. */
  ghost predicate Growing<V(!new)>(head: Node<V>, s: Bytes, stack: Stack<V>, h: Node<V>, i: nat) {
    && Wf(head) && WfStack(stack) && Wf(h) && i <= |s| && Path(stack) == s[..i]
    && Wf(Plug(stack, h)) && Same(Plug(stack, h), head)
    && (i < |s| ==> !h.compr && s[i] !in h.chars)
  }

  lemma GrowStarts<V(!new)>(head: Node<V>, s: Bytes, stack: Stack<V>, h: Node<V>, i: nat)
    requires Stops(head, s, stack, h, i, 0) && Wf(head) && !h.compr
    ensures Growing(head, s, stack, h, i)
  {
  }

  /** Algorithm 1: after the split the walk stands on the split node, which lacks the new edge. */
  lemma SplitGrows<V(!new)>(head: Node<V>, s: Bytes, stack: Stack<V>, h: Node<V>, i: nat, j: nat)
    requires Stops(head, s, stack, h, i, j) && Wf(head) && h.compr && i < |s|
    ensures j == 0 ==> Growing(head, s, stack, SplitNode(h, j), i)
    ensures j > 0 ==> Growing(head, s, Push(stack, Frame(Chain(h.key, h.chars[..j], SplitNode(h, j)), 0)), SplitNode(h, j), i)
  {
    SplitSame(h, j);
    if j == 0 {
      PlugSame(stack, SplitNode(h, j), h);
    } else {
      var trimmed := Chain(h.key, h.chars[..j], SplitNode(h, j));
      PlugSame(stack, trimmed, h);
      var deeper := Push(stack, Frame(trimmed, 0));
      assert trimmed.children[0 := SplitNode(h, j)] == trimmed.children;
      assert Fill(Frame(trimmed, 0), SplitNode(h, j)) == trimmed;
      TrimmedPiece(trimmed, h.chars[..j]);
      assert s[..i] == s[..i - j] + s[i - j..i];
    }
  }

  lemma TrimmedPiece<V>(trimmed: Node<V>, chars: Bytes)
    requires Wf(trimmed) && chars != [] && |trimmed.children| == 1 && trimmed.chars == chars && trimmed.compr == (|chars| > 1)
    ensures Piece(Frame(trimmed, 0)) == chars
  {
  }

  /** The rest of the string becomes a run below a node without children. */
  lemma RunGrows<V(!new)>(head: Node<V>, s: Bytes, stack: Stack<V>, h: Node<V>, i: nat)
    requires Growing(head, s, stack, h, i) && h.chars == [] && i < |s|
    ensures var run := Chain(h.key, s[i..], Leaf()); Growing(head, s, Push(stack, Frame(run, 0)), Leaf(), |s|)
  {
    var run := Chain(h.key, s[i..], Leaf());
    GrowSame(h, s[i..]);
    PlugSame(stack, run, h);
    SameTrans(Plug(stack, run), Plug(stack, h), head);
    LeafGet<V>([]);
    assert run.children[0 := Leaf()] == run.children;
    assert Fill(Frame(run, 0), Leaf()) == run;
    TrimmedPiece(run, s[i..]);
    assert s[..|s|] == s[..i] + s[i..];
  }

  /** A new edge for the next character. */
  lemma EdgeGrows<V(!new)>(head: Node<V>, s: Bytes, stack: Stack<V>, h: Node<V>, i: nat)
    requires Growing(head, s, stack, h, i) && i < |s|
    ensures |h.children| == |h.chars| && Position(h.chars, s[i]) < |AddChild(h, s[i]).children|
    ensures Growing(head, s, Push(stack, Frame(AddChild(h, s[i]), Position(h.chars, s[i]))), Leaf(), i + 1)
  {
    var g, p := AddChild(h, s[i]), Position(h.chars, s[i]);
    AddChildSame(h, s[i]);
    PlugSame(stack, g, h);
    SameTrans(Plug(stack, g), Plug(stack, h), head);
    LeafGet<V>([]);
    var f := Frame(g, p);
    assert g.children[p := Leaf()] == g.children;
    assert Fill(f, Leaf()) == g && Piece(f) == [s[i]];
    assert s[..i + 1] == s[..i] + [s[i]];
  }

  /** A map and one more entry. */
  lemma StoredOne<V(!new)>(head: Node<V>, after: Node<V>, contents: map<Bytes, V>, s: Bytes, v: V)
    requires Wf(head) && Wf(after) && Represents(head, contents)
    requires forall t :: Get(after, t) == if t == s then Some(v) else Get(head, t)
    ensures Represents(after, contents[s := v])
    ensures |contents[s := v]| == |contents| + if Get(head, s).None? then 1 else 0
  {
    hide Wf, Get, Represents;
    OldValue(head, contents, s);
    assert contents[s := v].Keys == contents.Keys + {s};
    forall t ensures Get(after, t) == if t in contents[s := v] then Some(contents[s := v][t]) else None {
      OldValue(head, contents, t);
    }
    Represented(after, contents[s := v]);
  }

  lemma Represented<V(!new)>(head: Node<V>, contents: map<Bytes, V>)
    requires Wf(head) && forall t :: Get(head, t) == if t in contents then Some(contents[t]) else None
    ensures Represents(head, contents)
  {
  }

  class Tree<V(!new)> {
    var head: Node<V>
    var numele: nat
    ghost var contents: map<Bytes, V>

    ghost predicate Valid()
      reads this
    {
      Wf(head) && Represents(head, contents) && numele == |contents| && Kids(head)
    }

    /** raxNew */
    constructor ()
      ensures Valid() && contents == map[] && Maximal(head)
    {
      head, numele, contents := Leaf(), 0, map[];
      new;
      LeafGet<V>([]);
      forall s { LeafGet<V>(s); }
    }

    /** raxFind */
    method Find(s: Bytes) returns (r: Option<V>)
      requires Valid()
      ensures r == if s in contents then Some(contents[s]) else None
    {
      var i, h, j, stack := LowWalk(head, s);
      StopGet(head, s, stack, h, i, j);
      if i != |s| || (h.compr && j != 0) || h.key.None? { return None; }
      r := h.key;
    }

    /** raxInsert: 0 and the old value if the string was there, else 1. */
    method Insert(s: Bytes, v: V) returns (inserted: bool, old_: Option<V>)
      requires Valid()
      modifies this
      ensures Valid() && contents == old(contents)[s := v]
      ensures inserted == (s !in old(contents))
      ensures old_ == if s in old(contents) then Some(old(contents)[s]) else None
      ensures Maximal(old(head)) ==> (Maximal(head) <==> !BreaksRun(old(head), s))
    {
      hide Wf, Get, Plug, Path, WfStack, Represents, Growing, Maximal, BreaksRun;
      var i, h, j, stack := LowWalk(head, s);
      StopGet(head, s, stack, h, i, j);
      OldValue(head, contents, s);
      old_ := if i == |s| && (!h.compr || j == 0) then h.key else None;
      inserted := old_.None?;
      StopKey(head, s, stack, h, i, j);
      var after := InsertAt(head, s, v, i, h, j, stack);
      StoredOne(head, after, contents, s, v);
      head := after;
      contents := contents[s := v];
      if inserted { numele := numele + 1; }
    }

    /** raxRemove: the key goes, nodes that only led to it go, and a chain that is left becomes one run. */
    method Remove(s: Bytes) returns (removed: bool, old_: Option<V>)
      requires Valid()
      modifies this
      ensures Valid() && contents == old(contents) - {s} && removed == (s in old(contents))
      ensures old_ == if removed then Some(old(contents)[s]) else None
      ensures Maximal(old(head)) ==> (Maximal(head) <==> !LosesRun(old(head), false, s))
      ensures LosesRun(old(head), false, s) ==> head == Unkeyed(old(head), s)
    {
      hide Wf, Get, Plug, Path, WfStack, Represents, Same, Kids, Alive, Around, Beside, Maximal, MaximalAround, LosesRun, Unkeyed, Hangs,
           KidsMaximal;
      var i, h, j, stack := LowWalk(head, s);
      StopGet(head, s, stack, h, i, j);
      OldValue(head, contents, s);
      StopKey(head, s, stack, h, i, j);
      if i != |s| || (h.compr && j != 0) || h.key.None? {
        assert contents - {s} == contents;
        if LosesRun(head, false, s) { LosesStored(head, false, s); }
        return false, None;
      }
      old_ := h.key;
      KeyGone(head, s, stack, h, i);
      UnkeyedAround(head, s, stack, h, i);
      UnkeyedMaximal(head, s, stack, h, i);
      PlugMaximal(stack, h.(key := None));
      ghost var unkeyed := Plug(stack, h.(key := None));
      h := h.(key := None);
      h, stack := Prune(h, stack, unkeyed);
      RemovedOne(head, unkeyed, Plug(stack, h), contents, s);
      AlivePlug(stack, h);
      head := Plug(stack, h);
      contents := contents - {s};
      numele := numele - 1;
      removed := true;
    }
  }

  lemma KeyGone<V(!new)>(head: Node<V>, s: Bytes, stack: Stack<V>, h: Node<V>, i: nat)
    requires Wf(head) && Stops(head, s, stack, h, i, 0) && i == |s|
    ensures WfStack(stack) && Wf(h.(key := None)) && Wf(Plug(stack, h.(key := None)))
    ensures forall t :: Get(Plug(stack, h.(key := None)), t) == if t == s then None else Get(head, t)
    ensures |h.chars| == 0 ==> Empty(h.(key := None))
    ensures h.chars == [] ==> !h.compr
    ensures Same(Plug(stack, h.(key := None)), Plug(stack, h.(key := None)))
  {
    assert s[..|s|] == s;
    PlugKey(stack, h, None);
    KeyOnly(h, None);
  }

  lemma UnkeyedAround<V>(head: Node<V>, s: Bytes, stack: Stack<V>, h: Node<V>, i: nat)
    requires Stops(head, s, stack, h, i, 0) && Kids(head)
    ensures Around(stack) && Kids(h.(key := None)) && (h.chars != [] ==> Alive(h.(key := None)))
  {
    AliveAround(stack, h);
    assert Kids(h.(key := None));
  }

  /** What un-keying the node says about runs: only a run that the removal leaves as it is can go wrong. */
  lemma UnkeyedMaximal<V>(head: Node<V>, s: Bytes, stack: Stack<V>, h: Node<V>, i: nat)
    requires Stops(head, s, stack, h, i, 0) && Wf(head) && i == |s| && h.key.Some?
    ensures WfStack(stack) && (h.compr ==> |h.children| == 1 && |h.chars| > 1) && Wf(h)
    ensures LosesRun(head, false, s) <==> h.compr && (Hangs(stack) || Passes(h.children[0]))
    ensures Unkeyed(head, s) == Plug(stack, h.(key := None))
    ensures Maximal(head) ==> MaximalAround(stack) && KidsMaximal(h.(key := None))
    ensures Maximal(head) && h.compr ==> (Maximal(h.(key := None)) <==> !Passes(h.children[0]))
    ensures Maximal(head) && !h.compr && |h.chars| != 1 ==> Maximal(h.(key := None))
  {
    hide Path;
    assert s == s[..|s|] + [];
    AtPlace(stack, h, []);
    PlugMaximal(stack, h);
    SameKids(h, h.(key := None));
    if Maximal(head) { assert Maximal(h) && KidsMaximal(h); }
  }

  lemma RemovedOne<V(!new)>(head: Node<V>, unkeyed: Node<V>, after: Node<V>, contents: map<Bytes, V>, s: Bytes)
    requires Wf(head) && Wf(unkeyed) && Wf(after) && Represents(head, contents) && s in contents
    requires forall t :: Get(unkeyed, t) == if t == s then None else Get(head, t)
    requires Same(after, unkeyed)
    ensures Represents(after, contents - {s}) && |contents - {s}| == |contents| - 1
  {
    assert (contents - {s}).Keys == contents.Keys - {s};
    forall t ensures Get(after, t) == if t in contents - {s} then Some((contents - {s})[t]) else None {
      assert Get(after, t) == Get(unkeyed, t);
    }
  }

  /** Nothing is stored below. */
  ghost predicate Empty<V(!new)>(n: Node<V>) {
    Wf(n) && forall t :: Get(n, t) == None
  }

  /** raxRemoveChild */
  function WithoutChild<V>(n: Node<V>, k: nat): Node<V>
    requires k < |n.children| && (!n.compr ==> |n.children| == |n.chars|)
  {
    if n.compr then Node(n.key, false, [], [])
    else n.(chars := n.chars[..k] + n.chars[k + 1..], children := n.children[..k] + n.children[k + 1..])
  }

  lemma RemovedIndex(chars: Bytes, k: nat, x: Byte)
    requires Sorted(chars) && k < |chars|
    ensures Sorted(chars[..k] + chars[k + 1..])
    ensures var after := chars[..k] + chars[k + 1..];
            if x == chars[k] then x !in after
            else if x in chars then IndexOf(after, x) == (if IndexOf(chars, x) < k then IndexOf(chars, x) else IndexOf(chars, x) - 1)
            else x !in after
  {
    var after := chars[..k] + chars[k + 1..];
    forall i | 0 <= i < |after| ensures after[i] == if i < k then chars[i] else chars[i + 1] {
    }
    if x != chars[k] && x in chars {
      var m := IndexOf(chars, x);
      assert after[if m < k then m else m - 1] == x;
      SortedIndex(after, if m < k then m else m - 1);
    }
  }

  lemma WithoutChildWf<V>(n: Node<V>, k: nat)
    requires Wf(n) && k < |n.children|
    ensures (!n.compr ==> |n.children| == |n.chars|) && Wf(WithoutChild(n, k))
  {
    if !n.compr {
      RemovedIndex(n.chars, k, 0);
      var g := WithoutChild(n, k);
      forall i | 0 <= i < |g.children| ensures Wf(g.children[i]) {
        assert g.children[i] == if i < k then n.children[i] else n.children[i + 1];
      }
    }
  }

  lemma {:induction false} WithoutChildGet<V(!new)>(f: Frame<V>, child: Node<V>, t: Bytes)
    requires WfFrame(f) && Empty(child)
    ensures (!f.node.compr ==> |f.node.children| == |f.node.chars|) && Wf(WithoutChild(f.node, f.k)) && Wf(Fill(f, child))
    ensures Get(WithoutChild(f.node, f.k), t) == Get(Fill(f, child), t)
  {
    WithoutChildWf(f.node, f.k);
    FillWf(f, child);
    if t != [] && !f.node.compr {
      GetEdge(Fill(f, child), t);
      GetEdge(WithoutChild(f.node, f.k), t);
      RemovedEdge(f, child, t[0]);
    }
  }

  lemma RemovedEdge<V(!new)>(f: Frame<V>, child: Node<V>, x: Byte)
    requires WfFrame(f) && !f.node.compr && |f.node.children| == |f.node.chars| && Empty(child)
    ensures x == f.node.chars[f.k] ==> x !in WithoutChild(f.node, f.k).chars && IndexOf(f.node.chars, x) == f.k && Fill(f, child).children[f.k] == child
    ensures x != f.node.chars[f.k] ==> (x in WithoutChild(f.node, f.k).chars <==> x in f.node.chars)
    ensures x != f.node.chars[f.k] && x in f.node.chars ==>
              var g := WithoutChild(f.node, f.k);
              IndexOf(g.chars, x) < |g.children| && g.children[IndexOf(g.chars, x)] == Fill(f, child).children[IndexOf(f.node.chars, x)]
  {
    hide Wf, Empty, Sorted, IndexOf;
    NodeShape(f.node);
    SortedIndex(f.node.chars, f.k);
    RemovedAt(f.node.chars, f.k, x);
    if x != f.node.chars[f.k] && x in f.node.chars {
      KeptEdge(f, child, IndexOf(f.node.chars, x));
    }
  }

  lemma RemovedAt(chars: Bytes, k: nat, x: Byte)
    requires Sorted(chars) && k < |chars|
    ensures var after := chars[..k] + chars[k + 1..];
            && (x == chars[k] ==> x !in after)
            && (x != chars[k] ==> (x in after <==> x in chars))
            && (x != chars[k] && x in chars ==> IndexOf(chars, x) != k && IndexOf(after, x) == if IndexOf(chars, x) < k then IndexOf(chars, x) else IndexOf(chars, x) - 1)
  {
    hide Sorted;
    RemovedIndex(chars, k, x);
  }

  lemma KeptEdge<V(!new)>(f: Frame<V>, child: Node<V>, m: nat)
    requires WfFrame(f) && !f.node.compr && |f.node.children| == |f.node.chars| && m < |f.node.chars| && m != f.k
    ensures var g, at := WithoutChild(f.node, f.k), if m < f.k then m else m - 1;
            at < |g.children| && g.children[at] == Fill(f, child).children[m]
  {
    hide Wf;
    Removed(f.node.children, f.k, m);
  }

  lemma Removed<T>(xs: seq<T>, k: nat, m: nat)
    requires k < |xs| && m < |xs| && m != k
    ensures (xs[..k] + xs[k + 1..])[if m < k then m else m - 1] == xs[m]
  {
  }

  lemma WithoutChildSame<V(!new)>(f: Frame<V>, child: Node<V>)
    requires WfFrame(f) && Empty(child)
    ensures (!f.node.compr ==> |f.node.children| == |f.node.chars|) && Wf(WithoutChild(f.node, f.k)) && Wf(Fill(f, child))
    ensures Same(WithoutChild(f.node, f.k), Fill(f, child))
  {
    WithoutChildGet(f, child, []);
    forall t ensures Get(WithoutChild(f.node, f.k), t) == Get(Fill(f, child), t) {
      WithoutChildGet(f, child, t);
    }
  }

  /** A node that only leads to emptiness stores nothing. */
  lemma PassesEmpty<V(!new)>(f: Frame<V>, child: Node<V>)
    requires WfFrame(f) && Empty(child) && Passes(f.node)
    ensures Empty(Fill(f, child))
  {
    FillWf(f, child);
    forall t ensures Get(Fill(f, child), t) == None {
      if Piece(f) <= t {
        PrefixSplit(Piece(f), [], t);
        GetInside(f, child, t[|Piece(f)|..]);
      } else {
        OffPiece(f, child, t);
      }
    }
  }

  lemma OffPiece<V(!new)>(f: Frame<V>, child: Node<V>, t: Bytes)
    requires WfFrame(f) && Empty(child) && Passes(f.node) && Wf(Fill(f, child)) && !(Piece(f) <= t)
    ensures Get(Fill(f, child), t) == None
  {
    if t != [] && !f.node.compr {
      assert [t[0]] <= t;
      GetEdge(Fill(f, child), t);
    }
  }

  lemma PopAround<V>(stack: Stack<V>)
    requires stack.Push? && Around(stack)
    ensures Around(stack.rest) && Beside(stack.top)
  {
  }

  lemma PopMaximal<V>(stack: Stack<V>)
    requires stack.Push?
    ensures MaximalAround(stack) ==> MaximalAround(stack.rest) && MaximalBeside(stack.top) && !(Hangs(stack.rest) && Passes(stack.top.node))
  {
  }

  lemma WithoutChildMaximal<V>(f: Frame<V>)
    requires WfFrame(f)
    ensures f.k < |f.node.children| && (!f.node.compr ==> |f.node.children| == |f.node.chars|)
    ensures !WithoutChild(f.node, f.k).compr
    ensures MaximalBeside(f) ==> KidsMaximal(WithoutChild(f.node, f.k))
  {
    var g := WithoutChild(f.node, f.k);
    assert forall i | 0 <= i < |g.children| :: g.children[i] == f.node.children[if i < f.k then i else i + 1];
  }

  /** Without the child on the way the node still leads to keys, unless it only led to that child. */
  lemma WithoutChildAlive<V>(f: Frame<V>)
    requires WfFrame(f) && Beside(f)
    ensures (!f.node.compr ==> |f.node.children| == |f.node.chars|) && Kids(WithoutChild(f.node, f.k))
    ensures !Passes(f.node) ==> Alive(WithoutChild(f.node, f.k))
  {
    var g := WithoutChild(f.node, f.k);
    forall i | 0 <= i < |g.children| ensures Alive(g.children[i]) {
      assert g.children[i] == if i < f.k then f.node.children[i] else f.node.children[i + 1];
    }
  }

  /** A node in its place. */
  ghost predicate Placed<V>(stack: Stack<V>, h: Node<V>) {
    WfStack(stack) && Wf(h) && Wf(Plug(stack, h))
  }

  /** Every way down ends at a key, beside the place and below it. */
  ghost predicate LiveBeside<V>(stack: Stack<V>, h: Node<V>) {
    Around(stack) && Kids(h)
  }

  /** And at the place itself, unless it is the root. */
  ghost predicate LiveAt<V>(stack: Stack<V>, h: Node<V>) {
    LiveBeside(stack, h) && (stack.Push? ==> Alive(h))
  }

  ghost predicate MaximalBut<V>(stack: Stack<V>, h: Node<V>) {
    MaximalAround(stack) && KidsMaximal(h)
  }

  predicate LeadsOn<V>(h: Node<V>) {
    |h.chars| == 1 && h.key.None?
  }

  /** The run can be joined with no node above or below. */
  ghost predicate Unextendable<V>(stack: Stack<V>, h: Node<V>) {
    |h.children| == 1 && !Passes(h.children[0]) && !Hangs(stack)
  }

  /** The upward loop of raxRemove: nodes that led only to the removed one are dropped with it. */
  method CleanUp<V(!new)>(h0: Node<V>, stack0: Stack<V>) returns (h: Node<V>, stack: Stack<V>, compress: bool)
    requires WfStack(stack0) && Empty(h0)
    ensures Placed(stack0, h0) && Placed(stack, h) && Same(Plug(stack, h), Plug(stack0, h0))
    ensures compress == (LeadsOn(h) && stack0.Push?) && (stack0.Root? ==> h == h0)
    ensures LiveBeside(stack0, h0) && (stack0.Root? ==> h0.chars == []) ==> LiveAt(stack, h)
    ensures !h0.compr ==> !h.compr && (MaximalBut(stack0, h0) ==> MaximalBut(stack, h))
  {
    hide Wf, Get, Empty, Path, Same, Kids, Alive, Around, Beside, MaximalAround, MaximalBeside, KidsMaximal, Maximal, Hangs, WithoutChild,
         Passes, Fill, WfFrame;
    ghost var whole, child := Plug(stack0, h0), h0;
    EmptyWf(h0);
    PlugWf(stack0, h0);
    h, stack := h0, stack0;
    var parent: Option<Frame<V>> := None;
    while stack.Push?
      invariant WfStack(stack) && Empty(h) && Plug(stack, h) == whole
      invariant parent.Some? ==> WfFrame(parent.value) && Empty(child) && h == Fill(parent.value, child)
      invariant parent.None? ==> h == h0 && stack == stack0
      invariant Around(stack0) ==> Around(stack) && (parent.Some? ==> Beside(parent.value))
      invariant parent.Some? ==> stack0.Push? && Passes(parent.value.node)
      invariant MaximalAround(stack0) ==> MaximalAround(stack) && (parent.Some? ==> MaximalBeside(parent.value))
      decreases stack
    {
      var f := stack.top;
      if Around(stack) { PopAround(stack); }
      PopMaximal(stack);
      child := h;
      EmptyWf(child);
      FillWf(f, child);
      parent, h, stack := Some(f), Fill(f, h), stack.rest;
      if !Passes(f.node) { break; }
      PassesEmpty(f, child);
    }
    compress := false;
    if parent.Some? {
      WithoutChildMaximal(parent.value);
      WithoutChildSame(parent.value, child);
      if Around(stack0) { WithoutChildAlive(parent.value); }
      PlugSame(stack, WithoutChild(parent.value.node, parent.value.k), h);
      h := WithoutChild(parent.value.node, parent.value.k);
      compress := LeadsOn(h);
    } else {
      SameSelf(whole);
    }
  }

  lemma NotPassing<V>(h: Node<V>)
    requires KidsMaximal(h) && !Passes(h)
    ensures Maximal(h)
  {
  }

  /** What raxRemove does once the key is gone: a leaf is dropped with the nodes that led only to it, and a node left
      with a single edge joins the run it is part of. */
  method Prune<V(!new)>(h0: Node<V>, stack0: Stack<V>, ghost whole: Node<V>) returns (h: Node<V>, stack: Stack<V>)
    requires WfStack(stack0) && Wf(h0) && h0.key.None? && Wf(whole) && whole == Plug(stack0, h0)
    requires |h0.chars| == 0 ==> Empty(h0) && !h0.compr
    ensures Placed(stack, h) && Same(Plug(stack, h), whole)
    ensures LiveBeside(stack0, h0) && (h0.chars != [] ==> Alive(h0)) ==> LiveAt(stack, h)
    ensures |h0.chars| > 1 ==> h == h0 && stack == stack0
    ensures |h0.chars| <= 1 && MaximalBut(stack0, h0) ==> Maximal(Plug(stack, h))
  {
    hide Wf, Get, Plug, Path, WfStack, Same, Kids, Alive, Around, Beside, Maximal, MaximalAround, KidsMaximal, Empty;
    h, stack := h0, stack0;
    SameSelf(whole);
    if |h.chars| == 1 { Single(h); }
    var compress := |h.chars| == 1;
    if |h.chars| == 0 {
      h, stack, compress := CleanUp(h, stack);
    }
    if compress {
      h, stack := Recompress(h, stack, whole);
    } else if KidsMaximal(h) && !Passes(h) {
      NotPassing(h);
    }
    PlugMaximal(stack, h);
  }

  lemma Single<V>(h: Node<V>)
    requires Wf(h) && |h.chars| == 1
    ensures !h.compr
  {
  }

  lemma EmptyWf<V(!new)>(n: Node<V>)
    requires Empty(n)
    ensures Wf(n)
  {
  }

  lemma SameSym<V(!new)>(a: Node<V>, b: Node<V>)
    requires Wf(a) && Wf(b) && Same(a, b)
    ensures Same(b, a)
  {
  }

  lemma SameSelf<V(!new)>(n: Node<V>)
    requires Wf(n)
    ensures Same(n, n)
  {
  }

  /** One more node joins the run. */
  lemma RunLonger<V(!new)>(start: Node<V>, chars: Bytes, tail: Node<V>)
    requires Wf(start) && Wf(tail) && chars != [] && Passes(tail) && Wf(Chain(None, chars, tail)) && Same(start, Chain(None, chars, tail))
    ensures |tail.children| == 1 && tail.chars != [] && Wf(tail.children[0])
    ensures Wf(Chain(None, chars + tail.chars, tail.children[0])) && Same(start, Chain(None, chars + tail.chars, tail.children[0]))
  {
    ComprIsChain(tail);
    ChainSplit(None, chars, tail.chars, tail.children[0]);
    SameTrans(Chain(None, chars + tail.chars, tail.children[0]), Chain(None, chars, tail), start);
  }

  lemma FirstOfRun<V(!new)>(h: Node<V>)
    requires Wf(h) && Passes(h)
    ensures |h.children| == 1 && h.chars != [] && Wf(h.children[0])
    ensures Wf(Chain(None, h.chars, h.children[0])) && Same(h, Chain(None, h.chars, h.children[0]))
  {
    ComprIsChain(h);
  }

  lemma LandingUp<V>(f: Frame<V>, child: Node<V>)
    requires WfFrame(f) && Wf(child) && Passes(f.node)
    ensures Wf(Fill(f, child)) && Passes(Fill(f, child)) && Landing(Fill(f, child)) == Landing(child)
  {
    FillWf(f, child);
    assert |f.node.children| == 1 && Fill(f, child).children[0] == child;
  }

  lemma LandingStep<V>(n: Node<V>)
    requires Wf(n)
    ensures Passes(n) ==> |n.children| == 1 && Wf(n.children[0]) && Landing(n) == Landing(n.children[0])
    ensures !Passes(n) ==> Landing(n) == n
  {
  }

  lemma RunOfOne<V>(h: Node<V>, one: bool, tail: Node<V>)
    requires one ==> h.children == [tail]
    ensures one && !Passes(tail) && Maximal(tail) ==> Maximal(h)
  {
    if one { assert h.children[0] == tail; }
  }

  lemma PassesAlive<V>(n: Node<V>)
    requires Wf(n) && Passes(n)
    ensures |n.children| == 1 && (Alive(n) <==> Alive(n.children[0])) && (Kids(n) <==> Alive(n))
  {
  }

  lemma RunAlive<V>(chars: Bytes, tail: Node<V>)
    requires chars != []
    ensures Alive(tail) ==> Alive(Chain(None, chars, tail)) && Kids(Chain(None, chars, tail))
  {
  }

  /** Recompression: from the topmost node that only leads on, the chain downwards becomes one run. */
  method Recompress<V(!new)>(h0: Node<V>, stack0: Stack<V>, ghost whole: Node<V>) returns (h: Node<V>, stack: Stack<V>)
    requires Placed(stack0, h0) && Wf(whole) && Passes(h0) && Same(Plug(stack0, h0), whole)
    ensures Placed(stack, h) && Unextendable(stack, h) && Same(Plug(stack, h), whole)
    ensures LiveBeside(stack0, h0) ==> LiveAt(stack, h)
    ensures MaximalBut(stack0, h0) ==> Maximal(Plug(stack, h))
  {
    hide Wf, Get, Path, Same, Kids, Alive, Around, Beside, MaximalAround, MaximalBeside, KidsMaximal, Maximal, Landing;
    PassesAlive(h0);
    if KidsMaximal(h0) { LandingBelow(h0); }
    h, stack := h0, stack0;
    while stack.Push? && Passes(stack.top.node)
      invariant WfStack(stack) && Wf(h) && Passes(h) && Plug(stack, h) == Plug(stack0, h0)
      invariant Around(stack0) && Kids(h0) ==> Around(stack) && Alive(h)
      invariant MaximalAround(stack0) ==> MaximalAround(stack)
      invariant Landing(h) == Landing(h0)
      decreases stack
    {
      if Around(stack) && Alive(h) {
        PopAround(stack);
        FillAlive(stack.top, h);
      }
      FillWf(stack.top, h);
      PopMaximal(stack);
      LandingUp(stack.top, h);
      h, stack := Fill(stack.top, h), stack.rest;
    }
    FirstOfRun(h);
    LandingStep(h);
    PassesAlive(h);
    var chars, tail, nodes := h.chars, h.children[0], 1;
    while Passes(tail)
      invariant chars != [] && Wf(tail) && Wf(Chain(None, chars, tail)) && Same(h, Chain(None, chars, tail)) && nodes >= 1
      invariant nodes == 1 ==> tail == h.children[0]
      invariant Alive(h) ==> Alive(tail)
      invariant Landing(tail) == Landing(h0)
      decreases tail
    {
      LandingStep(tail);
      RunLonger(h, chars, tail);
      PassesAlive(tail);
      chars, tail, nodes := chars + tail.chars, tail.children[0], nodes + 1;
    }
    LandingStep(tail);
    RunOfOne(h, nodes == 1, tail);
    if nodes > 1 {
      ChainMaximal<V>(None, chars, tail);
      RunAlive(chars, tail);
      SameSym(h, Chain(None, chars, tail));
      PlugSame(stack, Chain(None, chars, tail), h);
      SameTrans(Plug(stack, Chain(None, chars, tail)), Plug(stack, h), whole);
      h := Chain(None, chars, tail);
    }
    PlugMaximal(stack, h);
  }

  lemma StopKey<V>(head: Node<V>, s: Bytes, stack: Stack<V>, h: Node<V>, i: nat, j: nat)
    requires Stops(head, s, stack, h, i, j)
    ensures j > 0 ==> h.compr
  {
  }

  lemma OldValue<V(!new)>(head: Node<V>, contents: map<Bytes, V>, s: Bytes)
    requires Wf(head) && Represents(head, contents)
    ensures Get(head, s) == if s in contents then Some(contents[s]) else None
  {
  }

  /** raxInsertAt, from where the walk stopped. */
  method InsertAt<V(!new)>(head: Node<V>, s: Bytes, v: V, i0: nat, h0: Node<V>, j: nat, stack0: Stack<V>) returns (after: Node<V>)
    requires Wf(head) && Stops(head, s, stack0, h0, i0, j)
    ensures Wf(after) && forall t :: Get(after, t) == if t == s then Some(v) else Get(head, t)
    ensures Kids(head) ==> Kids(after)
    ensures Kids(head) && Maximal(head) ==> (Maximal(after) <==> !BreaksRun(head, s))
  {
    hide Wf, Get, Plug, Path, WfStack, Stops, Growing, Same, Kids, Alive, Around, Beside, Maximal, MaximalAround, BreaksRun, Hangs;
    var i, h, stack := i0, h0, stack0;
    StopAround(head, s, stack, h, i, j);
    if Maximal(head) { StopMaximal(head, s, stack, h, i, j); }
    if i == |s| && (!h.compr || j == 0) {
      SetHere(head, s, v, stack, h, i, j);
      KeyedAlive(stack, h, v);
      KeyedMaximal(stack, h, v);
      return Plug(stack, h.(key := Some(v)));
    }
    StopShape(head, s, stack, h, i, j);
    if h.compr && i < |s| {
      // algorithm 1
      SplitGrows(head, s, stack, h, i, j);
      SplitAround(head, stack, h, j);
      if Maximal(head) { SplitKeeps(stack, h, j); }
      var split := SplitNode(h, j);
      if j > 0 { stack := Push(stack, Frame(Chain(h.key, h.chars[..j], split), 0)); }
      h := split;
    } else if h.compr {
      // algorithm 2
      EndSplits(head, s, v, stack, h, i, j);
      EndSplitAlive(head, stack, h, j, v);
      if Maximal(head) { EndSplitMaximal(stack, h, j, v); }
      var postfix := Chain(Some(v), h.chars[j..], h.children[0]);
      return Plug(stack, Chain(h.key, h.chars[..j], postfix));
    } else {
      GrowStarts(head, s, stack, h, i);
      if Kids(head) { NoDeadEnd(stack, h); }
    }
    while i < |s|
      invariant i <= |s| && Growing(head, s, stack, h, i)
      invariant Kids(head) ==> Around(stack) && Kids(h)
      invariant Kids(head) && Maximal(head) ==> (MaximalAround(stack) && KidsMaximal(h) <==> !BreaksRun(head, s))
      invariant Kids(head) && i < |s| ==> !DeadEnd(stack, h)
    {
      GrowingShape(head, s, stack, h, i);
      if |h.chars| == 0 && |s| - i > 1 {
        RunGrows(head, s, stack, h, i);
        RunAround(stack, h, s[i..]);
        RunKeeps(stack, h, s[i..]);
        stack := Push(stack, Frame(Chain(h.key, s[i..], Leaf()), 0));
        i := |s|;
      } else {
        EdgeGrows(head, s, stack, h, i);
        EdgeAround(head, stack, h, s[i]);
        EdgeKeeps(stack, h, s[i]);
        stack := Push(stack, Frame(AddChild(h, s[i]), Position(h.chars, s[i])));
        i := i + 1;
      }
      h := Leaf();
    }
    GrownKey(head, s, stack, h, v);
    KeyedAlive(stack, h, v);
    KeyedMaximal(stack, h, v);
    after := Plug(stack, h.(key := Some(v)));
  }

  lemma StopAround<V>(head: Node<V>, s: Bytes, stack: Stack<V>, h: Node<V>, i: nat, j: nat)
    requires Stops(head, s, stack, h, i, j)
    ensures WfStack(stack) && Plug(stack, h) == head
    ensures Kids(head) ==> Around(stack) && Kids(h) && (stack.Push? ==> Alive(h))
  {
    if Kids(head) { AliveAround(stack, h); }
  }

  lemma StopMaximal<V>(head: Node<V>, s: Bytes, stack: Stack<V>, h: Node<V>, i: nat, j: nat)
    requires Stops(head, s, stack, h, i, j) && Maximal(head) && Wf(head)
    ensures MaximalAround(stack) && Maximal(h) && KidsMaximal(h) && !(Hangs(stack) && Passes(h))
    ensures i < |s| && h.compr ==> (BreaksRun(head, s) <==> Passes(h.children[0]) && j + 1 < |h.chars|)
    ensures i == |s| || !h.compr ==> !BreaksRun(head, s)
  {
    hide Wf, BreaksRun, MaximalAround, Hangs, Path;
    PlugMaximal(stack, h);
    assert Maximal(h) ==> KidsMaximal(h);
    StopBreaks(head, s, stack, h, i, j);
  }

  lemma StopBreaks<V>(head: Node<V>, s: Bytes, stack: Stack<V>, h: Node<V>, i: nat, j: nat)
    requires Stops(head, s, stack, h, i, j) && Wf(head)
    ensures WfStack(stack) && Plug(stack, h) == head && Wf(h) && (h.compr ==> |h.children| == 1)
    ensures i < |s| && h.compr ==> (BreaksRun(head, s) <==> Passes(h.children[0]) && j + 1 < |h.chars|)
    ensures i == |s| || !h.compr ==> !BreaksRun(head, s)
  {
    hide Plug, Path, Passes;
    var t := s[i - j..];
    assert s == s[..i - j] + t;
    AtPlace(stack, h, t);
    assert BreaksRun(head, s) == BreaksRun(h, t);
    if h.compr && t != [] { BreaksAt(h, t, j); }
  }

  lemma NoDeadEnd<V>(stack: Stack<V>, h: Node<V>)
    requires stack.Push? ==> Alive(h)
    ensures !DeadEnd(stack, h)
  {
  }

  lemma GrowingShape<V(!new)>(head: Node<V>, s: Bytes, stack: Stack<V>, h: Node<V>, i: nat)
    requires Growing(head, s, stack, h, i) && i < |s|
    ensures !h.compr && |h.children| == |h.chars|
  {
  }

  /** An empty leaf below a node that only leads to it. */
  predicate DeadEnd<V>(stack: Stack<V>, h: Node<V>) {
    Hangs(stack) && h.chars == [] && h.key.None?
  }

  lemma KeyedMaximal<V>(stack: Stack<V>, h: Node<V>, v: V)
    requires WfStack(stack)
    ensures Maximal(Plug(stack, h.(key := Some(v)))) <==> MaximalAround(stack) && KidsMaximal(h)
  {
    PlugMaximal(stack, h.(key := Some(v)));
    SameKids(h, h.(key := Some(v)));
  }

  lemma SameKids<V>(a: Node<V>, b: Node<V>)
    requires a.children == b.children
    ensures KidsMaximal(a) <==> KidsMaximal(b)
  {
  }

  lemma SplitKeeps<V>(stack: Stack<V>, h: Node<V>, j: nat)
    requires Wf(h) && h.compr && j < |h.chars| && |h.children| == 1
    requires MaximalAround(stack) && Maximal(h) && !(Hangs(stack) && Passes(h))
    ensures var after := if j > 0 then Push(stack, Frame(Chain(h.key, h.chars[..j], SplitNode(h, j)), 0)) else stack;
            MaximalAround(after) && (KidsMaximal(SplitNode(h, j)) <==> !(j + 1 < |h.chars| && Passes(h.children[0])))
  {
    SplitMaximal(h, j);
    if j > 0 { ChainMaximal(h.key, h.chars[..j], SplitNode(h, j)); }
  }

  lemma EndSplitMaximal<V>(stack: Stack<V>, h: Node<V>, j: nat, v: V)
    requires WfStack(stack) && h.compr && 0 < j < |h.chars| && |h.children| == 1
    requires MaximalAround(stack) && Maximal(h) && !(Hangs(stack) && Passes(h))
    ensures Maximal(Plug(stack, Chain(h.key, h.chars[..j], Chain(Some(v), h.chars[j..], h.children[0]))))
  {
    var postfix := Chain(Some(v), h.chars[j..], h.children[0]);
    assert Maximal(h.children[0]);
    ChainMaximal(Some(v), h.chars[j..], h.children[0]);
    ChainMaximal(h.key, h.chars[..j], postfix);
    PlugMaximal(stack, Chain(h.key, h.chars[..j], postfix));
  }

  lemma RunKeeps<V>(stack: Stack<V>, h: Node<V>, chars: Bytes)
    requires chars != [] && h.chars == [] && |h.children| == 0
    ensures KidsMaximal(Leaf<V>())
    ensures !DeadEnd(stack, h) ==>
              (MaximalAround(Push(stack, Frame(Chain(h.key, chars, Leaf()), 0))) <==> MaximalAround(stack) && KidsMaximal(h))
  {
    ChainMaximal(h.key, chars, Leaf());
  }

  lemma EdgeKeeps<V>(stack: Stack<V>, h: Node<V>, c: Byte)
    requires |h.children| == |h.chars| && !h.compr
    ensures KidsMaximal(Leaf<V>())
    ensures var f := Frame(AddChild(h, c), Position(h.chars, c));
            && (Hangs(Push(stack, f)) ==> h.chars == [])
            && (!DeadEnd(stack, h) ==> (MaximalAround(Push(stack, f)) <==> MaximalAround(stack) && KidsMaximal(h)))
  {
    AddChildMaximal(h, c);
  }

  /** A place that gets a key makes what leads there alive. */
  lemma KeyedAlive<V>(stack: Stack<V>, h: Node<V>, v: V)
    requires WfStack(stack)
    ensures Around(stack) && Kids(h) ==> Kids(Plug(stack, h.(key := Some(v))))
  {
    if Around(stack) && Kids(h) {
      assert Kids(h.(key := Some(v)));
      AlivePlug(stack, h.(key := Some(v)));
    }
  }

  lemma SplitAround<V>(head: Node<V>, stack: Stack<V>, h: Node<V>, j: nat)
    requires Wf(h) && h.compr && j < |h.chars| && |h.children| == 1
    ensures Kids(head) && Around(stack) && Kids(h) ==>
              Kids(SplitNode(h, j)) && (j > 0 ==> Around(Push(stack, Frame(Chain(h.key, h.chars[..j], SplitNode(h, j)), 0))))
  {
    if Kids(h) {
      SplitAlive(h, j);
      if j > 0 { ChainAlive(h.key, h.chars[..j], SplitNode(h, j)); }
    }
  }

  lemma EndSplitAlive<V>(head: Node<V>, stack: Stack<V>, h: Node<V>, j: nat, v: V)
    requires WfStack(stack) && h.compr && 0 < j < |h.chars| && |h.children| == 1
    ensures Kids(head) && Around(stack) && Kids(h) ==> Kids(Plug(stack, Chain(h.key, h.chars[..j], Chain(Some(v), h.chars[j..], h.children[0]))))
  {
    if Around(stack) && Kids(h) {
      assert Alive(h.children[0]);
      ChainAlive(Some(v), h.chars[j..], h.children[0]);
      ChainAlive(h.key, h.chars[..j], Chain(Some(v), h.chars[j..], h.children[0]));
      AlivePlug(stack, Chain(h.key, h.chars[..j], Chain(Some(v), h.chars[j..], h.children[0])));
    }
  }

  lemma RunAround<V>(stack: Stack<V>, h: Node<V>, chars: Bytes)
    ensures Around(stack) ==> Around(Push(stack, Frame(Chain(h.key, chars, Leaf()), 0))) && Kids(Leaf<V>())
  {
  }

  lemma EdgeAround<V>(head: Node<V>, stack: Stack<V>, h: Node<V>, c: Byte)
    requires |h.children| == |h.chars|
    ensures Kids(head) && Around(stack) && Kids(h) ==> Around(Push(stack, Frame(AddChild(h, c), Position(h.chars, c)))) && Kids(Leaf<V>())
  {
    if Kids(h) { AddChildAlive(h, c); }
  }

  lemma StopShape<V>(head: Node<V>, s: Bytes, stack: Stack<V>, h: Node<V>, i: nat, j: nat)
    requires Stops(head, s, stack, h, i, j)
    ensures j <= i <= |s| && WfStack(stack) && (j > 0 ==> h.compr && j < |h.chars|) && (h.compr ==> |h.children| == 1 && |h.chars| > 1)
    ensures h.compr && i < |s| ==> j < |h.chars|
    ensures Wf(h)
  {
  }

  /** The node for the string is there. */
  lemma SetHere<V(!new)>(head: Node<V>, s: Bytes, v: V, stack: Stack<V>, h: Node<V>, i: nat, j: nat)
    requires Wf(head) && Stops(head, s, stack, h, i, j) && i == |s| && (!h.compr || j == 0)
    ensures WfStack(stack) && Wf(Plug(stack, h.(key := Some(v))))
    ensures forall t :: Get(Plug(stack, h.(key := Some(v))), t) == if t == s then Some(v) else Get(head, t)
  {
    hide Wf, Get, Plug, Path, WfStack;
    assert s[..|s|] == s;
    PlugKey(stack, h, Some(v));
  }

  lemma GrownKey<V(!new)>(head: Node<V>, s: Bytes, stack: Stack<V>, h: Node<V>, v: V)
    requires Growing(head, s, stack, h, |s|)
    ensures WfStack(stack) && Wf(Plug(stack, h.(key := Some(v))))
    ensures forall t :: Get(Plug(stack, h.(key := Some(v))), t) == if t == s then Some(v) else Get(head, t)
  {
    hide Wf, Get, Plug, Path, WfStack;
    assert s[..|s|] == s;
    InsertedKey(head, stack, h, s, v);
  }

  /** Algorithm 2: the string ends inside a run. */
  lemma EndSplits<V(!new)>(head: Node<V>, s: Bytes, v: V, stack: Stack<V>, h: Node<V>, i: nat, j: nat)
    requires Wf(head) && Stops(head, s, stack, h, i, j) && i == |s| && h.compr && 0 < j < |h.chars| && |h.children| == 1
    ensures var postfix := Chain(Some(v), h.chars[j..], h.children[0]);
            WfStack(stack) && Wf(Plug(stack, Chain(h.key, h.chars[..j], postfix)))
            && forall t :: Get(Plug(stack, Chain(h.key, h.chars[..j], postfix)), t) == if t == s then Some(v) else Get(head, t)
  {
    EndSplitSame(h, j);
    var plain := Chain(None, h.chars[j..], h.children[0]);
    var trimmed := Chain(h.key, h.chars[..j], plain);
    PlugSame(stack, trimmed, h);
    var deeper := Push(stack, Frame(trimmed, 0));
    assert trimmed.children[0 := plain] == trimmed.children;
    assert Fill(Frame(trimmed, 0), plain) == trimmed;
    TrimmedPiece(trimmed, h.chars[..j]);
    assert s == s[..i - j] + s[i - j..i];
    InsertedKey(head, deeper, plain, s, v);
    assert plain.(key := Some(v)) == Chain(Some(v), h.chars[j..], h.children[0]);
    assert Fill(Frame(trimmed, 0), plain.(key := Some(v))) == Chain(h.key, h.chars[..j], plain.(key := Some(v)));
  }
}
