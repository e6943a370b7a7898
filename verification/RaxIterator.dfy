/** Seeking and stepping in key order (raxSeek with ">=" and raxIteratorNextStep in deps/rax/rax.c). */
module RaxIterators {
  import opened Collections
  import opened RaxTree
  import opened Rax

  /** Byte order of strings, a proper prefix first. */
  ghost predicate Less(a: Bytes, b: Bytes) {
    Above(a, b) || ProperPrefix(a, b)
  }

  ghost predicate ProperPrefix(a: Bytes, b: Bytes) {
    a <= b && |a| < |b|
  }

  /** The first difference makes `x` greater than `p` and everything that starts with `p`. */
  ghost predicate Above(p: Bytes, x: Bytes) {
    exists i: nat :: i < |p| && i < |x| && p[..i] == x[..i] && p[i] < x[i]
  }

  ghost predicate Stored<V>(head: Node<V>, x: Bytes)
    requires Wf(head)
  {
    Get(head, x).Some?
  }

  /** The stored strings that are still wanted are the ones behind `p`, together with those below it. */
  ghost predicate Covers<V>(head: Node<V>, wanted: iset<Bytes>, p: Bytes, deeper: bool) {
    Wf(head) && forall x | Stored(head, x) :: x in wanted <==> (deeper && ProperPrefix(p, x)) || Above(p, x)
  }

  // ---- order ----

  lemma AboveAppend(p: Bytes, q: Bytes, x: Bytes)
    ensures Above(p + q, x) <==> Above(p, x) || (p <= x && Above(q, x[|p|..]))
  {
    if Above(p + q, x) { AboveParts(p, q, x); }
    if Above(p, x) {
      var i: nat :| i < |p| && i < |x| && p[..i] == x[..i] && p[i] < x[i];
      assert (p + q)[..i] == p[..i] && (p + q)[i] == p[i];
    }
    if p <= x && Above(q, x[|p|..]) { AboveJoined(p, q, x); }
  }

  lemma AboveParts(p: Bytes, q: Bytes, x: Bytes)
    requires Above(p + q, x)
    ensures Above(p, x) || (p <= x && Above(q, x[|p|..]))
  {
    var i: nat :| i < |p + q| && i < |x| && (p + q)[..i] == x[..i] && (p + q)[i] < x[i];
    if i < |p| {
      assert p[..i] == (p + q)[..i] && p[i] == (p + q)[i];
    } else {
      assert p == (p + q)[..i][..|p|] == x[..i][..|p|] == x[..|p|];
      var m := i - |p|;
      assert q[..m] == (p + q)[..i][|p|..] == x[..i][|p|..] == x[|p|..][..m];
      assert q[m] < x[|p|..][m];
    }
  }

  lemma AboveJoined(p: Bytes, q: Bytes, x: Bytes)
    requires p <= x && Above(q, x[|p|..])
    ensures Above(p + q, x)
  {
    var m: nat :| m < |q| && m < |x[|p|..]| && q[..m] == x[|p|..][..m] && q[m] < x[|p|..][m];
    var i := |p| + m;
    assert (p + q)[..i] == p + q[..m] && x[..i] == p + x[|p|..][..m];
    assert (p + q)[i] < x[i];
  }

  lemma AboveOne(c: Byte, x: Bytes)
    ensures Above([c], x) <==> x != [] && c < x[0]
  {
    if x != [] && c < x[0] { assert [c][..0] == x[..0]; }
  }

  lemma NothingAboveEmpty(x: Bytes)
    ensures !Above([], x)
  {
  }

  /** A stored string that starts with the path of a place is stored below its node. */
  lemma StoredBelow<V>(head: Node<V>, stack: Stack<V>, h: Node<V>, x: Bytes)
    requires WfStack(stack) && Wf(h) && Plug(stack, h) == head && Path(stack) <= x
    ensures Wf(head) && Get(head, x) == Get(h, x[|Path(stack)|..])
  {
    GetPlug(stack, h, x[|Path(stack)|..]);
    assert x == Path(stack) + x[|Path(stack)|..];
  }

  /** What is stored under a node starts with one of its edges. */
  lemma StoredEdge<V>(h: Node<V>, t: Bytes)
    requires Wf(h) && t != [] && Get(h, t).Some?
    ensures h.compr ==> h.chars <= t
    ensures !h.compr ==> t[0] in h.chars
  {
  }

  // ---- the steps ----

  /** Downwards: the first child comes before all others. */
  lemma DownCovers<V>(head: Node<V>, wanted: iset<Bytes>, stack: Stack<V>, h: Node<V>, piece: Bytes, child: Node<V>)
    requires WfStack(stack) && Wf(h) && Plug(stack, h) == head && Covers(head, wanted, Path(stack), true)
    requires h.children != [] && child == h.children[0] && piece == if h.compr then h.chars else [h.chars[0]]
    requires WfStack(Push(stack, Frame(h, 0))) && Path(Push(stack, Frame(h, 0))) == Path(stack) + piece
    requires Wf(child) && Plug(Push(stack, Frame(h, 0)), child) == head
    ensures forall x | Stored(head, x) :: x in wanted <==> x == Path(stack) + piece || ProperPrefix(Path(stack) + piece, x) || Above(Path(stack) + piece, x)
  {
    var p := Path(stack);
    forall x | Stored(head, x)
      ensures x in wanted <==> x == p + piece || ProperPrefix(p + piece, x) || Above(p + piece, x)
    {
      AboveAppend(p, piece, x);
      if p <= x {
        StoredBelow(head, stack, h, x);
        DownEdge(h, piece, x[|p|..]);
        PrefixSplit(p, piece, x);
      } else {
        NoPrefix(p, piece, x);
      }
    }
  }

  lemma NoPrefix(p: Bytes, q: Bytes, x: Bytes)
    requires !(p <= x)
    ensures !(p + q <= x) && x != p + q && !ProperPrefix(p, x) && !ProperPrefix(p + q, x)
  {
    LongerPrefix(p, q, x);
    assert p <= p + q;
  }

  /** Below a node everything starts with its first edge or comes behind it. */
  lemma DownEdge<V>(h: Node<V>, piece: Bytes, t: Bytes)
    requires Wf(h) && h.children != [] && piece == (if h.compr then h.chars else [h.chars[0]]) && Get(h, t).Some?
    ensures t != [] <==> piece <= t || Above(piece, t)
    ensures piece != []
  {
    if t != [] {
      StoredEdge(h, t);
      if !h.compr {
        AboveOne(h.chars[0], t);
        assert piece <= t <==> t[0] == h.chars[0];
      }
    }
  }

  lemma PrefixNotAbove(p: Bytes, x: Bytes)
    requires p <= x
    ensures !Above(p, x)
  {
  }

  /** The first child whose character is greater than `c`, or the number of children. */
  function NextEdge(chars: Bytes, c: Byte): (i: nat)
    ensures i <= |chars| && (forall k | 0 <= k < i :: chars[k] <= c) && (i < |chars| ==> chars[i] > c)
  {
    if chars == [] || chars[0] > c then 0 else 1 + NextEdge(chars[1..], c)
  }

  /** What follows a piece below a node: nothing behind a run, the greater edges behind an edge. */
  lemma AfterPiece<V>(h: Node<V>, piece: Bytes, t: Bytes)
    requires Wf(h) && piece != [] && (if h.compr then piece == h.chars else |piece| == 1) && Get(h, t).Some?
    ensures h.compr ==> !Above(piece, t)
    ensures !h.compr ==> (Above(piece, t) <==> t != [] && t[0] in h.chars && t[0] > piece[0])
  {
    if t != [] {
      StoredEdge(h, t);
      if h.compr { PrefixNotAbove(piece, t); } else { assert piece == [piece[0]]; AboveOne(piece[0], t); }
    }
  }

  /** Going up when nothing follows the piece at its node. */
  lemma UpCovers<V>(head: Node<V>, wanted: iset<Bytes>, stack: Stack<V>, h: Node<V>, piece: Bytes)
    requires WfStack(stack) && Wf(h) && Plug(stack, h) == head && Covers(head, wanted, Path(stack) + piece, false)
    requires piece != [] && (if h.compr then piece == h.chars else |piece| == 1 && NextEdge(h.chars, piece[0]) == |h.chars|)
    ensures Covers(head, wanted, Path(stack), false)
  {
    var p := Path(stack);
    forall x | Stored(head, x) ensures x in wanted <==> Above(p, x) {
      AboveAppend(p, piece, x);
      if p <= x {
        StoredBelow(head, stack, h, x);
        AfterPiece(h, piece, x[|p|..]);
      }
    }
  }

  /** Going on to the next child. */
  lemma AcrossCovers<V>(head: Node<V>, wanted: iset<Bytes>, stack: Stack<V>, h: Node<V>, c: Byte, i: nat)
    requires WfStack(stack) && Wf(h) && Plug(stack, h) == head && Covers(head, wanted, Path(stack) + [c], false)
    requires !h.compr && i == NextEdge(h.chars, c) && i < |h.chars|
    ensures var q := Path(stack) + [h.chars[i]];
            forall x | Stored(head, x) :: x in wanted <==> x == q || ProperPrefix(q, x) || Above(q, x)
  {
    var p, d := Path(stack), h.chars[i];
    forall x | Stored(head, x) ensures x in wanted <==> x == p + [d] || ProperPrefix(p + [d], x) || Above(p + [d], x) {
      AboveAppend(p, [c], x);
      AboveAppend(p, [d], x);
      if p <= x {
        StoredBelow(head, stack, h, x);
        var t := x[|p|..];
        AfterPiece(h, [c], t);
        AfterPiece(h, [d], t);
        PrefixSplit(p, [d], x);
        GreaterEdge(h.chars, c, i, t);
      } else {
        NoPrefix(p, [d], x);
      }
    }
  }

  lemma GreaterEdge(chars: Bytes, c: Byte, i: nat, t: Bytes)
    requires RaxTree.Sorted(chars) && i == NextEdge(chars, c) && i < |chars|
    ensures t != [] && t[0] in chars ==> (t[0] > c <==> [chars[i]] <= t || t[0] > chars[i])
  {
    if t != [] && t[0] in chars {
      var k :| 0 <= k < |chars| && chars[k] == t[0];
      assert [chars[i]] <= t <==> t[0] == chars[i];
    }
  }

  /** A node without children has nothing below it. */
  lemma LeafCovers<V>(head: Node<V>, wanted: iset<Bytes>, stack: Stack<V>, h: Node<V>)
    requires WfStack(stack) && Wf(h) && Plug(stack, h) == head && Covers(head, wanted, Path(stack), true) && h.children == []
    ensures Covers(head, wanted, Path(stack), false)
  {
    var p := Path(stack);
    forall x | Stored(head, x) ensures x in wanted <==> Above(p, x) {
      if ProperPrefix(p, x) {
        StoredBelow(head, stack, h, x);
        StoredEdge(h, x[|p|..]);
      }
    }
  }

  // ---- how much is left ----

  function Work<V>(n: Node<V>): nat
    decreases n, |n.children| + 1
  {
    1 + WorkFrom(n, 0)
  }

  function WorkFrom<V>(n: Node<V>, k: nat): nat
    decreases n, |n.children| - k
  {
    if k >= |n.children| then 0 else Work(n.children[k]) + 2 + WorkFrom(n, k + 1)
  }

  function WorkAbove<V>(stack: Stack<V>): nat {
    if stack.Root? then 0 else 1 + WorkFrom(stack.top.node, stack.top.k + 1) + WorkAbove(stack.rest)
  }

  lemma {:induction false} WorkShrinks<V>(n: Node<V>, k: nat, i: nat)
    requires k <= i < |n.children|
    ensures WorkFrom(n, k) >= Work(n.children[i]) + 2 + WorkFrom(n, i + 1)
    decreases i - k
  {
    if k < i { WorkShrinks(n, k + 1, i); }
  }

  // ---- the loop ----

  /** The iterator's place in the tree. */
  ghost predicate At<V>(head: Node<V>, stack: Stack<V>, node: Node<V>) {
    Wf(head) && WfStack(stack) && Wf(node) && Plug(stack, node) == head
  }

  /** The last piece of the iterator's key belongs to an edge of `node`, present or not. */
  ghost predicate Hangs<V>(stack: Stack<V>, node: Node<V>, key: Bytes, piece: Bytes)
    requires WfStack(stack)
  {
    key == Path(stack) + piece && piece != [] && if node.compr then piece == node.chars else |piece| == 1
  }

  /** The answer: the least wanted string, at its node. */
  ghost predicate Answer<V>(head: Node<V>, wanted: iset<Bytes>, found: bool, stack: Stack<V>, node: Node<V>, key: Bytes) {
    && Wf(head)
    && (found ==> At(head, stack, node) && Path(stack) == key && node.key.Some? && Stored(head, key) && key in wanted
                  && Get(head, key) == node.key
                  && forall x | Stored(head, x) && x in wanted :: x == key || Less(key, x))
    && (!found ==> forall x | Stored(head, x) :: x !in wanted)
  }

  lemma Arrived<V>(head: Node<V>, wanted: iset<Bytes>, stack: Stack<V>, node: Node<V>)
    requires At(head, stack, node)
    requires forall x | Stored(head, x) :: x in wanted <==> x == Path(stack) || ProperPrefix(Path(stack), x) || Above(Path(stack), x)
    ensures node.key.Some? ==> Answer(head, wanted, true, stack, node, Path(stack))
    ensures node.key.None? ==> Covers(head, wanted, Path(stack), true)
  {
    GetPlug(stack, node, []);
    assert Path(stack) + [] == Path(stack);
  }

  lemma AtTheTop<V>(head: Node<V>, wanted: iset<Bytes>, stack: Stack<V>, node: Node<V>)
    requires At(head, stack, node) && stack.Root? && Covers(head, wanted, Path(stack), false)
    ensures Answer(head, wanted, false, stack, node, [])
  {
    forall x | Stored(head, x) ensures x !in wanted { NothingAboveEmpty(x); }
  }

  lemma StepInto<V>(head: Node<V>, stack: Stack<V>, h: Node<V>, k: nat)
    requires At(head, stack, h) && k < |h.children|
    ensures At(head, Push(stack, Frame(h, k)), h.children[k])
    ensures Path(Push(stack, Frame(h, k))) == Path(stack) + Piece(Frame(h, k))
    ensures Work(h.children[k]) + WorkAbove(Push(stack, Frame(h, k))) == Work(h.children[k]) + 1 + WorkFrom(h, k + 1) + WorkAbove(stack)
  {
    assert h.children[k := h.children[k]] == h.children;
    assert Fill(Frame(h, k), h.children[k]) == h;
  }

  lemma StepOut<V>(head: Node<V>, stack: Stack<V>, node: Node<V>)
    requires At(head, stack, node) && stack.Push?
    ensures At(head, stack.rest, Fill(stack.top, node))
    ensures Hangs(stack.rest, Fill(stack.top, node), Path(stack), Piece(stack.top))
    ensures WorkFrom(Fill(stack.top, node), stack.top.k + 1) == WorkFrom(stack.top.node, stack.top.k + 1)
  {
    FillWf(stack.top, node);
    SameWork(stack.top.node, Fill(stack.top, node), stack.top.k + 1);
  }

  lemma {:induction false} SameWork<V>(a: Node<V>, b: Node<V>, k: nat)
    requires |a.children| == |b.children| && forall i | k <= i < |a.children| :: a.children[i] == b.children[i]
    ensures WorkFrom(a, k) == WorkFrom(b, k)
    decreases |a.children| - k
  {
    if k < |a.children| { SameWork(a, b, k + 1); }
  }

  datatype Outcome = End | Found | Deeper

  /** Where the inner loop of raxIteratorNextStep stands: below `node` everything is done, or, with `noup`, the
      last piece of the key is to be replaced at `node` itself. */
  ghost predicate Upward<V>(head: Node<V>, wanted: iset<Bytes>, stack: Stack<V>, node: Node<V>, key: Bytes, noup: bool,
                            piece: Bytes)
  {
    && At(head, stack, node) && Covers(head, wanted, key, false)
    && if noup then Hangs(stack, node, key, piece) else key == Path(stack)
  }

  ghost function UpWork<V>(stack: Stack<V>, node: Node<V>, noup: bool): nat {
    (if noup then Work(node) else 0) + WorkAbove(stack)
  }

  lemma HangsEnd<V>(stack: Stack<V>, node: Node<V>, key: Bytes, piece: Bytes)
    requires WfStack(stack) && Hangs(stack, node, key, piece)
    ensures key != [] && |piece| <= |key| && key[..|key| - |piece|] == Path(stack)
    ensures !node.compr ==> piece == [key[|key| - 1]]
    ensures |piece| == if node.compr then |node.chars| else 1
  {
    assert key[|key| - |piece|..] == piece;
  }

  /** At `node`, with the last piece of the key, `prev` at its end, about to be replaced. `from` counts the children
      up to the one that was left. */
  ghost predicate Replacing<V>(head: Node<V>, wanted: iset<Bytes>, stack: Stack<V>, node: Node<V>, key: Bytes, prev: Byte,
                               from: nat)
  {
    && At(head, stack, node) && key != [] && prev == key[|key| - 1]
    && (if node.compr then |key| >= |node.chars| > 0 && key[|key| - |node.chars|..] == node.chars else true)
    && key[..|key| - (if node.compr then |node.chars| else 1)] == Path(stack)
    && Covers(head, wanted, key, false)
    && (!node.compr && from > 0 ==> from <= |node.chars| && node.chars[from - 1] == prev)
  }

  lemma HangsReplaced<V>(head: Node<V>, wanted: iset<Bytes>, stack: Stack<V>, node: Node<V>, key: Bytes, piece: Bytes)
    requires Upward(head, wanted, stack, node, key, true, piece)
    ensures key != [] && Replacing(head, wanted, stack, node, key, key[|key| - 1], 0)
    ensures UpWork(stack, node, true) == 1 + WorkFrom(node, 0) + WorkAbove(stack)
  {
    HangsEnd(stack, node, key, piece);
  }

  lemma PoppedReplaced<V>(head: Node<V>, wanted: iset<Bytes>, stack: Stack<V>, node: Node<V>, key: Bytes)
    requires Upward(head, wanted, stack, node, key, false, []) && stack.Push?
    ensures WfFrame(stack.top) && WfStack(stack.rest) && key != []
    ensures Replacing(head, wanted, stack.rest, Fill(stack.top, node), key, key[|key| - 1], stack.top.k + 1)
    ensures UpWork(stack, node, false) == 1 + WorkFrom(Fill(stack.top, node), stack.top.k + 1) + WorkAbove(stack.rest)
  {
    StepOut(head, stack, node);
    HangsEnd(stack.rest, Fill(stack.top, node), key, Piece(stack.top));
  }

  lemma ReplacedShape<V>(head: Node<V>, wanted: iset<Bytes>, stack: Stack<V>, node: Node<V>, key: Bytes, prev: Byte, from: nat)
    requires Replacing(head, wanted, stack, node, key, prev, from)
    ensures node.compr ==> |key| >= |node.chars|
    ensures !node.compr ==> |key| >= 1 && |node.children| == |node.chars|
  {
  }

  lemma ReplacedUp<V>(head: Node<V>, wanted: iset<Bytes>, stack: Stack<V>, node: Node<V>, key: Bytes, prev: Byte, from: nat)
    requires Replacing(head, wanted, stack, node, key, prev, from)
    requires !node.compr ==> NextEdge(node.chars, prev) == |node.chars| || (from > 0 && |node.chars| <= 1)
    ensures var up := |key| - (if node.compr then |node.chars| else 1);
            0 <= up && Upward(head, wanted, stack, node, key[..up], false, [])
  {
    NoEdge(node, prev, from);
    var piece := if node.compr then node.chars else [prev];
    assert key == Path(stack) + piece;
    UpCovers(head, wanted, stack, node, piece);
  }

  lemma ReplacedAcross<V>(head: Node<V>, wanted: iset<Bytes>, stack: Stack<V>, node: Node<V>, key: Bytes, prev: Byte, from: nat)
    requires Replacing(head, wanted, stack, node, key, prev, from)
    requires !node.compr && NextEdge(node.chars, prev) < |node.chars|
    ensures var i := NextEdge(node.chars, prev);
            var on := Push(stack, Frame(node, i));
            && i < |node.children| && At(head, on, node.children[i]) && WfStack(on)
            && key[..|key| - 1] + [node.chars[i]] == Path(on)
            && (node.children[i].key.Some? ==> Answer(head, wanted, true, on, node.children[i], Path(on)))
            && (node.children[i].key.None? ==> Covers(head, wanted, Path(on), true))
            && Work(node.children[i]) + WorkAbove(on) < 1 + WorkFrom(node, from) + WorkAbove(stack)
  {
    assert key == Path(stack) + [prev];
    var i := NextEdge(node.chars, prev);
    EdgeAcross(head, wanted, stack, node, prev, i, from);
    Arrived(head, wanted, Push(stack, Frame(node, i)), node.children[i]);
  }

  /** The inner loop: up to a node with a greater child, and into it. */
  method GoUp<V>(head: Node<V>, stack0: Stack<V>, node0: Node<V>, key0: Bytes, noup0: bool, ghost wanted: iset<Bytes>,
                 ghost piece: Bytes) returns (outcome: Outcome, stack: Stack<V>, node: Node<V>, key: Bytes)
    requires Upward(head, wanted, stack0, node0, key0, noup0, piece) && (!noup0 ==> piece == [])
    ensures !outcome.Deeper? ==> Answer(head, wanted, outcome.Found?, stack, node, key)
    ensures outcome.Deeper? ==> At(head, stack, node) && WfStack(stack) && key == Path(stack) && Covers(head, wanted, key, true)
    ensures outcome.Deeper? ==> Work(node) + WorkAbove(stack) < UpWork(stack0, node0, noup0)
  {
    hide At, Covers, Answer, Wf, Path, Plug, WfStack, WfFrame, WorkFrom, Work, WorkAbove, Upward, UpWork, Replacing, Fill;
    stack, node, key := stack0, node0, key0;
    var noup := noup0;
    while true
      invariant Upward(head, wanted, stack, node, key, noup, if noup then piece else [])
      invariant UpWork(stack, node, noup) <= UpWork(stack0, node0, noup0)
      decreases UpWork(stack, node, noup)
    {
      ghost var work, from := UpWork(stack, node, noup), 0;
      var oldNoup := noup;
      if !noup && stack.Root? {
        UpwardEnds(head, wanted, stack, node, key);
        return End, stack, node, [];
      }
      if !noup {
        PoppedReplaced(head, wanted, stack, node, key);
        from := stack.top.k + 1;
        node, stack := Fill(stack.top, node), stack.rest;
      } else {
        HangsReplaced(head, wanted, stack, node, key, piece);
        noup := false;
      }
      var prev := key[|key| - 1];
      ReplacedShape(head, wanted, stack, node, key, prev, from);
      if !node.compr && |node.chars| > (if oldNoup then 0 else 1) {
        var i := NextEdge(node.chars, prev);
        if i < |node.chars| {
          ReplacedAcross(head, wanted, stack, node, key, prev, from);
          key := key[..|key| - 1] + [node.chars[i]];
          stack, node := Push(stack, Frame(node, i)), node.children[i];
          outcome := if node.key.Some? then Found else Deeper;
          return;
        }
      }
      NoChildLeft(node, prev);
      ReplacedUp(head, wanted, stack, node, key, prev, from);
      LessWork(stack, node, from);
      key := key[..|key| - (if node.compr then |node.chars| else 1)];
    }
  }

  lemma UpwardEnds<V>(head: Node<V>, wanted: iset<Bytes>, stack: Stack<V>, node: Node<V>, key: Bytes)
    requires Upward(head, wanted, stack, node, key, false, []) && stack.Root?
    ensures Answer(head, wanted, false, stack, node, [])
  {
    AtTheTop(head, wanted, stack, node);
  }

  lemma NoChildLeft<V>(node: Node<V>, prev: Byte)
    ensures node.chars == [] ==> NextEdge(node.chars, prev) == 0
  {
  }

  lemma LessWork<V>(stack: Stack<V>, node: Node<V>, from: nat)
    ensures UpWork(stack, node, false) < 1 + WorkFrom(node, from) + WorkAbove(stack)
  {
  }

  lemma AtWf<V>(head: Node<V>, stack: Stack<V>, node: Node<V>)
    requires At(head, stack, node)
    ensures Wf(head) && WfStack(stack) && Wf(node) && Plug(stack, node) == head
    ensures stack.Push? ==> WfStack(stack.rest) && WfFrame(stack.top)
    ensures !node.compr ==> |node.children| == |node.chars| && RaxTree.Sorted(node.chars)
  {
  }

  /** Either the scan found nothing, or the one edge is the one that was taken. */
  lemma NoEdge<V>(node: Node<V>, prev: Byte, from: nat)
    requires !node.compr ==> from > 0 ==> from <= |node.chars| && node.chars[from - 1] == prev
    requires !node.compr ==> NextEdge(node.chars, prev) == |node.chars| || (from > 0 && |node.chars| <= 1)
    ensures !node.compr ==> NextEdge(node.chars, prev) == |node.chars|
  {
  }

  lemma EdgeAcross<V>(head: Node<V>, wanted: iset<Bytes>, stack: Stack<V>, node: Node<V>, prev: Byte, i: nat, from: nat)
    requires At(head, stack, node) && Covers(head, wanted, Path(stack) + [prev], false)
    requires !node.compr && i == NextEdge(node.chars, prev) && i < |node.chars|
    requires from > 0 ==> from <= |node.chars| && node.chars[from - 1] == prev
    ensures i < |node.children| && At(head, Push(stack, Frame(node, i)), node.children[i])
    ensures Path(Push(stack, Frame(node, i))) == Path(stack) + [node.chars[i]]
    ensures var q := Path(Push(stack, Frame(node, i)));
            forall x | Stored(head, x) :: x in wanted <==> x == q || ProperPrefix(q, x) || Above(q, x)
    ensures Work(node.children[i]) + WorkAbove(Push(stack, Frame(node, i))) < 1 + WorkFrom(node, from) + WorkAbove(stack)
  {
    StepInto(head, stack, node, i);
    AcrossCovers(head, wanted, stack, node, prev, i);
    BehindTaken(node.chars, prev, i, from);
    WorkShrinks(node, from, i);
  }

  lemma BehindTaken(chars: Bytes, prev: Byte, i: nat, from: nat)
    requires RaxTree.Sorted(chars) && i == NextEdge(chars, prev) && i < |chars|
    requires from > 0 ==> from <= |chars| && chars[from - 1] == prev
    ensures from <= i
  {
  }

  /** raxIteratorNextStep from a node, downwards first. */
  method NextStep<V>(head: Node<V>, stack0: Stack<V>, node0: Node<V>, key0: Bytes, ghost wanted: iset<Bytes>)
    returns (found: bool, stack: Stack<V>, node: Node<V>, key: Bytes)
    requires At(head, stack0, node0) && key0 == Path(stack0) && Covers(head, wanted, key0, true)
    ensures Answer(head, wanted, found, stack, node, key)
  {
    hide At, Covers, Answer, Wf, Path, Plug, WfStack, Hangs, WorkFrom, Upward;
    AtWf(head, stack0, node0);
    stack, node, key := stack0, node0, key0;
    while true
      invariant At(head, stack, node) && WfStack(stack) && key == Path(stack) && Covers(head, wanted, key, true)
      decreases Work(node) + WorkAbove(stack)
    {
      AtWf(head, stack, node);
      if |node.children| > 0 {
        GoneDown(head, wanted, stack, node);
        key := key + (if node.compr then node.chars else [node.chars[0]]);
        stack, node := Push(stack, Frame(node, 0)), node.children[0];
        Arrived(head, wanted, stack, node);
        if node.key.Some? { return true, stack, node, key; }
      } else {
        LeafUp(head, wanted, stack, node, key);
        var outcome;
        outcome, stack, node, key := GoUp(head, stack, node, key, false, wanted, []);
        if !outcome.Deeper? { return outcome.Found?, stack, node, key; }
      }
    }
  }

  lemma LeafUp<V>(head: Node<V>, wanted: iset<Bytes>, stack: Stack<V>, node: Node<V>, key: Bytes)
    requires At(head, stack, node) && key == Path(stack) && Covers(head, wanted, key, true) && node.children == []
    ensures Upward(head, wanted, stack, node, key, false, [])
    ensures UpWork(stack, node, false) < Work(node) + WorkAbove(stack)
  {
    LeafCovers(head, wanted, stack, node);
  }

  lemma GoneDown<V>(head: Node<V>, wanted: iset<Bytes>, stack: Stack<V>, node: Node<V>)
    requires At(head, stack, node) && Covers(head, wanted, Path(stack), true) && node.children != []
    ensures node.compr || node.chars != []
    ensures At(head, Push(stack, Frame(node, 0)), node.children[0]) && WfStack(Push(stack, Frame(node, 0)))
    ensures Path(Push(stack, Frame(node, 0))) == Path(stack) + if node.compr then node.chars else [node.chars[0]]
    ensures var q := Path(Push(stack, Frame(node, 0)));
            forall x | Stored(head, x) :: x in wanted <==> x == q || ProperPrefix(q, x) || Above(q, x)
    ensures Work(node.children[0]) + WorkAbove(Push(stack, Frame(node, 0))) < Work(node) + WorkAbove(stack)
  {
    StepInto(head, stack, node, 0);
    WorkShrinks(node, 0, 0);
    DownCovers(head, wanted, stack, node, if node.compr then node.chars else [node.chars[0]], node.children[0]);
  }

  // ---- seeking ----

  ghost predicate AtLeast(u: Bytes, t: Bytes) {
    t == u || Less(u, t)
  }

  ghost function From(ele: Bytes): iset<Bytes> {
    iset x | AtLeast(ele, x)
  }

  ghost function Behind(ele: Bytes): iset<Bytes> {
    iset x | Less(ele, x)
  }

  /** Comparing with a string that starts with `q`. */
  lemma AtLeastSplit(q: Bytes, u: Bytes, x: Bytes)
    ensures AtLeast(q + u, x) <==> Above(q, x) || (q <= x && AtLeast(u, x[|q|..]))
  {
    AboveAppend(q, u, x);
    if q <= x {
      PrefixSplit(q, u, x);
      PrefixNotAbove(q, x);
      assert x == q + u <==> x[|q|..] == u;
    } else {
      NoPrefix(q, u, x);
    }
  }

  /** The node stores, from `u` on, what the iterator will look at. */
  lemma SeekCovers<V>(head: Node<V>, stack: Stack<V>, h: Node<V>, u: Bytes, piece: Bytes, deeper: bool)
    requires At(head, stack, h) && (deeper ==> piece == [])
    requires forall t | Get(h, t).Some? :: AtLeast(u, t) <==> if deeper then t != [] else Above(piece, t)
    ensures Covers(head, From(Path(stack) + u), Path(stack) + piece, deeper)
  {
    var q := Path(stack);
    if deeper { assert q + [] == q; }
    forall x | Stored(head, x) ensures x in From(q + u) <==> (deeper && ProperPrefix(q + piece, x)) || Above(q + piece, x) {
      AtLeastSplit(q, u, x);
      AboveAppend(q, piece, x);
      if q <= x {
        StoredBelow(head, stack, h, x);
        PrefixNotAbove(q, x);
        assert Get(h, x[|q|..]).Some?;
        if deeper { NothingAboveEmpty(x[|q|..]); }
      } else if deeper {
        NoPrefix(q, [], x);
      }
    }
  }

  /** (a) No edge for the next character. */
  lemma MissingEdge<V>(h: Node<V>, u: Bytes)
    requires Wf(h) && !h.compr && u != [] && u[0] !in h.chars
    ensures forall t | Get(h, t).Some? :: AtLeast(u, t) <==> Above([u[0]], t)
  {
    forall t | Get(h, t).Some? ensures AtLeast(u, t) <==> Above([u[0]], t) {
      assert u == [u[0]] + u[1..];
      AtLeastSplit([u[0]], u[1..], t);
      if t != [] {
        StoredEdge(h, t);
        assert [u[0]] <= t <==> t[0] == u[0];
      }
    }
  }

  /** (b) A run that differs from the string at `j`. */
  lemma RunDiffers<V>(h: Node<V>, u: Bytes, j: nat)
    requires Wf(h) && h.compr && j < |h.chars| && j < |u| && h.chars[..j] == u[..j] && h.chars[j] != u[j]
    ensures h.chars[j] > u[j] ==> forall t | Get(h, t).Some? :: AtLeast(u, t) <==> t != []
    ensures h.chars[j] < u[j] ==> forall t | Get(h, t).Some? :: AtLeast(u, t) <==> Above(h.chars, t)
  {
    forall t | Get(h, t).Some?
      ensures h.chars[j] > u[j] ==> (AtLeast(u, t) <==> t != [])
      ensures h.chars[j] < u[j] ==> (AtLeast(u, t) <==> Above(h.chars, t))
    {
      if t != [] {
        StoredEdge(h, t);
        PrefixNotAbove(h.chars, t);
        Differs(u, t, h.chars, j);
      }
    }
  }

  lemma Differs(u: Bytes, t: Bytes, chars: Bytes, j: nat)
    requires j < |chars| && j < |u| && chars[..j] == u[..j] && chars[j] != u[j] && chars <= t
    ensures AtLeast(u, t) <==> chars[j] > u[j]
  {
    assert t[..j] == chars[..j] && t[j] == chars[j];
    if chars[j] > u[j] {
      assert Above(u, t);
    } else {
      NotAbove(u, t, j);
    }
  }

  lemma NotAbove(u: Bytes, t: Bytes, j: nat)
    requires j < |u| && j < |t| && u[..j] == t[..j] && t[j] < u[j]
    ensures !Above(u, t) && !(u <= t)
  {
    forall i: nat | i < |u| && i < |t| && u[..i] == t[..i] ensures u[i] >= t[i] {
      SameUpTo(u, t, j, i);
      SameUpTo(u, t, i, j);
    }
  }

  lemma SameUpTo(u: Bytes, t: Bytes, n: nat, k: nat)
    requires n <= |u| && n <= |t| && u[..n] == t[..n]
    ensures k < n ==> u[k] == t[k]
  {
    if k < n { assert u[..n][k] == u[k] && t[..n][k] == t[k]; }
  }

  /** (c) The string ends at the node, which is no key, or inside its run. */
  lemma EndsInside<V>(h: Node<V>, u: Bytes)
    requires Wf(h) && if u == [] then h.key.None? else h.compr && u <= h.chars && |u| < |h.chars|
    ensures forall t | Get(h, t).Some? :: AtLeast(u, t) <==> t != []
  {
    forall t | Get(h, t).Some? ensures AtLeast(u, t) <==> t != [] {
      if t != [] {
        StoredEdge(h, t);
        if u != [] { assert t[..|u|] == h.chars[..|u|] == u; }
      }
    }
  }

  /** raxSeek with ">=": the least stored string not below `ele`. */
  method SeekFrom<V>(head: Node<V>, ele: Bytes) returns (found: bool, stack: Stack<V>, node: Node<V>, key: Bytes)
    requires Wf(head)
    ensures Answer(head, From(ele), found, stack, node, key)
  {
    hide Covers, Answer, Wf, Path, Plug, WfStack, Get, From, Upward, Hangs, AtLeast, Stops;
    var i, j;
    i, node, j, stack := LowWalk(head, ele);
    StopShape(head, ele, stack, node, i, j);
    StopPlace(head, ele, stack, node, i, j);
    key := ele[..i - j];
    if i == |ele| && (!node.compr || j == 0) && node.key.Some? {
      Exactly(head, stack, node, ele);
      return true, stack, node, ele;
    }
    ghost var u := ele[i - j..];
    var outcome;
    if i != |ele| && !node.compr {
      key := key + [ele[i]];
      StartAcross(head, stack, node, ele, i);
      outcome, stack, node, key := GoUp(head, stack, node, key, true, From(ele), [ele[i]]);
    } else if i != |ele| {
      RunDiffers(node, u, j);
      if node.chars[j] > ele[i] {
        StartDown(head, stack, node, ele, u);
        outcome := Deeper;
      } else {
        key := key + node.chars;
        StartBehind(head, stack, node, ele, u);
        outcome, stack, node, key := GoUp(head, stack, node, key, true, From(ele), node.chars);
      }
    } else {
      EndsInside(node, u);
      StartDown(head, stack, node, ele, u);
      outcome := Deeper;
    }
    found := outcome.Found?;
    if outcome.Deeper? {
      found, stack, node, key := NextStep(head, stack, node, key, From(ele));
    }
  }

  lemma StopPlace<V>(head: Node<V>, ele: Bytes, stack: Stack<V>, h: Node<V>, i: nat, j: nat)
    requires Wf(head) && Stops(head, ele, stack, h, i, j)
    ensures j <= i && At(head, stack, h) && Path(stack) == ele[..i - j] && ele == Path(stack) + ele[i - j..]
    ensures j == 0 || (h.compr && j < |h.chars| && h.chars[..j] == ele[i - j..][..j])
    ensures i < |ele| && h.compr ==> j < |h.chars| && j < |ele[i - j..]| && h.chars[j] != ele[i] && ele[i - j..][j] == ele[i]
                                     && h.chars[..j] == ele[i - j..][..j]
    ensures i < |ele| && !h.compr ==> j == 0 && ele[i] !in h.chars
    ensures i == |ele| ==> if j == 0 then ele[i - j..] == [] else h.compr && ele[i - j..] <= h.chars && 0 < |ele[i - j..]| < |h.chars|
  {
  }

  lemma Exactly<V>(head: Node<V>, stack: Stack<V>, node: Node<V>, ele: Bytes)
    requires At(head, stack, node) && Path(stack) == ele[..|ele|] && node.key.Some?
    ensures Answer(head, From(ele), true, stack, node, ele)
  {
    assert ele[..|ele|] == ele && Path(stack) + [] == Path(stack);
    GetPlug(stack, node, []);
  }

  lemma StartDown<V>(head: Node<V>, stack: Stack<V>, node: Node<V>, ele: Bytes, u: Bytes)
    requires At(head, stack, node) && ele == Path(stack) + u
    requires forall t | Get(node, t).Some? :: AtLeast(u, t) <==> t != []
    ensures Covers(head, From(ele), Path(stack), true)
  {
    SeekCovers(head, stack, node, u, [], true);
    assert Path(stack) + [] == Path(stack);
  }

  lemma StartBehind<V>(head: Node<V>, stack: Stack<V>, node: Node<V>, ele: Bytes, u: Bytes)
    requires At(head, stack, node) && ele == Path(stack) + u && node.compr
    requires forall t | Get(node, t).Some? :: AtLeast(u, t) <==> Above(node.chars, t)
    ensures Upward(head, From(ele), stack, node, Path(stack) + node.chars, true, node.chars)
  {
    SeekCovers(head, stack, node, u, node.chars, false);
  }

  lemma StartAcross<V>(head: Node<V>, stack: Stack<V>, node: Node<V>, ele: Bytes, i: nat)
    requires At(head, stack, node) && i < |ele| && Path(stack) == ele[..i] && !node.compr && ele[i] !in node.chars
    ensures Upward(head, From(ele), stack, node, Path(stack) + [ele[i]], true, [ele[i]])
  {
    var u := ele[i..];
    assert ele == Path(stack) + u && u[0] == ele[i];
    MissingEdge(node, u);
    SeekCovers(head, stack, node, u, [u[0]], false);
  }

  /** raxNext: the least stored string behind the current one. */
  method Next<V>(head: Node<V>, stack0: Stack<V>, node0: Node<V>, key0: Bytes)
    returns (found: bool, stack: Stack<V>, node: Node<V>, key: Bytes)
    requires At(head, stack0, node0) && Path(stack0) == key0
    ensures Answer(head, Behind(key0), found, stack, node, key)
  {
    assert Covers(head, Behind(key0), key0, true);
    found, stack, node, key := NextStep(head, stack0, node0, key0, Behind(key0));
  }
}
