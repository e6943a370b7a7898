/** Enumerating the keys that any number of iterators share at one level (lib/lftj.c). */
module LeapfrogSearch {
  import opened Collections
  import opened Hexastores
  import opened Leapfrog

  /** The order of keys, with an iterator at the end of its index last. */
  predicate KeyLeq(a: Iter, b: Iter) {
    CurrentKey(b).None? || (CurrentKey(a).Some? && CurrentKey(a).value <= CurrentKey(b).value)
  }

  lemma SwapKeeps<T>(s: seq<T>, j: nat)
    requires j + 1 < |s|
    ensures multiset(s[j := s[j + 1]][j + 1 := s[j]]) == multiset(s)
  {
  }

  method Exchange(arr: array<Iter>, j: nat)
    requires j + 1 < arr.Length
    modifies arr
    ensures arr[..] == old(arr[..])[j := old(arr[j + 1])][j + 1 := old(arr[j])]
    ensures multiset(arr[..]) == multiset(old(arr[..]))
  {
    ghost var s := arr[..];
    SwapKeeps(s, j);
    arr[j], arr[j + 1] := arr[j + 1], arr[j];
    assert arr[..] == s[j := s[j + 1]][j + 1 := s[j]];
  }

  /** From `m` on the keys are in order and not below any before them. */
  ghost predicate SettledFrom(s: seq<Iter>, m: int) {
    forall a, b | 0 <= a < b < |s| && b >= m :: KeyLeq(s[a], s[b])
  }

  /** One pass of sort_iterators moves a greatest key behind the others. */
  method Pass(arr: array<Iter>, m: nat)
    requires 0 < m <= arr.Length && SettledFrom(arr[..], m)
    modifies arr
    ensures multiset(arr[..]) == multiset(old(arr[..])) && SettledFrom(arr[..], m - 1)
  {
    hide CurrentKey, KeyLeq;
    for j := 0 to m - 1
      invariant multiset(arr[..]) == multiset(old(arr[..])) && SettledFrom(arr[..], m)
      invariant forall a | 0 <= a < j :: KeyLeq(arr[a], arr[j])
    {
      KeyOrder(arr[j], arr[j + 1]);
      if CurrentKey(arr[j]).None? || (CurrentKey(arr[j + 1]).Some? && CurrentKey(arr[j]).value > CurrentKey(arr[j + 1]).value) {
        Exchange(arr, j);
      } else {
        forall a | 0 <= a < j ensures KeyLeq(arr[a], arr[j + 1]) {
          KeyTransitive(arr[a], arr[j], arr[j + 1]);
        }
      }
    }
  }

  /** sort_iterators */
  method SortIterators(arr: array<Iter>)
    modifies arr
    ensures multiset(arr[..]) == multiset(old(arr[..])) && SettledFrom(arr[..], 0)
  {
    hide SettledFrom;
    SettledEnd(arr[..]);
    var m := arr.Length;
    while m > 1
      invariant 0 <= m <= arr.Length && multiset(arr[..]) == multiset(old(arr[..])) && SettledFrom(arr[..], m)
    {
      Pass(arr, m);
      m := m - 1;
    }
    SettledStart(arr[..], m);
  }

  lemma SettledEnd(s: seq<Iter>)
    ensures SettledFrom(s, |s|)
  {
  }

  lemma SettledStart(s: seq<Iter>, m: nat)
    requires SettledFrom(s, m) && m <= 1
    ensures SettledFrom(s, 0)
  {
  }

  lemma KeyOrder(a: Iter, b: Iter)
    ensures if CurrentKey(a).None? || (CurrentKey(b).Some? && CurrentKey(a).value > CurrentKey(b).value)
            then KeyLeq(b, a) else KeyLeq(a, b)
  {
  }

  lemma KeyTransitive(a: Iter, b: Iter, c: Iter)
    requires KeyLeq(a, b) && KeyLeq(b, c)
    ensures KeyLeq(a, c)
  {
  }

  // ---- the search ----

  ghost predicate IsBaseKey(b: Base, x: nat) {
    IsKey(Iter(b.rows, b.depth, b.v1, b.v2, 0, 0), x)
  }

  function Bases(s: seq<Iter>): set<Base> {
    set it | it in s :: BaseOf(it)
  }

  /** A key of every level in the set. */
  ghost predicate Common(bases: set<Base>, x: nat) {
    forall b | b in bases :: IsBaseKey(b, x)
  }

  lemma CommonKey(s: seq<Iter>, x: nat)
    requires forall it | it in s :: 1 <= it.depth <= 3
    ensures Common(Bases(s), x) <==> forall it | it in s :: IsKey(it, x)
  {
    forall it | it in s ensures IsBaseKey(BaseOf(it), x) <==> IsKey(it, x) {
      var b := BaseOf(it);
      SameBaseSameKeys(it, Iter(b.rows, b.depth, b.v1, b.v2, 0, 0), x);
    }
    forall it | it in s ensures BaseOf(it) in Bases(s) {
    }
  }

  lemma BasesUpdate(s: seq<Iter>, p: nat, it: Iter)
    requires p < |s| && BaseOf(it) == BaseOf(s[p])
    ensures Bases(s[p := it]) == Bases(s)
  {
    var t := s[p := it];
    forall i | 0 <= i < |s| ensures BaseOf(t[i]) == BaseOf(s[i]) {
    }
    forall b | b in Bases(s) ensures b in Bases(t) {
      var i :| 0 <= i < |s| && BaseOf(s[i]) == b;
      assert t[i] in t;
    }
    forall b | b in Bases(t) ensures b in Bases(s) {
      var i :| 0 <= i < |t| && BaseOf(t[i]) == b;
      assert s[i] in s;
    }
  }

  lemma BasesPermuted(s: seq<Iter>, t: seq<Iter>)
    requires multiset(s) == multiset(t)
    ensures Bases(s) == Bases(t)
    ensures forall it :: it in s <==> it in t
  {
    forall it ensures it in s <==> it in t {
      assert it in s <==> it in multiset(s);
      assert it in t <==> it in multiset(t);
    }
  }

  /** What holds of each iterator when a search for the common keys from `low` on starts: it stands at one of its
      keys, and an iterator that deeper levels have left at the end has no key from `low` on. */
  ghost predicate Standing(it: Iter, low: nat) {
    AtKey(it) && (CurrentKey(it).None? ==> Val(it) < low)
  }

  ghost predicate AllStanding(s: seq<Iter>, low: nat) {
    forall i | 0 <= i < |s| :: Standing(s[i], low)
  }

  lemma EndHasNoMore(it: Iter, low: nat, x: nat)
    requires Standing(it, low) && CurrentKey(it).None? && IsKey(it, x)
    ensures x < low
  {
    var i: nat :| i < |it.rows| && IsRowFor(it, x, i);
    assert Side(it, it.depth, it.rows[i]) <= 0;
  }

  /** Position `a` of the cycle that starts at `p`. */
  function Turn(p: nat, a: nat, n: nat): nat {
    if p + a < n then p + a else p + a - n
  }

  /** From `p` round to the iterator before it the keys ascend. */
  ghost predicate Ascends(s: seq<Iter>, p: nat) {
    p < |s| && forall a: nat, b: nat | a < b < |s| :: KeyLeq(s[Turn(p, a, |s|)], s[Turn(p, b, |s|)])
  }

  lemma SortedAscends(s: seq<Iter>)
    requires SettledFrom(s, 0) && s != []
    ensures Ascends(s, 0)
  {
  }

  /** The iterator at `p` has a least key, the one before it a greatest. */
  lemma AscendsBounds(s: seq<Iter>, p: nat, i: nat)
    requires Ascends(s, p) && i < |s|
    ensures i == p || KeyLeq(s[p], s[i])
    ensures i == Turn(p, |s| - 1, |s|) || KeyLeq(s[i], s[Turn(p, |s| - 1, |s|)])
  {
    var a := if i >= p then i - p else i - p + |s|;
    assert Turn(p, a, |s|) == i && Turn(p, 0, |s|) == p;
  }

  /** Moving the least key to the greatest place turns the cycle by one. */
  lemma AscendsNext(s: seq<Iter>, p: nat, it: Iter)
    requires Ascends(s, p) && |s| > 1 && KeyLeq(s[Turn(p, |s| - 1, |s|)], it)
    ensures Ascends(s[p := it], Turn(p, 1, |s|))
  {
    hide KeyLeq;
    var t, n, q := s[p := it], |s|, Turn(p, 1, |s|);
    forall a: nat, b: nat | a < b < n ensures KeyLeq(t[Turn(q, a, n)], t[Turn(q, b, n)]) {
      assert Turn(q, a, n) == Turn(p, a + 1, n) && Turn(q, a, n) != p;
      if b < n - 1 {
        assert Turn(q, b, n) == Turn(p, b + 1, n) && Turn(q, b, n) != p;
      } else {
        assert Turn(q, b, n) == p;
        if a + 1 < n - 1 { KeyTransitive(s[Turn(p, a + 1, n)], s[Turn(p, n - 1, n)], it); }
      }
    }
  }

  /** A bound on all column values; the room below it shrinks with every seek. */
  ghost predicate Bounded(s: seq<Iter>, bound: nat) {
    forall it, k, d | it in s && k in it.rows && 1 <= d <= 3 :: Column(k, d) <= bound
  }

  function MaxOf(rows: seq<Key>): nat {
    if rows == [] then 0
    else
      var k, m := rows[|rows| - 1], MaxOf(rows[..|rows| - 1]);
      if k.first >= k.second && k.first >= k.third && k.first >= m then k.first
      else if k.second >= k.third && k.second >= m then k.second
      else if k.third >= m then k.third else m
  }

  lemma {:induction false} MaxBounds(rows: seq<Key>)
    ensures forall k | k in rows :: k.first <= MaxOf(rows) && k.second <= MaxOf(rows) && k.third <= MaxOf(rows)
  {
    if rows != [] { MaxBounds(rows[..|rows| - 1]); }
  }

  lemma {:induction false} SomeBound(s: seq<Iter>) returns (bound: nat)
    ensures Bounded(s, bound)
  {
    bound := 0;
    if s != [] {
      var rest := SomeBound(s[1..]);
      MaxBounds(s[0].rows);
      bound := if rest > MaxOf(s[0].rows) then rest else MaxOf(s[0].rows);
      assert s == [s[0]] + s[1..];
    }
  }

  lemma KeyBounded(s: seq<Iter>, bound: nat, it: Iter)
    requires Bounded(s, bound) && it in s && AtKey(it)
    ensures Val(it) <= bound
  {
    var i: nat :| i < |it.rows| && IsRowFor(it, Val(it), i);
    assert it.rows[i] in it.rows;
  }

  function Room(s: seq<Iter>, bound: nat): nat {
    if s == [] then 0
    else Room(s[..|s| - 1], bound) + if Val(s[|s| - 1]) <= bound then bound - Val(s[|s| - 1]) else 0
  }

  lemma {:induction false} RoomShrinks(s: seq<Iter>, bound: nat, p: nat, it: Iter)
    requires p < |s| && Val(s[p]) < Val(it) <= bound
    ensures Room(s[p := it], bound) < Room(s, bound)
  {
    var front := s[..|s| - 1];
    if p == |s| - 1 {
      assert s[p := it][..|s| - 1] == front;
    } else {
      assert s[p := it][..|s| - 1] == front[p := it];
      RoomShrinks(front, bound, p, it);
    }
  }

  /** Everything the loop of leapfrog_search keeps. */
  ghost predicate Searching(s: seq<Iter>, p: nat, bases: set<Base>, low: nat, bound: nat) {
    && Ascends(s, p) && AllStanding(s, low) && Bases(s) == bases && Bounded(s, bound)
    && (exists i :: 0 <= i < |s| && Val(s[i]) >= low)
    && forall x: nat, i | Common(bases, x) && x >= low && 0 <= i < |s| :: x >= Val(s[i])
  }

  /** Where a search may start: no iterator is beyond `low`, one stands at it. */
  ghost predicate Startable(s: seq<Iter>, low: nat) {
    AllStanding(s, low) && (forall it | it in s :: Val(it) <= low) && exists it :: it in s && Val(it) == low
  }

  lemma SearchStarts(s: seq<Iter>, t: seq<Iter>, low: nat, bound: nat)
    requires s != [] && Startable(s, low) && Bounded(s, bound) && multiset(t) == multiset(s) && SettledFrom(t, 0)
    ensures Searching(t, 0, Bases(s), low, bound)
  {
    hide KeyLeq, Standing;
    BasesPermuted(s, t);
    assert |t| == |multiset(t)| == |multiset(s)| == |s|;
    SortedAscends(t);
    forall i | 0 <= i < |t| ensures Standing(t[i], low) && Val(t[i]) <= low {
      assert t[i] in s;
    }
    var it :| it in s && Val(it) == low;
    assert it in t;
  }

  /** When the least and the greatest key are equal, all are. */
  lemma AllEqual(s: seq<Iter>, p: nat, bases: set<Base>, low: nat, bound: nat, k: nat)
    requires Searching(s, p, bases, low, bound)
    requires CurrentKey(s[p]) == Some(k) && CurrentKey(s[Turn(p, |s| - 1, |s|)]) == Some(k)
    ensures forall i | 0 <= i < |s| :: CurrentKey(s[i]) == Some(k) && AtKey(s[i])
    ensures Common(bases, k) && k >= low && forall x: nat | Common(bases, x) && x >= low :: x >= k
  {
    hide Bounded, AtKey;
    forall i: nat | i < |s| ensures CurrentKey(s[i]) == Some(k) && Standing(s[i], low) {
      AscendsBounds(s, p, i);
    }
    forall it | it in s ensures 1 <= it.depth <= 3 && IsKey(it, k) {
      ItsKey(it);
    }
    CommonKey(s, k);
    assert Val(s[p]) == k;
  }

  lemma ItsKey(it: Iter)
    requires AtKey(it)
    ensures 1 <= it.depth <= 3 && IsKey(it, Val(it))
  {
  }

  /** Nothing is left when an iterator is at the end of its index, or has no key from the greatest one on. */
  lemma NoneLeft(s: seq<Iter>, p: nat, bases: set<Base>, low: nat, bound: nat, i: nat, above: nat)
    requires Searching(s, p, bases, low, bound) && i < |s|
    requires forall y: nat | IsKey(s[i], y) :: y < above
    requires above <= low || exists j :: 0 <= j < |s| && Val(s[j]) >= above
    ensures forall x: nat | Common(bases, x) :: x < low
  {
    forall x: nat | Common(bases, x) ensures x < low {
      forall it | it in s ensures 1 <= it.depth <= 3 { StandingDepth(s, low, it); }
      CommonKey(s, x);
      assert IsKey(s[i], x);
    }
  }

  lemma StandingDepth(s: seq<Iter>, low: nat, it: Iter)
    requires AllStanding(s, low) && it in s
    ensures 1 <= it.depth <= 3 && AtKey(it)
  {
    var i :| 0 <= i < |s| && s[i] == it;
    assert Standing(s[i], low);
  }

  lemma RoomLess(s: seq<Iter>, bound: nat, p: nat, it: Iter)
    requires p < |s| && Bounded(s, bound) && BaseOf(it) == BaseOf(s[p]) && AtKey(it) && Val(s[p]) < Val(it)
    ensures Room(s[p := it], bound) < Room(s, bound)
  {
    BoundedUpdate(s, bound, p, it);
    KeyBounded(s[p := it], bound, it);
    RoomShrinks(s, bound, p, it);
  }

  lemma CommonIsKey(s: seq<Iter>, low: nat, bases: set<Base>, p: nat, x: nat)
    requires AllStanding(s, low) && Bases(s) == bases && p < |s| && Common(bases, x)
    ensures IsKey(s[p], x)
  {
    hide AtKey, IsKey;
    forall u | u in s ensures 1 <= u.depth <= 3 { StandingDepth(s, low, u); }
    CommonKey(s, x);
  }

  lemma SearchSteps(s: seq<Iter>, p: nat, bases: set<Base>, low: nat, bound: nat, it: Iter, top: nat)
    requires Searching(s, p, bases, low, bound) && |s| > 1
    requires CurrentKey(s[Turn(p, |s| - 1, |s|)]) == Some(top) && CurrentKey(s[p]).Some? && Val(s[p]) < top
    requires BaseOf(it) == BaseOf(s[p]) && AtKey(it) && CurrentKey(it).Some? && Val(it) >= top
    requires forall y: nat | IsKey(s[p], y) && y >= top :: y >= Val(it)
    ensures Searching(s[p := it], Turn(p, 1, |s|), bases, low, bound)
    ensures Room(s[p := it], bound) < Room(s, bound)
  {
    RoomLess(s, bound, p, it);
    hide AtKey, IsKey, Ascends, Bounded, Room, Bases, BaseOf, Common, Standing;
    var t := s[p := it];
    StepStanding(s, low, p, it, t);
    StepAbove(s, p, bases, low, bound, it, top, t);
    AscendsNext(s, p, it);
    BasesUpdate(s, p, it);
    BoundedUpdate(s, bound, p, it);
    StepReaches(s, low, p, it, t);
  }

  lemma StepStanding(s: seq<Iter>, low: nat, p: nat, it: Iter, t: seq<Iter>)
    requires p < |s| && t == s[p := it] && AllStanding(s, low) && AtKey(it) && CurrentKey(it).Some?
    ensures AllStanding(t, low)
  {
    hide AtKey;
    forall i | 0 <= i < |t| ensures Standing(t[i], low) {
      assert Standing(s[i], low);
    }
  }

  lemma StepReaches(s: seq<Iter>, low: nat, p: nat, it: Iter, t: seq<Iter>)
    requires p < |s| && t == s[p := it] && Val(s[p]) <= Val(it) && exists i :: 0 <= i < |s| && Val(s[i]) >= low
    ensures exists i :: 0 <= i < |t| && Val(t[i]) >= low
  {
    var i :| 0 <= i < |s| && Val(s[i]) >= low;
    assert Val(t[i]) >= low;
  }

  lemma StepAbove(s: seq<Iter>, p: nat, bases: set<Base>, low: nat, bound: nat, it: Iter, top: nat, t: seq<Iter>)
    requires Searching(s, p, bases, low, bound) && p < |s| && t == s[p := it] && CurrentKey(s[Turn(p, |s| - 1, |s|)]) == Some(top)
    requires forall y: nat | IsKey(s[p], y) && y >= top :: y >= Val(it)
    ensures forall x: nat, i | Common(bases, x) && x >= low && 0 <= i < |t| :: x >= Val(t[i])
  {
    hide AtKey, IsKey, Ascends, Bounded;
    var q := Turn(p, |s| - 1, |s|);
    forall x: nat, i | Common(bases, x) && x >= low && 0 <= i < |t| ensures x >= Val(t[i]) {
      CommonIsKey(s, low, bases, p, x);
      assert x >= Val(s[q]) && x >= Val(s[i]);
    }
  }

  lemma BoundedUpdate(s: seq<Iter>, bound: nat, p: nat, it: Iter)
    requires p < |s| && Bounded(s, bound) && BaseOf(it) == BaseOf(s[p])
    ensures Bounded(s[p := it], bound) && it in s[p := it]
  {
    forall u, k, d | u in s[p := it] && k in u.rows && 1 <= d <= 3 ensures Column(k, d) <= bound {
      if u == it { assert s[p] in s && k in s[p].rows; }
    }
    assert s[p := it][p] == it;
  }

  /** leapfrog_search: the least key from `low` on that all iterators share, or nothing. */
  method Search(arr: array<Iter>, ghost low: nat, ghost bound: nat) returns (r: Option<nat>)
    requires arr.Length > 0 && Startable(arr[..], low) && Bounded(arr[..], bound)
    modifies arr
    ensures Bases(arr[..]) == old(Bases(arr[..])) && Bounded(arr[..], bound)
    ensures r.Some? ==> forall i | 0 <= i < arr.Length :: CurrentKey(arr[i]) == r && AtKey(arr[i])
    ensures r.Some? ==> Common(Bases(arr[..]), r.value) && r.value >= low
    ensures r.Some? ==> forall x: nat | Common(Bases(arr[..]), x) && x >= low :: x >= r.value
    ensures r.None? ==> forall x: nat | Common(Bases(arr[..]), x) :: x < low
  {
    hide Searching, Startable, Bounded, AtKey, SettledFrom, Standing, Common, Bases, IsKey;
    var n := arr.Length;
    ghost var start, bases := arr[..], Bases(arr[..]);
    if n == 1 {
      SortOne(start);
      SearchStarts(start, start, low, bound);
      OnlyOne(start, bases, low, bound);
      return CurrentKey(arr[0]);
    }
    SortIterators(arr);
    SearchStarts(start, arr[..], low, bound);
    BoundedBases(arr[..], 0, bases, low, bound);
    var p: nat := 0;
    while true
      invariant p < n && Searching(arr[..], p, bases, low, bound)
      decreases Room(arr[..], bound)
    {
      ghost var s := arr[..];
      BoundedBases(s, p, bases, low, bound);
      var q := Turn(p, n - 1, n);
      var maxKey, curKey := CurrentKey(arr[q]), CurrentKey(arr[p]);
      if maxKey.None? || curKey.None? {
        AtTheEnd(s, p, bases, low, bound, if maxKey.None? then q else p);
        return None;
      }
      if curKey.value == maxKey.value {
        AllEqual(s, p, bases, low, bound, curKey.value);
        return curKey;
      }
      BelowTop(s, p, bases, low, bound);
      var ok, it := Seek(arr[p], maxKey.value);
      arr[p] := it;
      assert arr[..] == s[p := it];
      if !ok {
        NothingAbove(s, p, bases, low, bound, it, maxKey.value);
        return None;
      }
      SearchSteps(s, p, bases, low, bound, it, maxKey.value);
      p := Turn(p, 1, n);
    }
  }

  lemma SortOne(s: seq<Iter>)
    requires |s| == 1
    ensures SettledFrom(s, 0)
  {
  }

  lemma BoundedBases(s: seq<Iter>, p: nat, bases: set<Base>, low: nat, bound: nat)
    requires Searching(s, p, bases, low, bound)
    ensures p < |s| && Bases(s) == bases && Bounded(s, bound)
    ensures forall i | 0 <= i < |s| :: Standing(s[i], low)
  {
  }

  lemma OnlyOne(s: seq<Iter>, bases: set<Base>, low: nat, bound: nat)
    requires Searching(s, 0, bases, low, bound) && |s| == 1
    ensures CurrentKey(s[0]).Some?
    ensures forall i | 0 <= i < |s| :: CurrentKey(s[i]) == CurrentKey(s[0]) && AtKey(s[i])
    ensures var k := CurrentKey(s[0]).value; Common(bases, k) && k >= low && forall x: nat | Common(bases, x) && x >= low :: x >= k
  {
    assert Standing(s[0], low);
    AllEqual(s, 0, bases, low, bound, Val(s[0]));
  }

  lemma AtTheEnd(s: seq<Iter>, p: nat, bases: set<Base>, low: nat, bound: nat, i: nat)
    requires Searching(s, p, bases, low, bound) && i < |s| && CurrentKey(s[i]).None?
    ensures forall x: nat | Common(bases, x) :: x < low
  {
    hide IsKey, AtKey;
    assert Standing(s[i], low);
    forall y: nat | IsKey(s[i], y) ensures y < low { EndHasNoMore(s[i], low, y); }
    NoneLeft(s, p, bases, low, bound, i, low);
  }

  lemma BelowTop(s: seq<Iter>, p: nat, bases: set<Base>, low: nat, bound: nat)
    requires Searching(s, p, bases, low, bound)
    requires CurrentKey(s[p]).Some? && CurrentKey(s[Turn(p, |s| - 1, |s|)]).Some?
    ensures Val(s[p]) <= CurrentKey(s[Turn(p, |s| - 1, |s|)]).value
    ensures 1 <= s[p].depth <= 3 && Sorted(s[p].rows)
  {
    assert Standing(s[p], low) && Standing(s[Turn(p, |s| - 1, |s|)], low);
    AscendsBounds(s, p, p);
    AscendsBounds(s, p, Turn(p, |s| - 1, |s|));
  }

  lemma NothingAbove(s: seq<Iter>, p: nat, bases: set<Base>, low: nat, bound: nat, it: Iter, top: nat)
    requires Searching(s, p, bases, low, bound) && CurrentKey(s[Turn(p, |s| - 1, |s|)]) == Some(top)
    requires BaseOf(it) == BaseOf(s[p]) && forall y: nat | IsKey(s[p], y) :: y < top
    ensures forall x: nat | Common(bases, x) :: x < low
    ensures Bases(s[p := it]) == bases && Bounded(s[p := it], bound)
  {
    BoundedBases(s, p, bases, low, bound);
    hide IsKey, AtKey, Bounded, Ascends;
    var q := Turn(p, |s| - 1, |s|);
    assert Standing(s[q], low) && Val(s[q]) >= top;
    NoneLeft(s, p, bases, low, bound, p, top);
    BasesUpdate(s, p, it);
    BoundedUpdate(s, bound, p, it);
  }

  // ---- enumerating the intersection ----

  /** How the deeper levels leave an iterator: back at its key, its index anywhere among or behind the key's rows. */
  ghost predicate Left(it: Iter, after: Iter) {
    AtKey(after) && after == it.(pos := after.pos)
  }

  /** Iterators that have just been opened. */
  ghost predicate Opened(it: Iter) {
    AtKey(it) && CurrentKey(it).Some? && forall y: nat | IsKey(it, y) :: y >= Val(it)
  }

  lemma {:induction false} Highest(s: seq<Iter>) returns (low: nat)
    requires s != [] && forall it | it in s :: Opened(it)
    ensures Startable(s, low)
    ensures forall x: nat | Common(Bases(s), x) :: x >= low
  {
    hide AtKey, IsKey, CurrentKey;
    var top := TopVal(s);
    low := Val(top);
    forall i | 0 <= i < |s| ensures Standing(s[i], low) { assert Opened(s[i]); }
    forall it | it in s ensures 1 <= it.depth <= 3 {
      assert Opened(it);
      ItsKey(it);
    }
    forall x: nat | Common(Bases(s), x) ensures x >= low {
      CommonKey(s, x);
      assert Opened(top) && IsKey(top, x);
    }
  }

  lemma {:induction false} TopVal(s: seq<Iter>) returns (top: Iter)
    requires s != []
    ensures top in s && forall it | it in s :: Val(it) <= Val(top)
  {
    top := s[0];
    if |s| > 1 {
      var rest := TopVal(s[1..]);
      if Val(rest) > Val(top) { top := rest; }
      assert s == [s[0]] + s[1..];
    }
  }

  /** Between two searches: all iterators stand at the match, which is reported. */
  ghost predicate Matched(s: seq<Iter>, bases: set<Base>, bound: nat, m: nat) {
    && s != [] && Bases(s) == bases && Bounded(s, bound) && Common(bases, m)
    && forall i | 0 <= i < |s| :: AtKey(s[i]) && Val(s[i]) == m
  }

  method GoDeeper(arr: array<Iter>, deeper: Iter -> Iter, ghost bases: set<Base>, ghost bound: nat, ghost m: nat)
    requires Matched(arr[..], bases, bound, m)
    requires forall it | AtKey(it) :: Left(it, deeper(it))
    modifies arr
    ensures Matched(arr[..], bases, bound, m)
  {
    hide Bounded, Bases, AtKey, Common, Val;
    for i := 0 to arr.Length
      invariant Matched(arr[..], bases, bound, m)
    {
      ghost var s := arr[..];
      assert AtKey(s[i]) && Val(s[i]) == m;
      var it := deeper(arr[i]);
      assert Left(arr[i], it);
      SameVal(s[i], it);
      BasesUpdate(s, i, it);
      BoundedUpdate(s, bound, i, it);
      arr[i] := it;
      assert arr[..] == s[i := it];
    }
  }

  lemma SameVal(it: Iter, after: Iter)
    requires Left(it, after)
    ensures Val(after) == Val(it) && BaseOf(after) == BaseOf(it)
  {
  }

  /** After the first iterator has moved on, a new search may start at its key. */
  lemma MovedOn(s: seq<Iter>, bases: set<Base>, bound: nat, m: nat, it: Iter)
    requires Matched(s, bases, bound, m) && BaseOf(it) == BaseOf(s[0]) && AtKey(it) && CurrentKey(it).Some? && Val(it) > m
    requires forall y: nat | IsKey(s[0], y) && y > m :: y >= Val(it)
    ensures Startable(s[0 := it], Val(it)) && Bases(s[0 := it]) == bases && Bounded(s[0 := it], bound)
    ensures forall x: nat | Common(bases, x) && x > m :: x >= Val(it)
  {
    hide Bounded, AtKey, IsKey, Val;
    BasesUpdate(s, 0, it);
    BoundedUpdate(s, bound, 0, it);
    var t := s[0 := it];
    forall i | 0 <= i < |t| ensures Standing(t[i], Val(it)) && Val(t[i]) <= Val(it) {
      if i > 0 { assert t[i] == s[i]; }
    }
    assert t[0] == it && it in t;
    forall u | u in s ensures 1 <= u.depth <= 3 { ItsKey(u); }
    forall x: nat | Common(bases, x) && x > m ensures x >= Val(it) {
      CommonKey(s, x);
      assert IsKey(s[0], x);
    }
  }

  lemma LastMatch(s: seq<Iter>, bases: set<Base>, bound: nat, m: nat)
    requires Matched(s, bases, bound, m) && forall y: nat | IsKey(s[0], y) :: y <= m
    ensures forall x: nat | Common(bases, x) :: x <= m
  {
    hide Bounded, AtKey, IsKey;
    forall u | u in s ensures 1 <= u.depth <= 3 { ItsKey(u); }
    forall x: nat | Common(bases, x) ensures x <= m {
      CommonKey(s, x);
      assert IsKey(s[0], x);
    }
  }

  predicate Ascending(s: seq<nat>) {
    forall i, j | 0 <= i < j < |s| :: s[i] < s[j]
  }

  lemma AppendAscending(s: seq<nat>, m: nat)
    requires Ascending(s) && forall x | x in s :: x < m
    ensures Ascending(s + [m])
  {
    forall i | 0 <= i < |s| ensures s[i] < m { assert s[i] in s; }
  }

  function StillAbove(r: Option<nat>, bound: nat): nat {
    if r.Some? && r.value <= bound then bound - r.value + 1 else 0
  }

  /** The matching loop of lftj_solve_rec: it meets exactly the common keys, ascending, each once. */
  method Intersect(arr: array<Iter>, deeper: Iter -> Iter) returns (out: seq<nat>)
    requires arr.Length > 0 && forall it | it in arr[..] :: Opened(it)
    requires forall it | AtKey(it) :: Left(it, deeper(it))
    modifies arr
    ensures Ascending(out) && forall x: nat :: x in out <==> Common(old(Bases(arr[..])), x)
  {
    hide Bounded, AtKey, Common, Bases, IsKey, Startable, Opened, Matched, Left;
    ghost var bases := Bases(arr[..]);
    ghost var bound := SomeBound(arr[..]);
    ghost var low := Highest(arr[..]);
    out := [];
    var r := Search(arr, low, bound);
    if r.Some? { AtMost(arr[..], bound, r.value); }
    while r.Some?
      invariant Bases(arr[..]) == bases && Bounded(arr[..], bound)
      invariant Ascending(out) && forall x | x in out :: Common(bases, x)
      invariant r.Some? ==> (forall i | 0 <= i < arr.Length :: CurrentKey(arr[i]) == r && AtKey(arr[i])) && Common(bases, r.value)
      invariant r.Some? ==> forall x | x in out :: x < r.value
      invariant forall x: nat | Common(bases, x) :: x in out || (r.Some? && x >= r.value)
      invariant r.Some? ==> r.value <= bound
      decreases StillAbove(r, bound)
    {
      ghost var m := r.value;
      MatchFound(arr[..], bases, bound, m);
      AppendAscending(out, m);
      out := out + [r.value];
      GoDeeper(arr, deeper, bases, bound, m);
      ghost var s := arr[..];
      MatchHolds(s, bases, bound, m);
      var ok, it := Next(arr[0]);
      if !ok {
        LastMatch(s, bases, bound, m);
        return;
      }
      MovedOn(s, bases, bound, m, it);
      arr[0] := it;
      assert arr[..] == s[0 := it];
      r := Search(arr, Val(it), bound);
      if r.Some? { AtMost(arr[..], bound, r.value); }
    }
  }

  lemma MatchFound(s: seq<Iter>, bases: set<Base>, bound: nat, m: nat)
    requires s != [] && Bases(s) == bases && Bounded(s, bound) && Common(bases, m)
    requires forall i | 0 <= i < |s| :: CurrentKey(s[i]) == Some(m) && AtKey(s[i])
    ensures Matched(s, bases, bound, m) && m <= bound
  {
    KeyBounded(s, bound, s[0]);
  }

  lemma MatchHolds(s: seq<Iter>, bases: set<Base>, bound: nat, m: nat)
    requires Matched(s, bases, bound, m)
    ensures s != [] && AtKey(s[0]) && Val(s[0]) == m && s[0].depth > 0 && Bases(s) == bases && Bounded(s, bound)
  {
  }

  lemma AtMost(s: seq<Iter>, bound: nat, m: nat)
    requires s != [] && Bounded(s, bound) && CurrentKey(s[0]) == Some(m) && AtKey(s[0])
    ensures m <= bound
  {
    KeyBounded(s, bound, s[0]);
  }
}
