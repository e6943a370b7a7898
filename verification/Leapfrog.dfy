/** The trie iterators and the leapfrog intersection (lib/lftj.c). An iterator walks an index's keys in order and
    shows one column at a time, under the values chosen for the columns before it. */
module Leapfrog {
  import opened Collections
  import opened Hexastores

  /** `pos` is the row the index iterator stands on, or the number of rows at the end. */
  datatype Iter = Iter(rows: seq<Key>, depth: nat, v1: nat, v2: nat, v3: nat, pos: nat)

  predicate Less(a: Key, b: Key) {
    a.first < b.first || (a.first == b.first && (a.second < b.second || (a.second == b.second && a.third < b.third)))
  }

  ghost predicate Sorted(rows: seq<Key>) {
    forall i, j | 0 <= i < j < |rows| :: Less(rows[i], rows[j])
  }

  function Column(k: Key, depth: nat): nat {
    if depth == 1 then k.first else if depth == 2 then k.second else k.third
  }

  function Val(it: Iter): nat {
    if it.depth == 1 then it.v1 else if it.depth == 2 then it.v2 else it.v3
  }

  function WithVal(it: Iter, x: nat): Iter {
    if it.depth == 1 then it.(v1 := x) else if it.depth == 2 then it.(v2 := x) else it.(v3 := x)
  }

  /** A row compared with the values of the first `depth` columns: -1 before them, 0 among them, 1 behind. */
  function Side(it: Iter, depth: nat, k: Key): int {
    if depth == 0 then 0
    else if k.first != it.v1 then if k.first < it.v1 then -1 else 1
    else if depth == 1 then 0
    else if k.second != it.v2 then if k.second < it.v2 then -1 else 1
    else if depth == 2 then 0
    else if k.third != it.v3 then if k.third < it.v3 then -1 else 1
    else 0
  }

  /** The column values at the iterator's level. */
  ghost predicate IsKey(it: Iter, x: nat) {
    exists i :: 0 <= i < |it.rows| && IsRowFor(it, x, i)
  }

  predicate IsRowFor(it: Iter, x: nat, i: nat)
    requires i < |it.rows|
  {
    it.depth > 0 && Side(it, it.depth - 1, it.rows[i]) == 0 && Column(it.rows[i], it.depth) == x
  }

  /** The index iterator stands among the rows of the first `depth` values or directly behind them. */
  ghost predicate Positioned(it: Iter, depth: nat) {
    && it.pos <= |it.rows|
    && (forall i | 0 <= i < it.pos :: Side(it, depth, it.rows[i]) <= 0)
    && forall i | it.pos <= i < |it.rows| :: Side(it, depth, it.rows[i]) >= 0
  }

  ghost predicate AtKey(it: Iter) {
    && 1 <= it.depth <= 3 && Sorted(it.rows) && IsKey(it, Val(it)) && Positioned(it, it.depth)
    && (it.depth == 3 ==> it.pos < |it.rows| && Side(it, 3, it.rows[it.pos]) == 0)
  }

  /** iterator_key */
  function CurrentKey(it: Iter): Option<nat> {
    if it.pos >= |it.rows| then None else if 1 <= it.depth <= 3 then Some(Val(it)) else None
  }

  /** What identifies an iterator while it moves at its level. */
  datatype Base = Base(rows: seq<Key>, depth: nat, v1: nat, v2: nat)

  function BaseOf(it: Iter): Base {
    Base(it.rows, it.depth, if it.depth > 1 then it.v1 else 0, if it.depth > 2 then it.v2 else 0)
  }

  lemma SameBaseSameKeys(a: Iter, b: Iter, x: nat)
    requires BaseOf(a) == BaseOf(b) && 1 <= a.depth <= 3
    ensures IsKey(a, x) <==> IsKey(b, x)
  {
    forall i | 0 <= i < |a.rows| ensures IsRowFor(a, x, i) == IsRowFor(b, x, i) {
    }
  }

  /** raxSeek with ">=": the first row not before the key. */
  method SeekRow(rows: seq<Key>, key: Key) returns (pos: nat)
    requires Sorted(rows)
    ensures pos <= |rows| && (forall i | 0 <= i < pos :: Less(rows[i], key)) && forall i | pos <= i < |rows| :: !Less(rows[i], key)
  {
    pos := 0;
    while pos < |rows| && Less(rows[pos], key)
      invariant pos <= |rows| && forall i | 0 <= i < pos :: Less(rows[i], key)
    {
      pos := pos + 1;
    }
  }

  /** The key that is sought at a level for column value `x`. */
  function QueryKey(it: Iter, x: nat): Key {
    if it.depth == 1 then Key(x, 0, 0) else if it.depth == 2 then Key(it.v1, x, 0) else Key(it.v1, it.v2, x)
  }

  /** iterator_seek: the least key not below `x`, or failure when there is none. */
  method Seek(it: Iter, x: nat) returns (ok: bool, after: Iter)
    requires 1 <= it.depth <= 3 && Sorted(it.rows)
    ensures BaseOf(after) == BaseOf(it)
    ensures ok ==> AtKey(after) && CurrentKey(after).Some? && Val(after) >= x && forall y: nat | IsKey(it, y) && y >= x :: y >= Val(after)
    ensures !ok ==> forall y: nat | IsKey(it, y) :: y < x
    ensures Positioned(it, it.depth - 1) ==> Positioned(after, it.depth - 1)
  {
    var pos := SeekRow(it.rows, QueryKey(it, x));
    after := it.(pos := pos);
    SoughtRow(it, x, pos);
    if pos >= |it.rows| { return false, after; }
    var row := it.rows[pos];
    if Side(it, it.depth - 1, row) != 0 { return false, after; }
    after := WithVal(after, Column(row, it.depth));
    ok := true;
    SeekLands(it, x, pos, after);
  }

  /** Rows before the sought position belong to smaller keys; rows from it on to keys not below `x`. */
  lemma SoughtRow(it: Iter, x: nat, pos: nat)
    requires 1 <= it.depth <= 3 && Sorted(it.rows) && pos <= |it.rows|
    requires forall i | 0 <= i < pos :: Less(it.rows[i], QueryKey(it, x))
    requires forall i | pos <= i < |it.rows| :: !Less(it.rows[i], QueryKey(it, x))
    ensures forall i: nat | i < pos :: Side(it, it.depth - 1, it.rows[i]) <= 0 && (Side(it, it.depth - 1, it.rows[i]) == 0 ==> Column(it.rows[i], it.depth) < x)
    ensures forall i: nat | pos <= i < |it.rows| :: Side(it, it.depth - 1, it.rows[i]) >= 0 && (Side(it, it.depth - 1, it.rows[i]) == 0 ==> Column(it.rows[i], it.depth) >= x)
    ensures pos == |it.rows| || Side(it, it.depth - 1, it.rows[pos]) != 0 ==> forall y: nat | IsKey(it, y) :: y < x
  {
    if pos == |it.rows| || Side(it, it.depth - 1, it.rows[pos]) != 0 {
      forall y: nat | IsKey(it, y) ensures y < x {
        var i: nat :| i < |it.rows| && IsRowFor(it, y, i);
        if i >= pos { assert i > pos ==> Less(it.rows[pos], it.rows[i]); }
      }
    }
  }

  lemma SeekLands(it: Iter, x: nat, pos: nat, after: Iter)
    requires 1 <= it.depth <= 3 && Sorted(it.rows) && pos < |it.rows| && Side(it, it.depth - 1, it.rows[pos]) == 0
    requires forall i: nat | i < pos :: Side(it, it.depth - 1, it.rows[i]) <= 0 && (Side(it, it.depth - 1, it.rows[i]) == 0 ==> Column(it.rows[i], it.depth) < x)
    requires forall i: nat | pos <= i < |it.rows| :: Side(it, it.depth - 1, it.rows[i]) >= 0 && (Side(it, it.depth - 1, it.rows[i]) == 0 ==> Column(it.rows[i], it.depth) >= x)
    requires after == WithVal(it.(pos := pos), Column(it.rows[pos], it.depth))
    ensures AtKey(after) && BaseOf(after) == BaseOf(it) && Val(after) >= x && forall y: nat | IsKey(it, y) && y >= x :: y >= Val(after)
  {
    assert IsRowFor(after, Val(after), pos);
    forall i | pos <= i < |it.rows| ensures Side(after, it.depth, it.rows[i]) >= 0 {
      assert i > pos ==> Less(it.rows[pos], it.rows[i]);
    }
    forall y: nat | IsKey(it, y) && y >= x ensures y >= Val(after) {
      var i: nat :| i < |it.rows| && IsRowFor(it, y, i);
      assert i > pos ==> Less(it.rows[pos], it.rows[i]);
    }
  }

  /** The row iterator_next stops at. */
  method Skip(it: Iter) returns (pos: nat)
    requires AtKey(it)
    ensures it.pos <= pos <= |it.rows| && 1 <= it.depth <= 3 && Sorted(it.rows)
    ensures forall i: nat | i < pos :: Side(it, it.depth, it.rows[i]) <= 0
    ensures pos < |it.rows| ==> Side(it, it.depth, it.rows[pos]) != 0
  {
    pos := it.pos;
    if it.depth == 3 {
      pos := pos + 1;
      OneRow(it);
    } else {
      while pos < |it.rows| && Side(it, it.depth, it.rows[pos]) == 0
        invariant it.pos <= pos <= |it.rows| && forall i | 0 <= i < pos :: Side(it, it.depth, it.rows[i]) <= 0
      {
        pos := pos + 1;
      }
    }
  }

  /** iterator_next: the least key above the current one, or failure when there is none. */
  method Next(it: Iter) returns (ok: bool, after: Iter)
    requires AtKey(it) && it.depth > 0
    ensures BaseOf(after) == BaseOf(it)
    ensures ok ==> AtKey(after) && CurrentKey(after).Some? && Val(after) > Val(it)
                   && forall y: nat | IsKey(it, y) && y > Val(it) :: y >= Val(after)
    ensures !ok ==> forall y: nat | IsKey(it, y) :: y <= Val(it)
    ensures Positioned(after, it.depth - 1)
  {
    hide AtKey;
    var pos := Skip(it);
    after := it.(pos := pos);
    RowsBehind(it, pos);
    if pos >= |it.rows| || Side(it, it.depth - 1, it.rows[pos]) != 0 { return false, after; }
    after := WithVal(after, Column(it.rows[pos], it.depth));
    ok := true;
    SeekLands(it, Val(it) + 1, pos, after);
  }

  lemma OneRow(it: Iter)
    requires AtKey(it) && it.depth == 3
    ensures forall i: nat | it.pos < i < |it.rows| :: Side(it, 3, it.rows[i]) > 0
  {
    forall i: nat | it.pos < i < |it.rows| ensures Side(it, 3, it.rows[i]) > 0 {
      assert Less(it.rows[it.pos], it.rows[i]);
    }
  }

  /** Behind the last row of the current key. */
  lemma RowsBehind(it: Iter, pos: nat)
    requires AtKey(it) && it.pos <= pos <= |it.rows|
    requires forall i: nat | i < pos :: Side(it, it.depth, it.rows[i]) <= 0
    requires pos < |it.rows| ==> Side(it, it.depth, it.rows[pos]) != 0
    ensures forall i: nat | i < pos :: Side(it, it.depth - 1, it.rows[i]) <= 0 && (Side(it, it.depth - 1, it.rows[i]) == 0 ==> Column(it.rows[i], it.depth) < Val(it) + 1)
    ensures forall i: nat | pos <= i < |it.rows| :: Side(it, it.depth - 1, it.rows[i]) >= 0 && (Side(it, it.depth - 1, it.rows[i]) == 0 ==> Column(it.rows[i], it.depth) >= Val(it) + 1)
    ensures pos == |it.rows| || Side(it, it.depth - 1, it.rows[pos]) != 0 ==> forall y: nat | IsKey(it, y) :: y <= Val(it)
  {
    forall i: nat | pos <= i < |it.rows|
      ensures Side(it, it.depth, it.rows[i]) > 0
    {
      if i > pos { assert Less(it.rows[pos], it.rows[i]); }
    }
    if pos == |it.rows| || Side(it, it.depth - 1, it.rows[pos]) != 0 {
      forall y: nat | IsKey(it, y) ensures y <= Val(it) {
        var i: nat :| i < |it.rows| && IsRowFor(it, y, i);
        assert i > pos ==> Less(it.rows[pos], it.rows[i]);
      }
    }
  }

  /** iterator_open: the least key of the next level; only an empty index has none. */
  method Open(it: Iter) returns (ok: bool, after: Iter)
    requires it.depth < 3 && Sorted(it.rows) && (it.depth > 0 ==> AtKey(it))
    ensures ok == (it.rows != [])
    ensures ok ==> after.depth == it.depth + 1 && after.rows == it.rows && AtKey(after) && CurrentKey(after).Some?
                   && forall y: nat | IsKey(after, y) :: y >= Val(after)
    ensures ok && it.depth >= 1 ==> after.v1 == it.v1
    ensures ok && it.depth >= 2 ==> after.v2 == it.v2
  {
    var query := if it.depth == 0 then Key(0, 0, 0) else if it.depth == 1 then Key(it.v1, 0, 0) else Key(it.v1, it.v2, 0);
    var pos := SeekRow(it.rows, query);
    after := it.(pos := pos, depth := it.depth + 1);
    OpenedRow(it, after, query, pos);
    if pos >= |it.rows| || Side(it, it.depth, it.rows[pos]) != 0 { return false, after; }
    after := WithVal(after, Column(it.rows[pos], it.depth + 1));
    ok := true;
    SeekLands(it.(depth := it.depth + 1), 0, pos, after);
  }

  lemma OpenedRow(it: Iter, after: Iter, query: Key, pos: nat)
    requires it.depth < 3 && Sorted(it.rows) && (it.depth > 0 ==> AtKey(it))
    requires after == it.(pos := pos, depth := it.depth + 1) && pos <= |it.rows|
    requires query == if it.depth == 0 then Key(0, 0, 0) else if it.depth == 1 then Key(it.v1, 0, 0) else Key(it.v1, it.v2, 0)
    requires (forall i | 0 <= i < pos :: Less(it.rows[i], query)) && forall i | pos <= i < |it.rows| :: !Less(it.rows[i], query)
    ensures it.rows != [] ==> pos < |it.rows| && Side(it, it.depth, it.rows[pos]) == 0
    ensures forall i: nat | i < pos :: Side(it, it.depth, it.rows[i]) < 0
    ensures forall i: nat | pos <= i < |it.rows| :: Side(it, it.depth, it.rows[i]) >= 0
  {
    if it.depth == 0 {
      assert it.rows != [] ==> !Less(it.rows[0], query);
    } else {
      var i: nat :| i < |it.rows| && IsRowFor(it, Val(it), i);
      assert i >= pos;
      if i > pos { assert Less(it.rows[pos], it.rows[i]); }
    }
  }

  /** iterator_up: whatever happened below, the iterator is at its key of the level above again. */
  lemma UpIsAtKey(it: Iter, below: Iter, d: nat)
    requires 1 <= d <= 2 && it.depth == d && AtKey(it) && below.rows == it.rows && Positioned(below, d)
    requires below.v1 == it.v1 && (d == 2 ==> below.v2 == it.v2)
    ensures AtKey(below.(depth := d)) && Val(below.(depth := d)) == Val(it) && BaseOf(below.(depth := d)) == BaseOf(it)
  {
    var up := below.(depth := d);
    var i: nat :| i < |it.rows| && IsRowFor(it, Val(it), i);
    assert IsRowFor(up, Val(up), i);
    forall i | 0 <= i < |it.rows| ensures Side(up, d, it.rows[i]) == Side(below, d, it.rows[i]) {
    }
  }
}
