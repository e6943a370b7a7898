/** The open-addressing table with linear probing and backward-shift deletion (lib/set.c). */
module HashSet {
  import opened Collections

  datatype Slot<K, V> = Free | Used(key: K, hash: nat, value: V)

  function Home(h: nat, n: nat): (b: nat)
    requires n > 0
    ensures b < n
  {
    h % n
  }

  function Next(i: nat, n: nat): (j: nat)
    requires i < n
    ensures j == if i + 1 == n then 0 else i + 1
  {
    (i + 1) % n
  }

  /** `k` lies on the way from `a` forward to `b` around the table, ends included. */
  predicate Between(a: nat, k: nat, b: nat) {
    if a <= b then a <= k <= b else k >= a || k <= b
  }

  function Distance(i: nat, e: nat, n: nat): int {
    if i <= e then e - i else e + n - i
  }

  ghost predicate NeedsOnly<K, V>(s: seq<Slot<K, V>>, p: nat, hole: int)
    requires p < |s|
  {
    s[p].Used? ==> forall k: nat | k < |s| && Between(Home(s[p].hash, |s|), k, p) :: s[k].Used? || k == hole
  }

  /** Between the home bucket of an item and the item there is no free slot, except perhaps `hole`. */
  ghost predicate NoGapBut<K, V>(s: seq<Slot<K, V>>, hole: int) {
    forall p: nat | p < |s| :: NeedsOnly(s, p, hole)
  }

  ghost predicate NoGap<K, V>(s: seq<Slot<K, V>>) {
    NoGapBut(s, -1)
  }

  ghost predicate Distinct<K, V>(s: seq<Slot<K, V>>) {
    forall i, j | 0 <= i < j < |s| && s[i].Used? && s[j].Used? :: s[i].key != s[j].key
  }

  ghost predicate Hashed<K(!new), V>(s: seq<Slot<K, V>>, hash: K -> nat) {
    forall i | 0 <= i < |s| && s[i].Used? :: s[i].hash == hash(s[i].key)
  }

  ghost predicate Agrees<K, V>(s: seq<Slot<K, V>>, m: map<K, V>) {
    && (forall i | 0 <= i < |s| && s[i].Used? :: s[i].key in m && m[s[i].key] == s[i].value)
    && forall key | key in m :: Holds(s, key)
  }

  ghost predicate Holds<K, V>(s: seq<Slot<K, V>>, key: K) {
    exists i :: 0 <= i < |s| && s[i].Used? && s[i].key == key
  }

  function UsedAt<K, V>(s: seq<Slot<K, V>>): set<nat> {
    set i: nat | i < |s| && s[i].Used?
  }

  predicate IsDisplaced<K, V>(s: seq<Slot<K, V>>, i: nat)
    requires i < |s|
  {
    s[i].Used? && i != Home(s[i].hash, |s|)
  }

  /** The items that `collisions` counts. */
  function Displaced<K, V>(s: seq<Slot<K, V>>): set<nat> {
    set i: nat | i < |s| && IsDisplaced(s, i)
  }

  /** A table that probing can use: `m` is what it stores. */
  ghost predicate Table<K(!new), V>(s: seq<Slot<K, V>>, hash: K -> nat, m: map<K, V>) {
    Hashed(s, hash) && Distinct(s) && Agrees(s, m) && NoGap(s)
  }

  function Range(n: nat): (r: set<nat>)
    ensures |r| == n && forall i: nat :: i in r <==> i < n
  {
    if n == 0 then {} else Range(n - 1) + {n - 1}
  }

  /** With fewer items than slots some slot is free, so probing ends. */
  lemma SomeFree<K, V>(s: seq<Slot<K, V>>) returns (e: nat)
    requires |UsedAt(s)| < |s|
    ensures e < |s| && s[e].Free?
  {
    assert UsedAt(s) <= Range(|s|) && UsedAt(s) != Range(|s|);
    assert exists i :: i in Range(|s|) && i !in UsedAt(s);
    e :| e in Range(|s|) && e !in UsedAt(s);
  }

  /** The slots probed so far, from the home bucket up to but not including `i`. */
  ghost predicate Probed<K, V>(s: seq<Slot<K, V>>, key: K, home: nat, i: nat) {
    forall k: nat | k < |s| && Between(home, k, i) && k != i :: s[k].Used? && s[k].key != key
  }

  /** A probe that reaches a free slot has shown the key to be absent. */
  lemma ProbeMisses<K(!new), V>(s: seq<Slot<K, V>>, hash: K -> nat, m: map<K, V>, key: K, i: nat)
    requires i < |s| && Table(s, hash, m) && Probed(s, key, Home(hash(key), |s|), i) && s[i].Free?
    ensures key !in m
  {
    var home := Home(hash(key), |s|);
    forall p: nat | p < |s| && s[p].Used? ensures s[p].key != key {
      assert NeedsOnly(s, p, -1);
      assert !Between(Home(s[p].hash, |s|), i, p);
      assert Between(home, i, p) || (Between(home, p, i) && p != i);
    }
    assert !Holds(s, key);
  }

  lemma InsertFree<K(!new), V>(s: seq<Slot<K, V>>, hash: K -> nat, m: map<K, V>, key: K, i: nat, value: V)
    requires i < |s| && Table(s, hash, m) && Probed(s, key, Home(hash(key), |s|), i) && s[i].Free? && key !in m
    ensures Table(s[i := Used(key, hash(key), value)], hash, m[key := value])
  {
    var t := s[i := Used(key, hash(key), value)];
    forall p: nat | p < |t| ensures NeedsOnly(t, p, -1) {
      assert NeedsOnly(s, p, -1);
    }
    forall k | k in m[key := value] ensures Holds(t, k) {
      if k == key {
        assert t[i].key == key;
      } else {
        assert Holds(s, k);
        var p :| 0 <= p < |s| && s[p].Used? && s[p].key == k;
        assert t[p].key == k;
      }
    }
  }

  /** Filling a free slot counts one item more, and one displaced item more unless it is the home bucket. */
  lemma FillCounts<K, V>(s: seq<Slot<K, V>>, i: nat, x: Slot<K, V>)
    requires i < |s| && s[i].Free? && x.Used?
    ensures |UsedAt(s[i := x])| == |UsedAt(s)| + 1
    ensures |Displaced(s[i := x])| == |Displaced(s)| + if i != Home(x.hash, |s|) then 1 else 0
  {
    hide Home, IsDisplaced;
    UsedMore(s, i, x);
    var t := s[i := x];
    forall p: nat | p < |s| ensures IsDisplaced(t, p) == if p == i then i != Home(x.hash, |s|) else IsDisplaced(s, p) {
      SameSlot(s, t, p, i);
    }
    SameSlot(s, t, i, i);
    assert i !in Displaced(s);
    if i != Home(x.hash, |s|) {
      assert Displaced(t) == Displaced(s) + {i};
    } else {
      assert Displaced(t) == Displaced(s);
    }
  }

  lemma UsedMore<K, V>(s: seq<Slot<K, V>>, i: nat, x: Slot<K, V>)
    requires i < |s| && s[i].Free? && x.Used?
    ensures |UsedAt(s[i := x])| == |UsedAt(s)| + 1
  {
    assert UsedAt(s[i := x]) == UsedAt(s) + {i};
  }

  lemma SameSlot<K, V>(s: seq<Slot<K, V>>, t: seq<Slot<K, V>>, p: nat, i: nat)
    requires i < |s| == |t| && s[i].Free? && t == s[i := t[i]] && p < |t| && t[i].Used?
    ensures IsDisplaced(t, p) == if p == i then i != Home(t[i].hash, |s|) else IsDisplaced(s, p)
    ensures !IsDisplaced(s, i)
  {
    hide Home;
  }

  /** A slot at which the search for the key stops. */
  lemma SomeStop<K(!new), V>(s: seq<Slot<K, V>>, m: map<K, V>, key: K) returns (e: nat)
    requires Agrees(s, m) && (key in m || |UsedAt(s)| < |s|)
    ensures e < |s| && (s[e].Free? || s[e].key == key)
  {
    if key in m {
      assert Holds(s, key);
      e :| e < |s| && s[e].Used? && s[e].key == key;
    } else {
      e := SomeFree(s);
    }
  }

  lemma NewKey<K, V>(m: map<K, V>, key: K, value: V)
    requires key !in m
    ensures |m[key := value]| == |m| + 1
  {
    assert m[key := value].Keys == m.Keys + {key};
  }

  // ---- removal ----

  /** The loop of set_remove: the hole at `i`, the slots after it scanned up to `j`, and a free slot `e` ahead. */
  ghost predicate Scanning<K, V>(s: seq<Slot<K, V>>, i: nat, j: nat, e: nat) {
    && i < |s| && j < |s| && e < |s| && s[i].Free? && s[e].Free? && !Between(i, e, j)
    && NoGapBut(s, i)
    && forall p: nat | p < |s| && Between(i, p, j) && p != i :: s[p].Used? && !Between(Home(s[p].hash, |s|), i, p)
  }

  lemma StartScan<K, V>(s: seq<Slot<K, V>>, i: nat, e: nat)
    requires i < |s| && e < |s| && i != e && s[i].Used? && s[e].Free? && NoGap(s)
    ensures Scanning(s[i := Free], i, i, e)
  {
    var t := s[i := Free];
    forall p: nat | p < |t| ensures NeedsOnly(t, p, i) {
      assert NeedsOnly(s, p, -1);
    }
  }

  lemma ScanRange<K, V>(s: seq<Slot<K, V>>, i: nat, j: nat, e: nat)
    requires Scanning(s, i, j, e)
    ensures i < |s| && j < |s| && e < |s| && s[i].Free? && Distance(j, e, |s|) >= 0
  {
  }

  /** The same for a table of one or two slots that was full: the hole is the only free slot. */
  ghost predicate Tight<K, V>(s: seq<Slot<K, V>>, i: nat, j: nat) {
    && |s| <= 2 && i < |s| && j < |s| && s[i].Free? && (forall p: nat | p < |s| && p != i :: s[p].Used?)
    && (j != i ==> Home(s[j].hash, |s|) == j)
  }

  ghost predicate Gap<K, V>(s: seq<Slot<K, V>>, i: nat, j: nat, e: nat) {
    e < |s| && (Tight(s, i, j) || Scanning(s, i, j, e))
  }

  /** How far the scan still has to go. */
  ghost function Steps<K, V>(s: seq<Slot<K, V>>, i: nat, j: nat, e: nat): int
    requires i < |s| && j < |s| && e < |s|
  {
    if !Tight(s, i, j) then Distance(j, e, |s|)
    else if j != i || |s| == 1 then 0
    else if Home(s[1 - i].hash, 2) == 1 - i then 1 else 2
  }

  lemma StartGap<K, V>(s: seq<Slot<K, V>>, i: nat, e: nat)
    requires i < |s| && e < |s| && s[i].Used? && NoGap(s)
    requires if |UsedAt(s)| == |s| then e == i && |s| <= 2 else s[e].Free?
    ensures Gap(s[i := Free], i, i, e)
  {
    if |UsedAt(s)| == |s| {
      AllUsed(s);
    } else {
      StartScan(s, i, e);
    }
  }

  lemma AllUsed<K, V>(s: seq<Slot<K, V>>)
    requires |UsedAt(s)| == |s|
    ensures forall p: nat | p < |s| :: s[p].Used?
  {
    if p: nat :| p < |s| && s[p].Free? {
      assert UsedAt(s) <= Range(|s|) - {p};
      SubsetSize(UsedAt(s), Range(|s|) - {p});
    }
  }

  lemma GapRange<K, V>(s: seq<Slot<K, V>>, i: nat, j: nat, e: nat)
    requires Gap(s, i, j, e)
    ensures i < |s| && j < |s| && e < |s| && s[i].Free? && Steps(s, i, j, e) >= 0
    ensures s[Next(j, |s|)].Used? ==> Next(j, |s|) != i
  {
  }

  lemma GapEnds<K, V>(s: seq<Slot<K, V>>, i: nat, j: nat, e: nat)
    requires Gap(s, i, j, e) && j < |s| && s[Next(j, |s|)].Free?
    ensures NoGap(s) && exists f: nat :: f < |s| && s[f].Free?
  {
    if !Tight(s, i, j) { ScanEnds(s, i, j, e, Next(j, |s|)); }
    assert s[Next(j, |s|)].Free?;
  }

  lemma GapMoves<K, V>(s: seq<Slot<K, V>>, i: nat, j: nat, e: nat, next: nat)
    requires Gap(s, i, j, e) && j < |s| && next == Next(j, |s|) && s[next].Used? && Between(Home(s[next].hash, |s|), i, next)
    requires i < |s| && e < |s|
    ensures Gap(s[i := s[next]][next := Free], next, next, e)
    ensures Steps(s[i := s[next]][next := Free], next, next, e) < Steps(s, i, j, e)
  {
    if Tight(s, i, j) {
    } else {
      ScanMoves(s, i, j, e, next);
      assert s[i := s[next]][next := Free][e].Free?;
    }
  }

  lemma GapKeeps<K, V>(s: seq<Slot<K, V>>, i: nat, j: nat, e: nat, next: nat)
    requires Gap(s, i, j, e) && j < |s| && next == Next(j, |s|) && s[next].Used? && !Between(Home(s[next].hash, |s|), i, next)
    requires i < |s| && e < |s|
    ensures Gap(s, i, next, e) && Steps(s, i, next, e) < Steps(s, i, j, e)
  {
    if !Tight(s, i, j) {
      ScanKeeps(s, i, j, e, next);
    }
  }

  /** can_move in set_remove: the item's way from its home bucket leads through the hole. */
  lemma CanMoveMeaning(i: nat, j: nat, bucket: nat)
    requires i != j
    ensures (if i < j then bucket <= i || bucket > j else bucket <= i && bucket > j) <==> Between(bucket, i, j)
  {
  }

  lemma ScanMoves<K, V>(s: seq<Slot<K, V>>, i: nat, j: nat, e: nat, next: nat)
    requires Scanning(s, i, j, e) && next == Next(j, |s|) && s[next].Used?
    requires Between(Home(s[next].hash, |s|), i, next)
    ensures Scanning(s[i := s[next]][next := Free], next, next, e)
    ensures Distance(next, e, |s|) < Distance(j, e, |s|)
  {
    var t := s[i := s[next]][next := Free];
    forall p: nat | p < |t| ensures NeedsOnly(t, p, next) {
      if p == i {
        assert NeedsOnly(s, next, i);
      } else {
        assert NeedsOnly(s, p, i);
      }
    }
  }

  lemma ScanKeeps<K, V>(s: seq<Slot<K, V>>, i: nat, j: nat, e: nat, next: nat)
    requires Scanning(s, i, j, e) && next == Next(j, |s|) && s[next].Used?
    requires !Between(Home(s[next].hash, |s|), i, next)
    ensures Scanning(s, i, next, e)
    ensures Distance(next, e, |s|) < Distance(j, e, |s|)
  {
  }

  /** At a free slot no later item needs the hole any more. */
  lemma ScanEnds<K, V>(s: seq<Slot<K, V>>, i: nat, j: nat, e: nat, next: nat)
    requires Scanning(s, i, j, e) && next == Next(j, |s|) && s[next].Free?
    ensures NoGap(s)
  {
    assert next != i;
    forall p: nat | p < |s| ensures NeedsOnly(s, p, -1) {
      assert NeedsOnly(s, p, i);
      if s[p].Used? && Between(Home(s[p].hash, |s|), i, p) {
        assert !Between(i, p, j);
        assert Between(Home(s[p].hash, |s|), next, p);
      }
    }
  }

  lemma ClearSlot<K(!new), V>(s: seq<Slot<K, V>>, hash: K -> nat, m: map<K, V>, i: nat)
    requires i < |s| && s[i].Used? && Hashed(s, hash) && Distinct(s) && Agrees(s, m)
    ensures Hashed(s[i := Free], hash) && Distinct(s[i := Free]) && Agrees(s[i := Free], m - {s[i].key})
    ensures |m - {s[i].key}| == |m| - 1
  {
    var t := s[i := Free];
    forall key | key in m - {s[i].key} ensures Holds(t, key) {
      assert Holds(s, key);
      var p :| 0 <= p < |s| && s[p].Used? && s[p].key == key;
      assert t[p].key == key;
    }
    forall p | 0 <= p < |t| && t[p].Used? ensures t[p].key in m - {s[i].key} {
      assert t[p] == s[p] && p != i;
    }
    assert (m - {s[i].key}).Keys == m.Keys - {s[i].key};
  }

  lemma ClearCounts<K, V>(s: seq<Slot<K, V>>, i: nat)
    requires i < |s| && s[i].Used?
    ensures |UsedAt(s[i := Free])| == |UsedAt(s)| - 1
    ensures |Displaced(s[i := Free])| == |Displaced(s)| - if i != Home(s[i].hash, |s|) then 1 else 0
  {
    hide Home, UsedAt, Displaced;
    assert s[i := Free][i := s[i]] == s;
    FillCounts(s[i := Free], i, s[i]);
  }

  lemma MoveSlot<K(!new), V>(s: seq<Slot<K, V>>, hash: K -> nat, m: map<K, V>, i: nat, j: nat)
    requires i < |s| && j < |s| && i != j && s[i].Free? && s[j].Used? && Hashed(s, hash) && Distinct(s) && Agrees(s, m)
    ensures Hashed(s[i := s[j]][j := Free], hash) && Distinct(s[i := s[j]][j := Free]) && Agrees(s[i := s[j]][j := Free], m)
  {
    var t := s[i := s[j]][j := Free];
    assert t[i] == s[j] && t[j].Free? && forall p: nat | p < |s| && p != i && p != j :: t[p] == s[p];
    forall key | key in m ensures Holds(t, key) {
      assert Holds(s, key);
      var p :| 0 <= p < |s| && s[p].Used? && s[p].key == key;
      assert t[if p == j then i else p].key == key;
    }
  }

  lemma MoveCounts<K, V>(s: seq<Slot<K, V>>, i: nat, j: nat)
    requires i < |s| && j < |s| && i != j && s[i].Free? && s[j].Used?
    ensures |UsedAt(s[i := s[j]][j := Free])| == |UsedAt(s)|
    ensures |Displaced(s[i := s[j]][j := Free])| ==
            |Displaced(s)| - (if j != Home(s[j].hash, |s|) then 1 else 0) + if i != Home(s[j].hash, |s|) then 1 else 0
  {
    hide Home, UsedAt, Displaced;
    var none := s[j := Free];
    assert none[j := s[j]] == s && none[i := s[j]] == s[i := s[j]][j := Free];
    FillCounts(none, j, s[j]);
    FillCounts(none, i, s[j]);
  }

  // ---- the table ----

  class Set<K(==, !new), V> {
    var items: array<Slot<K, V>>
    var count: nat
    var collisions: int
    const hash: K -> nat
    /** What a new item starts with (usage 0, no numbers). */
    const blank: V
    ghost var contents: map<K, V>

    /** Only a table of one or two slots can be full. */
    ghost predicate Valid()
      reads this, items
    {
      && items.Length >= 1 && Table(items[..], hash, contents)
      && count == |UsedAt(items[..])| == |contents| && count <= items.Length && (count == items.Length ==> count <= 2)
      && collisions == |Displaced(items[..])|
    }

    /** Some slot is free, and stays so: see Add, Remove and Resize. */
    ghost predicate Roomy()
      reads this
    {
      items.Length >= 2 && count < items.Length
    }

    /** set_init_checked */
    constructor (max: nat, hash: K -> nat, blank: V)
      requires max >= 1
      ensures Valid() && fresh(items) && contents == map[] && items.Length == max
      ensures this.hash == hash && this.blank == blank
      ensures max >= 2 ==> Roomy()
    {
      items := new Slot<K, V>[max](_ => Free);
      count, collisions := 0, 0;
      this.hash, this.blank, contents := hash, blank, map[];
      new;
      EmptyTable(items[..], hash);
    }

    /** set_get_h: the slot of the key, or the free slot that ends its probe sequence. When there is neither, the search
        goes round for ever (see ProbeEndsIff). */
    method Probe(key: K) returns (i: nat)
      requires Valid() && (key in contents || count < items.Length)
      ensures i < items.Length && Probed(items[..], key, Home(hash(key), items.Length), i)
      ensures items[i].Used? <==> key in contents
      ensures items[i].Used? ==> items[i].key == key && items[i].value == contents[key]
    {
      ghost var s := items[..];
      ghost var e := SomeStop(s, contents, key);
      i := Home(hash(key), items.Length);
      while items[i].Used? && !(items[i].hash == hash(key) && items[i].key == key)
        invariant i < items.Length && Probed(s, key, Home(hash(key), items.Length), i)
        invariant s == items[..]
        decreases Distance(i, e, items.Length)
      {
        ProbeStep(s, key, Home(hash(key), items.Length), i, e);
        i := Next(i, items.Length);
      }
      if items[i].Free? { ProbeMisses(s, hash, contents, key, i); }
    }

    /** A caller's write to the payload of an item. */
    method SetValue(i: nat, value: V)
      requires Valid() && i < items.Length && items[i].Used?
      modifies items, `contents
      ensures Valid() && items[..] == old(items[..])[i := old(items[i]).(value := value)]
      ensures contents == old(contents)[old(items[i]).key := value]
    {
      NewValue(items[..], hash, contents, i, value);
      contents := contents[items[i].key := value];
      items[i] := items[i].(value := value);
    }

    /** set_add_h: the item of the key, new if there was none. The table grows first when it is half full. */
    method Add(key: K) returns (i: nat)
      requires Valid()
      modifies this, items
      ensures Valid() && (items == old(items) || fresh(items))
      ensures contents == if key in old(contents) then old(contents) else old(contents)[key := blank]
      ensures i < items.Length && items[i].Used? && items[i].key == key
      ensures items.Length == if old(count) * 2 >= old(items.Length) then 2 * old(items.Length) else old(items.Length)
      ensures old(Roomy()) ==> Roomy()
      decreases if count * 2 >= items.Length then 2 else 0
    {
      hide Table, UsedAt, Displaced, Probed;
      if count * 2 >= items.Length {
        var ok := Resize(items.Length * 2);
      }
      i := Probe(key);
      if items[i].Used? { return; }
      FillSlot(key, i);
    }

    method FillSlot(key: K, i: nat)
      requires Valid() && i < items.Length && items[i].Free? && key !in contents
      requires count < items.Length && (count + 1 == items.Length ==> items.Length <= 2)
      requires Probed(items[..], key, Home(hash(key), items.Length), i)
      modifies `count, `collisions, `contents, items
      ensures Valid() && contents == old(contents)[key := blank]
      ensures items[..] == old(items[..])[i := Used(key, hash(key), blank)] && count == old(count) + 1
    {
      hide Table, UsedAt, Displaced, Probed;
      InsertFree(items[..], hash, contents, key, i, blank);
      FillCounts(items[..], i, Used(key, hash(key), blank));
      NewKey(contents, key, blank);
      ghost var s := items[..];
      if i != Home(hash(key), items.Length) { collisions := collisions + 1; }
      items[i] := Used(key, hash(key), blank);
      assert items[..] == s[i := Used(key, hash(key), blank)];
      contents := contents[key := blank];
      count := count + 1;
    }

    /** set_remove: `i` is the item's place; nothing is stored outside the table or in a free slot. */
    method Remove(i: int) returns (removed: bool)
      requires Valid()
      modifies `count, `collisions, `contents, items
      ensures Valid() && removed == (0 <= i < items.Length && old(items[..])[i].Used?)
      ensures contents == if removed then old(contents) - {old(items[..])[i].key} else old(contents)
      ensures old(Roomy()) ==> Roomy()
    {
      if i < 0 || i >= items.Length || items[i].Free? { return false; }
      ghost var s := items[..];
      hide UsedAt, Displaced, Agrees, Distinct, Hashed, Scanning, Gap, Tight, Steps, Home, NoGap;
      ghost var e: nat := i;
      if count < items.Length { e := SomeFree(s); }
      ClearSlot(s, hash, contents, i);
      ClearCounts(s, i);
      StartGap(s, i, e);
      if i != Home(items[i].hash, items.Length) { collisions := collisions - 1; }
      contents := contents - {items[i].key};
      items[i] := Free;
      assert items[..] == s[i := Free];
      count := count - 1;
      CloseGap(i, e);
      removed := true;
    }

    /** The loop of set_remove: items whose way leads through the hole move into it, one after the other. */
    method CloseGap(start: nat, ghost e: nat)
      requires items.Length >= 1 && Gap(items[..], start, start, e)
      requires Hashed(items[..], hash) && Distinct(items[..]) && Agrees(items[..], contents)
      requires count == |UsedAt(items[..])| == |contents| && count < items.Length
      requires collisions == |Displaced(items[..])|
      modifies `collisions, items
      ensures Valid()
    {
      hide UsedAt, Displaced, Agrees, Distinct, Hashed, Scanning, Gap, Tight, Steps, Home, NoGap;
      var i: nat, j: nat := start, start;
      GapRange(items[..], i, j, e);
      while true
        invariant i < items.Length && j < items.Length && e < items.Length && Gap(items[..], i, j, e)
        invariant Hashed(items[..], hash) && Distinct(items[..]) && Agrees(items[..], contents)
        invariant count == |UsedAt(items[..])| && collisions == |Displaced(items[..])|
        decreases Steps(items[..], i, j, e)
      {
        ghost var s := items[..];
        GapRange(s, i, j, e);
        var next := Next(j, items.Length);
        if items[next].Free? {
          GapEnds(s, i, j, e);
          return;
        }
        var bucket := Home(items[next].hash, items.Length);
        CanMoveMeaning(i, next, bucket);
        var canMove := if i < next then bucket <= i || bucket > next else bucket <= i && bucket > next;
        if canMove {
          MoveSlot(s, hash, contents, i, next);
          MoveCounts(s, i, next);
          GapMoves(s, i, j, e, next);
          var was, now := next != bucket, i != bucket;
          // The second case never arises: an item in its home bucket has no way to lead through the hole.
          collisions := if was && !now then collisions - 1 else if !was && now then collisions + 1 else collisions;
          items[i] := items[next];
          items[next] := Free;
          assert items[..] == s[i := s[next]][next := Free];
          i := next;
        } else {
          GapKeeps(s, i, j, e, next);
        }
        j := next;
      }
    }

    /** set_resize_checked: every item moves to a table of `max` slots, which may grow again on the way. */
    method Resize(max: nat) returns (ok: bool)
      requires Valid()
      modifies this, items
      ensures Valid() && (items == old(items) || fresh(items)) && contents == old(contents)
      ensures ok <==> max == old(items.Length) || (max > 0 && max >= old(count))
      ensures max >= 2 * old(count) && max > 0 ==> items.Length == max
      ensures !ok ==> items == old(items) && items[..] == old(items[..])
      ensures max >= 2 && (old(Roomy()) || (ok && max != old(items.Length))) ==> Roomy()
      decreases if max >= 2 * count then 1 else 3
    {
      hide Table, UsedAt, Displaced, Agrees, Distinct;
      if max == 0 { return false; }
      if max == items.Length { return true; }
      if max < count { return false; }
      var from := items;
      ghost var s, m, total := items[..], contents, count;
      items := new Slot<K, V>[max](_ => Free);
      count, collisions, contents := 0, 0, map[];
      EmptyTable(items[..], hash);
      StartMove(s, hash, m);
      assert s[..0] == [];
      for i := 0 to from.Length
        invariant Valid() && fresh(items) && items != from && from[..] == s
        invariant Agrees(s[..i], contents)
        invariant max >= 2 * total ==> items.Length == max
        invariant max >= 2 ==> Roomy()
      {
        MoveOne(s, m, contents, i);
        if from[i].Used? {
          ghost var moved := contents;
          var at := Add(from[i].key);
          SetValue(at, from[i].value);
          assert contents == moved[s[i].key := s[i].value];
        }
      }
      assert s[..|s|] == s;
      AgreesUnique(s, m, contents);
      ok := true;
    }
  }

  /** Moving slot `i` extends what the new table stores; its key is new there and room is left. */
  lemma MoveOne<K(!new), V>(s: seq<Slot<K, V>>, m: map<K, V>, moved: map<K, V>, i: nat)
    requires i < |s| && Agrees(s, m) && Distinct(s) && Agrees(s[..i], moved)
    ensures s[i].Free? ==> Agrees(s[..i + 1], moved)
    ensures s[i].Used? ==> s[i].key !in moved && |moved| < |m| && Agrees(s[..i + 1], moved[s[i].key := s[i].value])
  {
    forall key | key in moved ensures key in m && (s[i].Used? ==> key != s[i].key) {
      assert Holds(s[..i], key);
    }
    if s[i].Used? {
      MoreToMove(m, moved, s[i].key);
      AgreesMore(s, moved, i, moved[s[i].key := s[i].value]);
    } else {
      AgreesMore(s, moved, i, moved);
    }
  }

  lemma AgreesMore<K(!new), V>(s: seq<Slot<K, V>>, moved: map<K, V>, i: nat, after: map<K, V>)
    requires i < |s| && Agrees(s[..i], moved)
    requires if s[i].Used? then s[i].key !in moved && after == moved[s[i].key := s[i].value] else after == moved
    ensures Agrees(s[..i + 1], after)
  {
    var t := s[..i + 1];
    assert t == s[..i] + [s[i]];
    forall key | key in after ensures Holds(t, key) {
      if key in moved {
        assert Holds(s[..i], key);
        var p :| 0 <= p < i && s[..i][p].Used? && s[..i][p].key == key;
        assert t[p] == s[..i][p];
      } else {
        assert t[i].key == key;
      }
    }
  }

  lemma MoreToMove<K, V>(m: map<K, V>, moved: map<K, V>, key: K)
    requires key in m && key !in moved && forall k | k in moved :: k in m
    ensures |moved| < |m|
  {
    assert moved.Keys <= m.Keys - {key};
    SubsetSize(moved.Keys, m.Keys - {key});
  }

  lemma StartMove<K(!new), V>(s: seq<Slot<K, V>>, hash: K -> nat, m: map<K, V>)
    requires Table(s, hash, m)
    ensures Agrees(s, m) && Distinct(s) && Agrees<K, V>([], map[])
  {
  }

  lemma AgreesUnique<K(!new), V>(s: seq<Slot<K, V>>, a: map<K, V>, b: map<K, V>)
    requires Agrees(s, a) && Agrees(s, b)
    ensures a == b
  {
    forall key ensures (key in a <==> key in b) && (key in a ==> a[key] == b[key]) {
      if Holds(s, key) {
        var p :| 0 <= p < |s| && s[p].Used? && s[p].key == key;
      }
    }
  }

  lemma NewValue<K(!new), V>(s: seq<Slot<K, V>>, hash: K -> nat, m: map<K, V>, i: nat, value: V)
    requires i < |s| && s[i].Used? && Table(s, hash, m)
    ensures Table(s[i := s[i].(value := value)], hash, m[s[i].key := value])
    ensures UsedAt(s[i := s[i].(value := value)]) == UsedAt(s) && Displaced(s[i := s[i].(value := value)]) == Displaced(s)
    ensures |m[s[i].key := value]| == |m|
  {
    var t := s[i := s[i].(value := value)];
    forall p: nat | p < |t| ensures NeedsOnly(t, p, -1) {
      assert NeedsOnly(s, p, -1);
    }
    forall k | k in m ensures Holds(t, k) {
      assert Holds(s, k);
      var p :| 0 <= p < |s| && s[p].Used? && s[p].key == k;
      assert t[p].key == k;
    }
    forall p: nat | p < |s| ensures IsDisplaced(t, p) == IsDisplaced(s, p) {
    }
    assert m[s[i].key := value].Keys == m.Keys;
  }

  lemma EmptyTable<K(!new), V>(s: seq<Slot<K, V>>, hash: K -> nat)
    requires forall i | 0 <= i < |s| :: s[i].Free?
    ensures Table(s, hash, map[]) && UsedAt(s) == {} && Displaced(s) == {}
  {
  }

  lemma ProbeStep<K, V>(s: seq<Slot<K, V>>, key: K, home: nat, i: nat, e: nat)
    requires home < |s| && i < |s| && e < |s| && (s[e].Free? || s[e].key == key) && Probed(s, key, home, i) && s[i].Used? && s[i].key != key
    ensures Probed(s, key, home, Next(i, |s|)) && Distance(Next(i, |s|), e, |s|) < Distance(i, e, |s|)
    ensures Distance(Next(i, |s|), e, |s|) >= 0
  {
    assert !(Between(home, e, i) && e != i);
  }

  // ---- when probing ends ----

  function Ahead(home: nat, steps: nat, n: nat): (i: nat)
    requires n > 0
    ensures i < n
  {
    (home + steps) % n
  }

  ghost predicate StopsAfter<K, V>(s: seq<Slot<K, V>>, key: K, home: nat, steps: nat)
    requires home < |s|
  {
    var i := Ahead(home, steps, |s|);
    s[i].Free? || s[i].key == key
  }

  lemma AheadTo(home: nat, e: nat, n: nat) returns (steps: nat)
    requires home < n && e < n
    ensures Ahead(home, steps, n) == e
  {
    steps := Distance(home, e, n);
    if home > e { assert home + steps == e + n; }
  }

  /** Probing for a key ends exactly when the key is stored or a slot is free. */
  lemma ProbeEndsIff<K(!new), V>(s: seq<Slot<K, V>>, hash: K -> nat, m: map<K, V>, key: K, home: nat)
    requires Table(s, hash, m) && home < |s|
    ensures (exists steps: nat :: StopsAfter(s, key, home, steps)) <==> key in m || exists e: nat :: e < |s| && s[e].Free?
  {
    hide Ahead, NoGap, Hashed, Distinct, Home;
    if steps: nat :| StopsAfter(s, key, home, steps) {
      var i := Ahead(home, steps, |s|);
      assert s[i].Free? || s[i].key == key;
    }
    if e: nat :| e < |s| && (s[e].Free? || s[e].key == key) {
      var steps := AheadTo(home, e, |s|);
      assert StopsAfter(s, key, home, steps);
    } else {
      assert !Holds(s, key);
    }
  }

  /** set_init_checked: only a capacity of 0 is refused. */
  method NewSet<K(==, !new), V>(max: nat, hash: K -> nat, blank: V) returns (r: Option<Set<K, V>>)
    ensures r.Some? <==> max > 0
    ensures r.Some? ==> fresh(r.value) && r.value.Valid() && r.value.contents == map[] && r.value.items.Length == max
  {
    if max == 0 { return None; }
    var t := new Set(max, hash, blank);
    r := Some(t);
  }

  /** set_init_checked, then one insertion: a table of one slot is full, and the search for any other key never ends. */
  method FillOneSlot<K(==, !new), V>(key: K, hash: K -> nat, blank: V) returns (t: Set<K, V>)
    ensures fresh(t) && t.Valid() && t.items.Length == 1 && t.hash == hash && t.contents == map[key := blank]
    ensures forall other, steps: nat | other != key :: !StopsAfter(t.items[..], other, Home(hash(other), 1), steps)
  {
    hide Table, UsedAt, Displaced;
    t := new Set(1, hash, blank);
    var i := t.Add(key);
    assert t.contents == map[key := blank];
    OneSlotIsFull(t.items[..], hash, key, blank);
  }

  lemma OneSlotIsFull<K(!new), V>(s: seq<Slot<K, V>>, hash: K -> nat, key: K, value: V)
    requires |s| == 1 && Table(s, hash, map[key := value])
    ensures forall other, steps: nat | other != key :: !StopsAfter(s, other, Home(hash(other), 1), steps)
  {
    hide NoGap, Hashed, Distinct;
    assert key in map[key := value] && Holds(s, key);
    forall other | other != key ensures forall steps: nat :: !StopsAfter(s, other, Home(hash(other), 1), steps) {
      ProbeEndsIff(s, hash, map[key := value], other, Home(hash(other), 1));
    }
  }

  // ---- the cursor ----

  lemma UsedStep<K, V>(s: seq<Slot<K, V>>, i: nat)
    requires i < |s|
    ensures |UsedAt(s[..i + 1])| == |UsedAt(s[..i])| + if s[i].Used? then 1 else 0
  {
    assert UsedAt(s[..i + 1]) == UsedAt(s[..i]) + if s[i].Used? then {i} else {};
  }

  lemma ScanStep<K(!new), V>(s: seq<Slot<K, V>>, hash: K -> nat, m: map<K, V>, i: nat)
    requires i < |s| && Table(s, hash, m)
    ensures |UsedAt(s[..i + 1])| == |UsedAt(s[..i])| + if s[i].Used? then 1 else 0
    ensures forall key :: Holds(s[..i + 1], key) <==> Holds(s[..i], key) || (s[i].Used? && s[i].key == key)
    ensures s[i].Used? ==> !Holds(s[..i], s[i].key)
  {
    hide UsedAt, Hashed, Agrees, NoGap;
    UsedStep(s, i);
    assert s[..i + 1] == s[..i] + [s[i]];
    forall key ensures Holds(s[..i + 1], key) <==> Holds(s[..i], key) || (s[i].Used? && s[i].key == key) {
      if Holds(s[..i], key) {
        var p :| 0 <= p < i && s[..i][p].Used? && s[..i][p].key == key;
        assert s[..i + 1][p].key == key;
      }
      if s[i].Used? && s[i].key == key { assert s[..i + 1][i].key == key; }
    }
  }

  lemma ScanDone<K(!new), V>(s: seq<Slot<K, V>>, hash: K -> nat, m: map<K, V>, i: nat)
    requires i <= |s| && Table(s, hash, m) && (i == |s| || |UsedAt(s[..i])| >= |UsedAt(s)|)
    ensures |UsedAt(s[..i])| == |UsedAt(s)| && forall key :: Holds(s[..i], key) <==> key in m
  {
    assert UsedAt(s[..i]) <= UsedAt(s) by {
      forall p | p in UsedAt(s[..i]) ensures p in UsedAt(s) {
        assert s[..i][p] == s[p];
      }
    }
    if i == |s| {
      assert s[..i] == s;
    } else {
      SameSize(UsedAt(s[..i]), UsedAt(s));
    }
    forall key ensures Holds(s[..i], key) <==> key in m {
      if key in m {
        assert Holds(s, key);
        var p: nat :| p < |s| && s[p].Used? && s[p].key == key;
        assert p in UsedAt(s[..i]);
        assert s[..i][p].key == key;
      }
    }
  }

  lemma SameSize<T>(a: set<T>, b: set<T>)
    requires a <= b && |a| >= |b|
    ensures a == b
  {
    assert b == a + (b - a);
  }

  /** set_cursor_init and set_cursor_next, run until it answers that there is nothing more. */
  method Scan<K(==, !new), V>(set_: Set<K, V>) returns (keys: seq<K>)
    requires set_.Valid()
    ensures |keys| == set_.count && NoDup(keys)
    ensures forall key :: key in keys <==> key in set_.contents
  {
    ghost var s := set_.items[..];
    keys := [];
    var i := 0;
    assert s[..0] == [];
    while |keys| < set_.count && i < set_.items.Length
      invariant i <= set_.items.Length && |keys| == |UsedAt(s[..i])|
      invariant forall a, b | 0 <= a < b < |keys| :: keys[a] != keys[b]
      invariant forall key :: key in keys <==> Holds(s[..i], key)
    {
      ScanStep(s, set_.hash, set_.contents, i);
      if set_.items[i].Used? { keys := keys + [set_.items[i].key]; }
      i := i + 1;
    }
    ScanDone(s, set_.hash, set_.contents, i);
  }
}
