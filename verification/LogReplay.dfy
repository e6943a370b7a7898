/** Writing the operation log and reading it back into a store (lib/io.c). */
module LogReplay {
  import opened Collections
  import opened Symbols
  import opened Hexastores
  import opened Journal
  import opened LogText
  import opened Stores

  // ---- writing ----

  /** write_fact: three strings and an empty line. */
  function FactText(t: Triple): string {
    Written(t.s) + (Written(t.p) + (Written(t.o) + "\n"))
  }

  function OperationText(add: bool): string {
    if add then "add\n" else "remove\n"
  }

  /** write_fact_log */
  function LineText(line: LogLine): string {
    OperationText(line.add) + FactText(line.fact)
  }

  /** The lines from `i` on. */
  function TextFrom(log: seq<LogLine>, i: nat): string
    requires i <= |log|
    decreases |log| - i
  {
    if i == |log| then [] else LineText(log[i]) + TextFrom(log, i + 1)
  }

  method WriteFact(t: Triple) returns (out: string)
    ensures out == FactText(t)
  {
    out := WriteString(t.s);
    var p := WriteString(t.p);
    var o := WriteString(t.o);
    var end := WriteString("");
    assert end == "\n";
    out := out + (p + (o + end));
  }

  method WriteLine(line: LogLine) returns (out: string)
    ensures out == LineText(line)
  {
    out := (if line.add then "add" else "remove") + "\n";
    assert out == OperationText(line.add);
    var fact := WriteFact(line.fact);
    out := out + fact;
  }

  method WriteLog(log: seq<LogLine>) returns (out: string)
    ensures out == TextFrom(log, 0)
  {
    hide LineText;
    out := "";
    for i := 0 to |log|
      invariant out + TextFrom(log, i) == TextFrom(log, 0)
    {
      var line := WriteLine(log[i]);
      assert out + (line + TextFrom(log, i + 1)) == (out + line) + TextFrom(log, i + 1);
      out := out + line;
    }
    assert out + [] == out;
  }

  // ---- reading ----

  datatype FactRead = FactRead(fact: Triple, next: nat)

  /** read_fact: three nonempty strings and a line end. */
  function FactAt(input: string, at: nat, size: nat): Option<FactRead>
    requires size > 0
  {
    var s := StringAt(input, at, size);
    if s.None? || s.value.s == [] then None
    else
      var p := StringAt(input, s.value.next, size);
      if p.None? || p.value.s == [] then None
      else
        var o := StringAt(input, p.value.next, size);
        if o.None? || o.value.s == [] || o.value.next >= |input| || input[o.value.next] != '\n' then None
        else Some(FactRead(Triple(s.value.s, p.value.s, o.value.s), o.value.next + 1))
  }

  /** Where a call of fgets with room for `room` characters stops: behind a line end, or when the room is used up. */
  function LineEnd(input: string, at: nat, room: nat): (end: nat)
    requires at <= |input|
    ensures at <= end <= |input| && (room > 0 && at < |input| ==> at < end)
    decreases room
  {
    if room == 0 || at == |input| then at
    else if input[at] == '\n' then at + 1
    else LineEnd(input, at + 1, room - 1)
  }

  function Lower(c: char): char {
    if 'A' <= c <= 'Z' then (c as int - 'A' as int + 'a' as int) as char else c
  }

  predicate SameIgnoringCase(a: string, b: string) {
    |a| == |b| && forall i | 0 <= i < |a| :: Lower(a[i]) == Lower(b[i])
  }

  datatype Operation = Operation(add: bool, next: nat)

  function OperationAt(input: string, at: nat): Option<Operation>
    requires at <= |input|
  {
    var end := LineEnd(input, at, 31);
    var line := input[at..end];
    if SameIgnoringCase(line, "add\n") then Some(Operation(true, end))
    else if SameIgnoringCase(line, "remove\n") then Some(Operation(false, end))
    else None
  }

  /** read_facts_log on a set of asserted triples: None when the text is malformed or removes what is not there. */
  function Replay(input: string, at: nat, size: nat, have: set<Triple>): Option<set<Triple>>
    requires at <= |input| && size > 0
    decreases |input| - at
  {
    if at == |input| then Some(have)
    else
      var op := OperationAt(input, at);
      if op.None? then None
      else
        var f := FactAt(input, op.value.next, size);
        if f.None? || f.value.next > |input| || f.value.next <= at then None
        else if op.value.add then Replay(input, f.value.next, size, have + {f.value.fact})
        else if f.value.fact !in have then None
        else Replay(input, f.value.next, size, have - {f.value.fact})
  }

  lemma {:induction false} QuotedNext(input: string, at: nat, size: nat)
    requires size > 0
    ensures QuotedFrom(input, at, size).Some? ==> at < QuotedFrom(input, at, size).value.next <= |input|
    decreases size
  {
    if at < |input| && input[at] != '"' && size > 1 {
      QuotedNext(input, (if input[at] == '\\' then at + 1 else at) + 1, size - 1);
    }
  }

  lemma {:induction false} PlainNext(input: string, at: nat, size: nat)
    requires size > 0
    ensures PlainFrom(input, at, size).Some? ==> at < PlainFrom(input, at, size).value.next <= |input|
    decreases size
  {
    if at < |input| && input[at] != '\n' && size > 1 { PlainNext(input, at + 1, size - 1); }
  }

  /** Reading a fact moves forward and stays inside the input. */
  lemma FactNext(input: string, at: nat, size: nat)
    requires size > 0
    ensures FactAt(input, at, size).Some? ==> at < FactAt(input, at, size).value.next <= |input|
  {
    forall a: nat ensures StringAt(input, a, size).Some? ==> a < StringAt(input, a, size).value.next <= |input| {
      QuotedNext(input, a + 1, size);
      PlainNext(input, a, size);
    }
  }

  method ReadFact(input: string, start: nat, size: nat) returns (r: Option<FactRead>)
    requires size > 0
    ensures r == FactAt(input, start, size)
  {
    var s := ReadString(input, start, size);
    if s.None? || s.value.s == [] { return None; }
    var p := ReadString(input, s.value.next, size);
    if p.None? || p.value.s == [] { return None; }
    var o := ReadString(input, p.value.next, size);
    if o.None? || o.value.s == [] || o.value.next >= |input| || input[o.value.next] != '\n' { return None; }
    r := Some(FactRead(Triple(s.value.s, p.value.s, o.value.s), o.value.next + 1));
  }

  /** The fgets call, and the comparison of the line. */
  method ReadOperation(input: string, start: nat) returns (r: Option<Operation>)
    requires start <= |input|
    ensures r == OperationAt(input, start)
  {
    var at, room := start, 31;
    while at < |input| && room > 0
      invariant start <= at <= |input| && 0 <= room <= 31 && LineEnd(input, at, room) == LineEnd(input, start, 31)
      decreases room
    {
      at, room := at + 1, room - 1;
      if input[at - 1] == '\n' { break; }
    }
    var line := input[start..at];
    if SameIgnoringCase(line, "add\n") { return Some(Operation(true, at)); }
    if SameIgnoringCase(line, "remove\n") { return Some(Operation(false, at)); }
    r := None;
  }

  /** read_facts_log: the asserted facts become what the text says, or reading stops with an error. */
  method ReadLog(store: Store, input: string, size: nat) returns (ok: bool)
    requires store.Valid() && size > 0
    modifies store, store.symbols, store.hexastore
    ensures store.Valid() && ok == Replay(input, 0, size, old(AssertedTexts(store.facts))).Some?
    ensures ok ==> AssertedTexts(store.facts) == Replay(input, 0, size, old(AssertedTexts(store.facts))).value
    ensures store.outside == old(store.outside)
  {
    hide Stores.Store.Valid, OperationAt, FactAt, AssertedTexts;
    var at: nat := 0;
    while at < |input|
      invariant at <= |input| && store.Valid() && store.outside == old(store.outside)
      invariant Replay(input, at, size, AssertedTexts(store.facts)) == Replay(input, 0, size, old(AssertedTexts(store.facts)))
      decreases |input| - at
    {
      var op := ReadOperation(input, at);
      if op.None? { return false; }
      OperationNext(input, at);
      var f := ReadFact(input, op.value.next, size);
      if f.None? { return false; }
      FactNext(input, op.value.next, size);
      var done := ReplayLine(store, op.value.add, f.value.fact);
      if !done { return false; }
      at := f.value.next;
    }
    ok := true;
  }

  lemma OperationNext(input: string, at: nat)
    requires at <= |input|
    ensures OperationAt(input, at).Some? ==> at <= OperationAt(input, at).value.next <= |input|
  {
  }

  /** One line of the log applied to the store. */
  method ReplayLine(store: Store, add: bool, t: Triple) returns (ok: bool)
    requires store.Valid()
    modifies store, store.symbols, store.hexastore
    ensures store.Valid() && ok == (add || t in old(AssertedTexts(store.facts)))
    ensures ok ==> AssertedTexts(store.facts) ==
                   if add then old(AssertedTexts(store.facts)) + {t} else old(AssertedTexts(store.facts)) - {t}
    ensures store.outside == old(store.outside)
  {
    hide Consistent, Logged, Undoes, Live, Refs, AssertedTexts, Indexes;
    ghost var before, outside := store.facts, store.outside;
    var held, f, left := store.Hold(t.s, t.p, t.o, 3);
    HeldRefs(outside, Refs(f));
    ghost var live := store.symbols.entries;
    Liveness(store.facts, store.undo, live, store.symbols.nextId, store.outside);
    AssertedIn(live, before, f);
    if add {
      ok := store.AddFact(f, Asserted, 6);
    } else {
      var removed := store.RemoveFact(f, Asserted, true);
      ok := removed != 0;
    }
    AssertedChange(live, before, store.facts, f);
    store.Release(f);
  }

  lemma AssertedIn(entries: map<string, Interned>, facts: Facts, f: Fact)
    requires AllLive(entries, facts) && FactLive(entries, f)
    ensures Texts(f) in AssertedTexts(facts) <==> IsAsserted(facts, f)
  {
    if Texts(f) in AssertedTexts(facts) {
      var g :| g in facts && facts[g].asserted && Texts(g) == Texts(f);
      SameTexts(entries, f, g);
    }
  }

  // ---- reading back what was written ----

  predicate Readable(t: Triple, size: nat) {
    0 < |t.s| < size && 0 < |t.p| < size && 0 < |t.o| < size
  }

  predicate CleanTriple(t: Triple) {
    Clean(t.s) && Clean(t.p) && Clean(t.o)
  }

  lemma FactBack(input: string, at: nat, t: Triple, size: nat)
    requires size > 0 && CleanTriple(t) && Stands(input, at, FactText(t))
    ensures FactAt(input, at, size) == if Readable(t, size) then Some(FactRead(t, at + |FactText(t)|)) else None
  {
    hide Stands, Written, StringAt;
    StandsParts(input, at, Written(t.s), Written(t.p) + (Written(t.o) + "\n"));
    StandsParts(input, at + |Written(t.s)|, Written(t.p), Written(t.o) + "\n");
    StandsParts(input, at + |Written(t.s)| + |Written(t.p)|, Written(t.o), "\n");
    StringBack(input, at, t.s, size);
    StringBack(input, at + |Written(t.s)|, t.p, size);
    StringBack(input, at + |Written(t.s)| + |Written(t.p)|, t.o, size);
    StandsChar(input, at + |Written(t.s)| + |Written(t.p)| + |Written(t.o)|, "\n", 0);
  }

  lemma {:induction false} LineEndAt(input: string, at: nat, room: nat, n: nat)
    requires 0 < n <= room && at + n <= |input| && input[at + n - 1] == '\n' && '\n' !in input[at..at + n - 1]
    ensures LineEnd(input, at, room) == at + n
    decreases n
  {
    if n > 1 {
      assert input[at..at + n - 1] == [input[at]] + input[at + 1..at + n - 1];
      LineEndAt(input, at + 1, room - 1, n - 1);
    }
  }

  lemma OperationBack(input: string, at: nat, add: bool)
    requires at <= |input| && Stands(input, at, OperationText(add))
    ensures OperationAt(input, at) == Some(Operation(add, at + |OperationText(add)|))
  {
    var text := OperationText(add);
    forall k: nat | k < |text| ensures input[at + k] == text[k] {
      StandsChar(input, at, text, k);
    }
    assert input[at..at + |text|] == text;
    assert input[at..at + |text| - 1] == text[..|text| - 1];
    LineEndAt(input, at, 31, |text|);
  }

  predicate Accepts(log: seq<LogLine>, i: nat, size: nat) {
    forall j: nat | i <= j < |log| :: Readable(log[j].fact, size) && (log[j].add || log[j].fact in Replayed(log[..j]))
  }

  lemma ReplayedStep(log: seq<LogLine>, i: nat)
    requires i < |log|
    ensures Replayed(log[..i + 1]) ==
            if log[i].add then Replayed(log[..i]) + {log[i].fact} else Replayed(log[..i]) - {log[i].fact}
  {
    assert log[..i + 1][..i] == log[..i] && log[..i + 1][i] == log[i];
  }

  lemma {:induction false} ReplayBack(input: string, at: nat, log: seq<LogLine>, i: nat, size: nat)
    requires size > 0 && i <= |log| && forall j | 0 <= j < |log| :: CleanTriple(log[j].fact)
    requires at + |TextFrom(log, i)| == |input| && Stands(input, at, TextFrom(log, i))
    ensures Replay(input, at, size, Replayed(log[..i])) == if Accepts(log, i, size) then Some(Replayed(log)) else None
    decreases |log| - i
  {
    hide Stands, FactAt, OperationAt, Written;
    if i == |log| {
      assert log[..i] == log;
    } else {
      var line := log[i];
      var op, fact, rest := OperationText(line.add), FactText(line.fact), TextFrom(log, i + 1);
      StandsParts(input, at, LineText(line), rest);
      StandsParts(input, at, op, fact);
      OperationBack(input, at, line.add);
      FactBack(input, at + |op|, line.fact, size);
      ReplayedStep(log, i);
      hide Replayed;
      ReplayBack(input, at + |op| + |fact|, log, i + 1, size);
      assert Accepts(log, i, size) <==> Readable(line.fact, size) && (line.add || line.fact in Replayed(log[..i])) && Accepts(log, i + 1, size);
    }
  }

  lemma {:induction false} ReplayableAll(log: seq<LogLine>)
    ensures Replayable(log) <==> forall j: nat | j < |log| :: log[j].add || log[j].fact in Replayed(log[..j])
  {
    if log != [] {
      var front := log[..|log| - 1];
      ReplayableAll(front);
      assert forall j: nat | j < |front| :: front[j] == log[j] && front[..j] == log[..j];
    }
  }

  /** Reading a written log succeeds exactly when every string is nonempty and fits the buffer and no line
      removes what is not there; it then gives what the lines say. */
  lemma LogBack(log: seq<LogLine>, size: nat)
    requires size > 0 && forall j | 0 <= j < |log| :: CleanTriple(log[j].fact)
    ensures Replay(TextFrom(log, 0), 0, size, {}) ==
            if Replayable(log) && forall j | 0 <= j < |log| :: Readable(log[j].fact, size) then Some(Replayed(log)) else None
  {
    var input := TextFrom(log, 0);
    assert input[0..0 + |input|] == input;
    assert log[..0] == [];
    ReplayBack(input, 0, log, 0, size);
    ReplayableAll(log);
  }

  /** The log of a store that started empty, written out and read into a new store, gives the same asserted
      facts, whatever additions, removals, commits and rollbacks happened in between. */
  method Rebuild(store: Store, size: nat) returns (copy: Store, ok: bool)
    requires store.Valid() && size > 0
    requires forall j | 0 <= j < |store.log| :: CleanTriple(store.log[j].fact)
    ensures copy.Valid() && ok == forall j | 0 <= j < |store.log| :: Readable(store.log[j].fact, size)
    ensures ok ==> AssertedTexts(copy.facts) == AssertedTexts(store.facts)
    ensures copy.outside == multiset{}
  {
    var text := WriteLog(store.log);
    copy := new Store();
    NothingAsserted();
    ok := ReadLog(copy, text, size);
    LogBack(store.log, size);
  }

  lemma NothingAsserted()
    ensures AssertedTexts(map[]) == {}
  {
  }

  // ---- the text of a line ----

  /** A line about plain texts: the operation, the three texts, and an empty line. */
  lemma PlainLine(t: Triple)
    requires Plain(t.s) && Plain(t.p) && Plain(t.o)
    ensures LineText(LogLine(true, t)) == "add\n" + t.s + "\n" + t.p + "\n" + t.o + "\n\n"
    ensures LineText(LogLine(false, t)) == "remove\n" + t.s + "\n" + t.p + "\n" + t.o + "\n\n"
  {
    PlainForm(t.s);
    PlainForm(t.p);
    PlainForm(t.o);
    hide Written;
    assert FactText(t) == t.s + "\n" + t.p + "\n" + t.o + "\n\n";
    assert LineText(LogLine(true, t)) == "add\n" + FactText(t);
    assert LineText(LogLine(false, t)) == "remove\n" + FactText(t);
  }

  /** The word, in capital or small letters. */
  predicate Spells(word: string, small: string, capital: string)
    requires |small| == |capital|
  {
    |word| == |small| && forall k | 0 <= k < |word| :: word[k] == small[k] || word[k] == capital[k]
  }

  /** An operation is one of two words on a line of its own, in capital or small letters. */
  lemma OperationIsSpelled(input: string, word: string)
    requires Stands(input, 0, word + "\n") && |word| < 31 && '\n' !in word
    ensures OperationAt(input, 0) ==
            if Spells(word, "add", "ADD") then Some(Operation(true, 4))
            else if Spells(word, "remove", "REMOVE") then Some(Operation(false, 7))
            else None
  {
    var n := |word|;
    forall k: nat | k <= n ensures input[k] == (word + "\n")[k] { StandsChar(input, 0, word + "\n", k); }
    assert input[0..n] == word;
    LineEndAt(input, 0, 31, n + 1);
    assert input[0..n + 1] == word + "\n";
    SameIsSpelled(word, "add", "ADD");
    SameIsSpelled(word, "remove", "REMOVE");
  }

  lemma SameIsSpelled(word: string, small: string, capital: string)
    requires |small| == |capital| && '\n' !in word
    requires forall k | 0 <= k < |small| :: 'a' <= small[k] <= 'z' && capital[k] as int == small[k] as int - 'a' as int + 'A' as int
    ensures SameIgnoringCase(word + "\n", small + "\n") <==> Spells(word, small, capital)
  {
    forall k | 0 <= k < |small| && |word| == |small|
      ensures Lower(word[k]) == Lower(small[k]) <==> word[k] == small[k] || word[k] == capital[k]
    {
    }
    if SameIgnoringCase(word + "\n", small + "\n") {
      forall k | 0 <= k < |small| ensures Lower(word[k]) == Lower(small[k]) {
        assert (word + "\n")[k] == word[k] && (small + "\n")[k] == small[k];
      }
    }
  }
}
