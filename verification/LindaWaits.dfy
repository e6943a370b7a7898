/** Blocking in the tuple space as atomic steps of any number of threads: partition locks and condition variables,
    the store's writer lock, and the broadcasts that follow a commit (lib/linda.c, lib/transaction.c). */
module LindaWaits {
  import opened Collections
  import opened Hexastores
  import opened Journal
  import opened Linda
  import opened Stores
  import opened Symbols

  type Thread = nat

  const PARTITIONS := 64

  function HashFrom(s: string, i: nat, hash: nat): nat
    requires i <= |s|
    decreases |s| - i
  {
    if i == |s| then hash else HashFrom(s, i + 1, (hash * 33 + s[i] as int) % 0x1_0000_0000)
  }

  /** facts_commit_subject_partition: variables wait on partition 0, every constant on another one. */
  function Partition(subject: string): (k: nat)
    ensures k < PARTITIONS && (k == 0 <==> IsVariable(subject))
  {
    if IsVariable(subject) then 0 else 1 + HashFrom(subject, 0, 5381) % (PARTITIONS - 1)
  }

  /** The hash without a machine word's limit: a polynomial in 33. */
  function Polynomial(s: string, n: nat): nat
    requires n <= |s|
  {
    if n == 0 then 5381 else Polynomial(s, n - 1) * 33 + s[n - 1] as int
  }

  lemma Reduced(h: nat, q: nat, c: nat)
    ensures ((q * 0x1_0000_0000 + h) * 33 + c) % 0x1_0000_0000 == (h * 33 + c) % 0x1_0000_0000
  {
    Multiple(33 * q, h * 33 + c);
  }

  lemma Multiple(k: nat, x: nat)
    ensures (k * 0x1_0000_0000 + x) % 0x1_0000_0000 == x % 0x1_0000_0000
  {
    assert k * 0x1_0000_0000 + x == (k + x / 0x1_0000_0000) * 0x1_0000_0000 + x % 0x1_0000_0000;
  }

  lemma {:induction false} HashIs(s: string, i: nat, hash: nat)
    requires i <= |s| && hash == Polynomial(s, i) % 0x1_0000_0000
    ensures HashFrom(s, i, hash) == Polynomial(s, |s|) % 0x1_0000_0000
    decreases |s| - i
  {
    if i < |s| {
      var p := Polynomial(s, i);
      assert p == (p / 0x1_0000_0000) * 0x1_0000_0000 + hash;
      Reduced(hash, p / 0x1_0000_0000, s[i] as int);
      HashIs(s, i + 1, (hash * 33 + s[i] as int) % 0x1_0000_0000);
    }
  }

  /** Cutting the hash to 32 bits in every round comes to cutting the polynomial once. */
  lemma PartitionIs(subject: string)
    ensures Partition(subject) == if IsVariable(subject) then 0 else 1 + Polynomial(subject, |subject|) % 0x1_0000_0000 % 63
  {
    HashIs(subject, 0, 5381);
  }

  /** A tuple the tuple space shows. */
  ghost predicate Visible(facts: Facts, pattern: Pattern) {
    exists f :: IsAsserted(facts, f) && Matches(pattern, Texts(f))
  }

  /** The partitions a commit reports: those of facts that came or went, and partition 0 with any of them. */
  function Summary(entries: seq<Entry>): set<nat> {
    (set e | e in entries && e.action != Action.State :: Partition(e.fact.s.text))
    + (set e | e in entries && e.action != Action.State :: 0)
  }

  /** The order in which the observer goes through them. */
  function InOrder(partitions: set<nat>, n: nat): seq<nat> {
    if n == 0 then [] else InOrder(partitions, n - 1) + if n - 1 in partitions then [n - 1] else []
  }

  lemma {:induction false} InOrderMembers(partitions: set<nat>, n: nat)
    ensures forall k: nat :: k in InOrder(partitions, n) <==> k < n && k in partitions
  {
    if n > 0 { InOrderMembers(partitions, n - 1); }
  }

  datatype Place =
    | Outside
    /** Wants the lock of its partition, at the start or when woken. */
    | Wanting(pattern: Pattern, consume: bool)
    /** Holds the lock: before the check whether the space is closed, after it, in `in`'s transaction, and after
        the search failed. */
    | Checking(pattern: Pattern, consume: bool)
    | Looking(pattern: Pattern, consume: bool)
    | Searching(pattern: Pattern)
    | Missed(pattern: Pattern, consume: bool)
    /** Blocked on the condition of its partition. */
    | Waiting(pattern: Pattern, consume: bool)
    /** Holds the store's writer lock: with the tuple found for the pattern, `taken` unless memory for its undo entry was
        missing, or in a transaction; `subject` is what `out` signals. */
    | Consuming(pattern: Pattern, found: Fact, taken: bool)
    | Writing(subject: Option<string>)
    /** Has partitions left to broadcast to; `Broadcasting` holds the lock of the first. */
    | Notifying(todo: seq<nat>)
    | Broadcasting(todo: seq<nat>)

  datatype State = State(facts: Facts, overlay: Overlay, closed: bool, writer: Option<Thread>, locks: map<nat, Thread>,
                         threads: map<Thread, Place>)

  datatype Step =
    | Start(t: Thread, pattern: Pattern, consume: bool) | Lock(t: Thread) | CheckClosed(t: Thread)
    | RdLook(t: Thread) | InBegin(t: Thread) | InLook(t: Thread, found: Fact, memory: bool) | Wait(t: Thread)
    | Spurious(t: Thread) | Timeout(t: Thread)
    | BeginTx(t: Thread, subject: Option<string>) | Abort(t: Thread)
    | Commit(t: Thread, after: Facts, overlay: Overlay, entries: seq<Entry>)
    | Close(t: Thread)
    | TakeLock(t: Thread) | Broadcast(t: Thread) | Done(t: Thread)

  /** The partition whose lock a thread holds. */
  function HeldLock(p: Place): Option<nat> {
    match p
    case Checking(pattern, _) => Some(Partition(pattern.s))
    case Looking(pattern, _) => Some(Partition(pattern.s))
    case Searching(pattern) => Some(Partition(pattern.s))
    case Missed(pattern, _) => Some(Partition(pattern.s))
    case Broadcasting(todo) => if todo == [] then None else Some(todo[0])
    case _ => None
  }

  predicate HoldsWriter(p: Place) {
    p.Searching? || p.Consuming? || p.Writing?
  }

  function Move(s: State, t: Thread, p: Place): State
    requires t in s.threads
  {
    s.(threads := s.threads[t := p])
  }

  function Acquire(s: State, k: nat, t: Thread): State {
    s.(locks := s.locks[k := t])
  }

  function Release(s: State, k: nat): State {
    s.(locks := s.locks - {k})
  }

  /** What follows a commit: the observer's broadcasts, then those of `out`. */
  function AfterCommit(entries: seq<Entry>, p: Place): seq<nat> {
    InOrder(Summary(entries), PARTITIONS)
    + if p.Writing? && p.subject.Some? then
        if Partition(p.subject.value) == 0 then [0] else [0, Partition(p.subject.value)]
      else []
  }

  /** The facts that become visible by a commit are covered by its broadcasts. */
  ghost predicate Loud(before: Facts, after: Facts, entries: seq<Entry>, p: Place) {
    forall f | IsAsserted(after, f) && !IsAsserted(before, f) ::
      0 in AfterCommit(entries, p) && Partition(f.s.text) in AfterCommit(entries, p)
  }

  /** `in` commits: nothing without memory, one occurrence of the overlay, or the fact's asserted support, to which the
      listener may add changes of derived facts. */
  predicate TakesOne(facts: Facts, overlay: Overlay, f: Fact, taken: bool, after: Facts, overlay': Overlay, entries: seq<Entry>) {
    if taken && f !in overlay then
      && overlay' == overlay && Undoes(after, entries, facts) && !IsAsserted(after, f)
      && forall g | g in facts.Keys + after.Keys && g != f :: IsAsserted(after, g) == IsAsserted(facts, g)
    else
      && after == facts && entries == []
      && overlay' == if !taken then overlay else if overlay[f] > 2 then overlay[f := overlay[f] - 1] else overlay - {f}
  }

  /** `out` commits one more occurrence: a count, or the fact's asserted support without what an earlier one left behind. */
  predicate AddsOne(facts: Facts, overlay: Overlay, f: Fact, after: Facts, overlay': Overlay, entries: seq<Entry>) {
    if IsAsserted(facts, f) then
      after == facts && entries == [] && overlay' == overlay[f := Occurrences(overlay, f) + 1]
    else
      && overlay' == overlay - {f} && Undoes(after, entries, facts) && IsAsserted(after, f)
      && forall g | g in facts.Keys + after.Keys && g != f :: IsAsserted(after, g) == IsAsserted(facts, g)
  }

  /** What the transaction of a thread at this place can commit. */
  ghost predicate Commits(facts: Facts, overlay: Overlay, p: Place, after: Facts, overlay': Overlay, entries: seq<Entry>) {
    match p
    case Consuming(_, found, taken) => TakesOne(facts, overlay, found, taken, after, overlay', entries)
    case Writing(None) => overlay' == overlay && Undoes(after, entries, facts)
    case Writing(Some(subject)) => exists f: Fact :: f.s.text == subject && AddsOne(facts, overlay, f, after, overlay', entries)
    case _ => false
  }

  ghost predicate Next(s: State, step: Step, s': State) {
    step.t in s.threads && StepFrom(s, s.threads[step.t], step, s')
  }

  ghost predicate StepFrom(s: State, p: Place, step: Step, s': State)
    requires step.t in s.threads
  {
    var t := step.t;
    match step
    case Start(_, pattern, consume) => p.Outside? && !s.closed && s' == Move(s, t, Wanting(pattern, consume))
    case Lock(_) =>
      p.Wanting? && Partition(p.pattern.s) !in s.locks
      && s' == Acquire(Move(s, t, Checking(p.pattern, p.consume)), Partition(p.pattern.s), t)
    case CheckClosed(_) =>
      p.Checking? && s' == if s.closed then Release(Move(s, t, Outside), Partition(p.pattern.s))
                           else Move(s, t, Looking(p.pattern, p.consume))
    case RdLook(_) =>
      p.Looking? && !p.consume && s.writer.None?
      && s' == if Visible(s.facts, p.pattern) then Release(Move(s, t, Outside), Partition(p.pattern.s))
               else Move(s, t, Missed(p.pattern, false))
    case InBegin(_) =>
      p.Looking? && p.consume && s.writer.None? && s' == Move(s, t, Searching(p.pattern)).(writer := Some(t))
    case InLook(_, found, memory) =>
      p.Searching?
      && if Visible(s.facts, p.pattern) then
           && IsAsserted(s.facts, found) && Matches(p.pattern, Texts(found))
           && s' == Release(Move(s, t, Consuming(p.pattern, found, memory || found in s.overlay)), Partition(p.pattern.s))
         else s' == Move(s, t, Missed(p.pattern, true)).(writer := None)
    case Wait(_) =>
      p.Missed? && s' == Release(Move(s, t, Waiting(p.pattern, p.consume)), Partition(p.pattern.s))
    case Spurious(_) => p.Waiting? && s' == Move(s, t, Wanting(p.pattern, p.consume))
    case Timeout(_) => p.Waiting? && s' == Move(s, t, Outside)
    case BeginTx(_, subject) =>
      p.Outside? && s.writer.None? && s' == Move(s, t, Writing(subject)).(writer := Some(t))
    case Abort(_) =>
      (p.Writing? || (p.Consuming? && p.taken && p.found !in s.overlay)) && s' == Move(s, t, Outside).(writer := None)
    case Commit(_, after, overlay, entries) =>
      Commits(s.facts, s.overlay, p, after, overlay, entries)
      && s' == Move(s, t, Notifying(AfterCommit(entries, p))).(facts := after, overlay := overlay, writer := None)
    case Close(_) =>
      p.Outside?
      && s' == if s.closed then s else Move(s, t, Notifying(seq(PARTITIONS, k => k))).(closed := true)
    case TakeLock(_) =>
      p.Notifying? && p.todo != [] && p.todo[0] !in s.locks && s' == Acquire(Move(s, t, Broadcasting(p.todo)), p.todo[0], t)
    case Broadcast(_) =>
      p.Broadcasting? && p.todo != []
      && s' == Release(Move(s.(threads := Woken(s.threads, p.todo[0])), t, Notifying(p.todo[1..])), p.todo[0])
    case Done(_) => p.Notifying? && p.todo == [] && s' == Move(s, t, Outside)
  }

  function WokenPlace(p: Place, k: nat): Place {
    if p.Waiting? && Partition(p.pattern.s) == k then Wanting(p.pattern, p.consume) else p
  }

  /** pthread_cond_broadcast on partition `k`. */
  function Woken(threads: map<Thread, Place>, k: nat): map<Thread, Place> {
    map t | t in threads :: WokenPlace(threads[t], k)
  }

  // ---- what every step keeps ----

  predicate Owes(p: Place, k: nat) {
    (p.Notifying? || p.Broadcasting?) && k in p.todo
  }

  ghost predicate Pending(threads: map<Thread, Place>, k: nat) {
    exists u :: u in threads && Owes(threads[u], k)
  }

  /** A thread that will not look again by itself is owed a broadcast as soon as there is something for it. */
  ghost predicate Served(s: State, p: Place) {
    match p
    case Waiting(pattern, _) => s.closed || Visible(s.facts, pattern) ==> Pending(s.threads, Partition(pattern.s))
    case Missed(pattern, _) => s.closed || Visible(s.facts, pattern) ==> Pending(s.threads, Partition(pattern.s))
    case Looking(pattern, _) => s.closed ==> Pending(s.threads, Partition(pattern.s))
    case Searching(pattern) => s.closed ==> Pending(s.threads, Partition(pattern.s))
    case _ => true
  }

  predicate LocksOk(s: State) {
    && (forall t | t in s.threads :: HeldLock(s.threads[t]).Some? ==>
          HeldLock(s.threads[t]).value in s.locks && s.locks[HeldLock(s.threads[t]).value] == t)
    && (forall k | k in s.locks :: s.locks[k] in s.threads && HeldLock(s.threads[s.locks[k]]) == Some(k))
    && (forall t | t in s.threads :: HoldsWriter(s.threads[t]) <==> s.writer == Some(t))
    && (s.writer.Some? ==> s.writer.value in s.threads)
    && forall t | t in s.threads && s.threads[t].Broadcasting? :: s.threads[t].todo != []
  }

  ghost predicate Inv(s: State) {
    LocksOk(s) && forall t | t in s.threads :: Served(s, s.threads[t])
  }

  /** No lost wakeup: a thread blocked on a partition while a matching tuple is visible, or the space is closed,
      has a broadcast to that partition coming. */
  ghost predicate NoLostWakeup(s: State) {
    forall t | t in s.threads && s.threads[t].Waiting? && (s.closed || Visible(s.facts, s.threads[t].pattern)) ::
      Pending(s.threads, Partition(s.threads[t].pattern.s))
  }

  predicate Init(s: State) {
    s.facts == map[] && s.overlay == map[] && !s.closed && s.writer.None? && s.locks == map[] && forall t | t in s.threads :: s.threads[t] == Outside
  }

  /** A step of thread `t` alone: its place, the lock it takes or gives back, and the writer lock. */
  predicate Local(s: State, t: Thread, q: Place, s': State)
    requires t in s.threads
  {
    var p := s.threads[t];
    && s'.threads == s.threads[t := q]
    && (HeldLock(q) == HeldLock(p) ==> s'.locks == s.locks)
    && (HeldLock(q) != HeldLock(p) ==>
          if HeldLock(q).Some? then HeldLock(p).None? && HeldLock(q).value !in s.locks && s'.locks == s.locks[HeldLock(q).value := t]
          else s'.locks == s.locks - {HeldLock(p).value})
    && (HoldsWriter(q) && !HoldsWriter(p) ==> s.writer.None?)
    && s'.writer == (if HoldsWriter(q) then Some(t) else if HoldsWriter(p) then None else s.writer)
    && (q.Broadcasting? ==> q.todo != [])
  }

  lemma LocalLocks(s: State, t: Thread, q: Place, s': State)
    requires LocksOk(s) && t in s.threads && Local(s, t, q, s')
    ensures LocksOk(s')
  {
    hide HeldLock, HoldsWriter;
  }

  predicate IsLookStep(step: Step) {
    step.CheckClosed? || step.RdLook? || step.InBegin? || step.InLook?
  }

  predicate IsWaitStep(step: Step) {
    IsLookStep(step) || step.Start? || step.Lock? || step.Wait? || step.Spurious? || step.Timeout?
  }

  lemma InLookIsLocal(s: State, step: Step, s': State)
    requires Next(s, step, s') && step.InLook?
    requires HoldsWriter(s.threads[step.t]) <==> s.writer == Some(step.t)
    ensures step.t in s'.threads && Local(s, step.t, s'.threads[step.t], s')
    ensures s'.facts == s.facts && s'.closed == s.closed && !Notifies(s.threads[step.t])
  {
    hide Partition, Visible, Matches, Commits, AfterCommit, Woken, IsAsserted;
  }

  lemma LookStepIsLocal(s: State, step: Step, s': State)
    requires LocksOk(s) && Next(s, step, s') && IsLookStep(step)
    ensures step.t in s'.threads && Local(s, step.t, s'.threads[step.t], s')
    ensures s'.facts == s.facts && s'.closed == s.closed && !Notifies(s.threads[step.t])
  {
    hide Partition, Visible, LocksOk, Matches, Commits, AfterCommit, Woken;
    LockOf(s, step.t);
    if step.InLook? { InLookIsLocal(s, step, s'); }
  }

  lemma LockOf(s: State, t: Thread)
    requires LocksOk(s) && t in s.threads
    ensures HoldsWriter(s.threads[t]) <==> s.writer == Some(t)
  {
  }

  lemma WaitStepIsLocal(s: State, step: Step, s': State)
    requires LocksOk(s) && Next(s, step, s') && IsWaitStep(step)
    ensures step.t in s'.threads && Local(s, step.t, s'.threads[step.t], s')
    ensures s'.facts == s.facts && s'.closed == s.closed && !Notifies(s.threads[step.t])
  {
    if IsLookStep(step) {
      LookStepIsLocal(s, step, s');
    } else {
      hide Partition, Visible, LocksOk;
      LockOf(s, step.t);
    }
  }

  lemma OtherStepIsLocal(s: State, step: Step, s': State)
    requires LocksOk(s) && Next(s, step, s') && !IsWaitStep(step) && !step.Broadcast?
    ensures step.t in s'.threads && Local(s, step.t, s'.threads[step.t], s')
    ensures !step.Commit? ==> s'.facts == s.facts
    ensures !step.Close? ==> s'.closed == s.closed
  {
    hide Partition, Undoes, AfterCommit;
  }

  predicate Notifies(p: Place) {
    p.Notifying? || p.Broadcasting?
  }

  lemma WokenLocks(s: State, k: nat)
    requires LocksOk(s)
    ensures LocksOk(s.(threads := Woken(s.threads, k)))
    ensures forall t | t in s.threads && !s.threads[t].Waiting? :: Woken(s.threads, k)[t] == s.threads[t]
  {
    var s' := s.(threads := Woken(s.threads, k));
    forall t | t in s.threads
      ensures HeldLock(s'.threads[t]) == HeldLock(s.threads[t]) && HoldsWriter(s'.threads[t]) == HoldsWriter(s.threads[t])
      ensures s'.threads[t].Broadcasting? ==> s'.threads[t] == s.threads[t]
    {
    }
    hide HeldLock, HoldsWriter, Woken;
    assert s'.threads.Keys == s.threads.Keys;
  }

  lemma BroadcastLocks(s: State, step: Step, s': State)
    requires LocksOk(s) && Next(s, step, s') && step.Broadcast?
    ensures LocksOk(s')
  {
    hide LocksOk;
    var todo := s.threads[step.t].todo;
    LockOf(s, step.t);
    WokenLocks(s, todo[0]);
    LocalLocks(s.(threads := Woken(s.threads, todo[0])), step.t, Notifying(todo[1..]), s');
  }

  lemma LocksNext(s: State, step: Step, s': State)
    requires LocksOk(s) && Next(s, step, s')
    ensures LocksOk(s')
  {
    hide StepFrom, LocksOk, Local;
    if step.Broadcast? {
      BroadcastLocks(s, step, s');
    } else {
      if IsWaitStep(step) { WaitStepIsLocal(s, step, s'); } else { OtherStepIsLocal(s, step, s'); }
      LocalLocks(s, step.t, s'.threads[step.t], s');
    }
  }

  /** Broadcasts that are owed stay owed unless the thread that owes them makes them. */
  lemma PendingKept(s: State, t: Thread, q: Place, s': State, k: nat)
    requires t in s.threads && s'.threads == s.threads[t := q] && (Owes(s.threads[t], k) ==> Owes(q, k))
    requires Pending(s.threads, k)
    ensures Pending(s'.threads, k)
  {
    var u :| u in s.threads && Owes(s.threads[u], k);
    assert u in s'.threads && Owes(s'.threads[u], k);
  }

  lemma PendingBy(threads: map<Thread, Place>, t: Thread, k: nat)
    requires t in threads && Owes(threads[t], k)
    ensures Pending(threads, k)
  {
  }

  lemma WaitStepServes(s: State, step: Step, s': State)
    requires Inv(s) && Next(s, step, s') && IsWaitStep(step)
    ensures forall u | u in s'.threads :: Served(s', s'.threads[u])
  {
    WaitStepIsLocal(s, step, s');
    hide Partition, Visible, Pending, LocksOk, Matches, Commits, AfterCommit, Woken, IsAsserted;
    forall k | Pending(s.threads, k) ensures Pending(s'.threads, k) {
      PendingKept(s, step.t, s'.threads[step.t], s', k);
    }
    forall u | u in s'.threads ensures Served(s', s'.threads[u]) {
      assert Served(s, s.threads[u]);
    }
  }

  /** A transaction's step, or one of a thread that notifies, when facts and closing stay as they are. */
  lemma QuietStepServes(s: State, step: Step, s': State)
    requires Inv(s) && Next(s, step, s') && (step.BeginTx? || step.Abort? || step.TakeLock? || step.Done?)
    ensures forall u | u in s'.threads :: Served(s', s'.threads[u])
  {
    OtherStepIsLocal(s, step, s');
    hide Partition, Visible, Pending, LocksOk;
    forall k | Pending(s.threads, k) ensures Pending(s'.threads, k) {
      PendingKept(s, step.t, s'.threads[step.t], s', k);
    }
    forall u | u in s'.threads ensures Served(s', s'.threads[u]) {
      assert Served(s, s.threads[u]);
    }
  }

  /** A tuple that becomes visible for a pattern is covered by the commit's broadcasts to the pattern's partition. */
  lemma NewlyVisible(before: Facts, after: Facts, entries: seq<Entry>, p: Place, pattern: Pattern)
    requires Loud(before, after, entries, p) && Visible(after, pattern) && !Visible(before, pattern)
    ensures Partition(pattern.s) in AfterCommit(entries, p)
  {
    hide AfterCommit;
    var f :| IsAsserted(after, f) && Matches(pattern, Texts(f));
    assert !IsAsserted(before, f);
    if !IsVariable(pattern.s) { assert pattern.s == f.s.text; }
  }

  /** A commit, if it is one, is loud. */
  ghost predicate LoudStep(s: State, step: Step) {
    step.Commit? && step.t in s.threads ==> Loud(s.facts, step.after, step.entries, s.threads[step.t])
  }

  lemma CommitServes(s: State, step: Step, s': State)
    requires Inv(s) && Next(s, step, s') && step.Commit? && LoudStep(s, step)
    ensures forall u | u in s'.threads :: Served(s', s'.threads[u])
  {
    OtherStepIsLocal(s, step, s');
    hide Partition, Visible, Pending, LocksOk, AfterCommit, Undoes, Loud;
    var p := s.threads[step.t];
    forall k | Pending(s.threads, k) ensures Pending(s'.threads, k) {
      PendingKept(s, step.t, s'.threads[step.t], s', k);
    }
    forall u | u in s'.threads ensures Served(s', s'.threads[u]) {
      assert Served(s, s.threads[u]);
      var q := s'.threads[u];
      if (q.Waiting? || q.Missed?) && Visible(s'.facts, q.pattern) && !Visible(s.facts, q.pattern) {
        NewlyVisible(s.facts, s'.facts, step.entries, p, q.pattern);
        PendingBy(s'.threads, step.t, Partition(q.pattern.s));
      }
    }
  }

  lemma CloseServes(s: State, step: Step, s': State)
    requires Inv(s) && Next(s, step, s') && step.Close?
    ensures forall u | u in s'.threads :: Served(s', s'.threads[u])
  {
    hide Visible, Pending, LocksOk, HashFrom;
    if !s.closed {
      forall k: nat | k < PARTITIONS ensures Pending(s'.threads, k) {
        assert seq(PARTITIONS, i => i)[k] == k;
        PendingBy(s'.threads, step.t, k);
      }
    }
  }

  /** Broadcasting wakes every thread blocked on the partition, and no other thread holds its lock meanwhile. */
  lemma BroadcastServes(s: State, step: Step, s': State)
    requires Inv(s) && Next(s, step, s') && step.Broadcast?
    ensures forall u | u in s'.threads :: Served(s', s'.threads[u])
  {
    hide Partition, Visible;
    var t := step.t;
    var todo := s.threads[t].todo;
    forall k | Pending(s.threads, k) && k != todo[0] ensures Pending(s'.threads, k) {
      var u :| u in s.threads && Owes(s.threads[u], k);
      assert Owes(s'.threads[u], k);
    }
    forall u | u in s'.threads && u != t ensures Served(s', s'.threads[u]) {
      assert Served(s, s.threads[u]);
      assert HeldLock(s.threads[u]) != Some(todo[0]) by {
        assert HeldLock(s.threads[t]) == Some(todo[0]);
      }
    }
  }

  lemma NextInv(s: State, step: Step, s': State)
    requires Inv(s) && Next(s, step, s')
    ensures LocksOk(s') && (LoudStep(s, step) ==> Inv(s'))
  {
    LocksNext(s, step, s');
    if !LoudStep(s, step) { return; }
    hide LocksOk, Served, StepFrom, Loud;
    if IsWaitStep(step) {
      WaitStepServes(s, step, s');
    } else if step.Commit? {
      CommitServes(s, step, s');
    } else if step.Close? {
      CloseServes(s, step, s');
    } else if step.Broadcast? {
      BroadcastServes(s, step, s');
    } else {
      QuietStepServes(s, step, s');
    }
  }

  // ---- which commits are loud ----

  lemma {:induction false} UnwindKeeps(facts: Facts, undo: seq<Entry>, f: Fact)
    requires forall e | e in undo && e.fact == f :: e.action == Action.State
    ensures f in Unwind(facts, undo) <==> f in facts
    decreases |undo|
  {
    if undo != [] {
      UnwindKeeps(Undo(facts, undo[|undo| - 1]), undo[..|undo| - 1], f);
    }
  }

  ghost predicate HitBy(k: nat, entries: seq<Entry>) {
    exists e :: e in entries && e.action != Action.State && Partition(e.fact.s.text) == k
  }

  /** A partition is hit by a fact that came or went, or by the subject of `out`. */
  ghost predicate Hit(k: nat, entries: seq<Entry>, p: Place) {
    HitBy(k, entries) || (p.Writing? && p.subject.Some? && Partition(p.subject.value) == k)
  }

  /** What the observer is told. */
  lemma SummaryIs(k: nat, entries: seq<Entry>)
    ensures k in Summary(entries) <==> HitBy(k, entries) || (k == 0 && exists j :: HitBy(j, entries))
    ensures HitBy(k, entries) ==> k < PARTITIONS
  {
    hide HashFrom;
    if e :| e in entries && e.action != Action.State {
      assert HitBy(Partition(e.fact.s.text), entries);
    }
  }

  lemma AfterCommitIs(k: nat, entries: seq<Entry>, p: Place)
    ensures k in AfterCommit(entries, p) <==>
            || HitBy(k, entries) || (k == 0 && exists j :: HitBy(j, entries))
            || (p.Writing? && p.subject.Some? && (k == 0 || Partition(p.subject.value) == k))
  {
    hide Summary, HitBy, HashFrom;
    SummaryIs(k, entries);
    InOrderMembers(Summary(entries), PARTITIONS);
  }

  lemma {:induction false} NoneInOrder(n: nat)
    ensures InOrder({}, n) == []
  {
    if n > 0 { NoneInOrder(n - 1); }
  }

  /** So does anything at all for the patterns with a variable subject. */
  ghost predicate Announced(k: nat, entries: seq<Entry>, p: Place) {
    Hit(k, entries, p) || (k == 0 && exists j :: Hit(j, entries, p))
  }

  lemma AnnouncedIff(k: nat, entries: seq<Entry>, p: Place)
    ensures Announced(k, entries, p) <==> k in AfterCommit(entries, p)
    ensures Announced(k, entries, p) ==> 0 in AfterCommit(entries, p)
  {
    hide HitBy, AfterCommit, HashFrom;
    AfterCommitIs(k, entries, p);
    AfterCommitIs(0, entries, p);
    assert p.Writing? && p.subject.Some? ==> Hit(Partition(p.subject.value), entries, p);
    assert forall j | HitBy(j, entries) :: Hit(j, entries, p);
  }

  lemma NewFactHits(before: Facts, after: Facts, entries: seq<Entry>, p: Place, f: Fact)
    requires Undoes(after, entries, before) && f in after && f !in before
    ensures Hit(Partition(f.s.text), entries, p)
  {
    if forall e | e in entries && e.fact == f :: e.action == Action.State {
      UnwindKeeps(after, entries, f);
    }
  }

  /** A fact that is stored without being asserted, and asserted afterwards. */
  predicate Promoted(before: Facts, after: Facts, f: Fact) {
    f in before && !IsAsserted(before, f) && IsAsserted(after, f)
  }

  /** A commit is loud exactly when the subject of every promoted fact is announced by some other change: state
      entries announce nothing, and a fact that was not stored before announces itself. */
  lemma LoudIff(before: Facts, after: Facts, entries: seq<Entry>, p: Place)
    requires Undoes(after, entries, before)
    ensures Loud(before, after, entries, p) <==>
            forall f | Promoted(before, after, f) :: Announced(Partition(f.s.text), entries, p)
  {
    hide AfterCommit, Partition, Hit, Undoes, Announced;
    forall f | IsAsserted(after, f) && !IsAsserted(before, f)
      ensures Announced(Partition(f.s.text), entries, p) <==> Partition(f.s.text) in AfterCommit(entries, p)
      ensures Announced(Partition(f.s.text), entries, p) ==> 0 in AfterCommit(entries, p)
      ensures f !in before ==> Announced(Partition(f.s.text), entries, p)
    {
      AnnouncedIff(Partition(f.s.text), entries, p);
      if f !in before {
        NewFactHits(before, after, entries, p, f);
        HitAnnounces(Partition(f.s.text), entries, p);
      }
    }
  }

  lemma HitAnnounces(k: nat, entries: seq<Entry>, p: Place)
    requires Hit(k, entries, p)
    ensures Announced(k, entries, p)
  {
  }

  /** A transaction whose newly visible facts were not stored at all before is loud. */
  lemma NewFactsAreLoud(before: Facts, after: Facts, entries: seq<Entry>, p: Place)
    requires Undoes(after, entries, before)
    requires forall f | IsAsserted(after, f) && !IsAsserted(before, f) :: f !in before
    ensures Loud(before, after, entries, p)
  {
    hide Undoes, Loud, Announced;
    LoudIff(before, after, entries, p);
  }

  /** `out` signals its subject itself, so it is loud even when it asserts a fact that was derived before. */
  lemma OutIsLoud(before: Facts, after: Facts, entries: seq<Entry>, subject: string)
    requires forall f | IsAsserted(after, f) && !IsAsserted(before, f) :: f.s.text == subject
    ensures Loud(before, after, entries, Writing(Some(subject)))
  {
    hide AfterCommit, HitBy, HashFrom;
    AfterCommitIs(0, entries, Writing(Some(subject)));
    AfterCommitIs(Partition(subject), entries, Writing(Some(subject)));
  }

  /** Whoever waits, the commit leaves nobody blocked on a visible tuple without a broadcast to come. */
  ghost predicate KeepsWakeups(before: Facts, overlay: Overlay, after: Facts, overlay': Overlay, entries: seq<Entry>, p: Place) {
    forall s, t, s' | Inv(s) && s.facts == before && s.overlay == overlay && t in s.threads && s.threads[t] == p
                      && Next(s, Commit(t, after, overlay', entries), s') ::
      NoLostWakeup(s')
  }

  /** Stored symbols are constants, and texts determine facts. */
  ghost predicate Spelled(before: Facts, after: Facts) {
    && (forall f | f in after :: !IsVariable(f.s.text) && !IsVariable(f.p.text) && !IsVariable(f.o.text))
    && forall f, g | f in after && g in before && Texts(f) == Texts(g) :: f == g
  }

  function PatternOf(f: Fact): Pattern {
    Pattern(f.s.text, f.p.text, f.o.text)
  }

  /** Being loud is exactly what a commit needs to lose no wakeup. */
  lemma LoudIsNeeded(before: Facts, overlay: Overlay, after: Facts, overlay': Overlay, entries: seq<Entry>, p: Place)
    requires Commits(before, overlay, p, after, overlay', entries) && Spelled(before, after)
    ensures KeepsWakeups(before, overlay, after, overlay', entries, p) <==> Loud(before, after, entries, p)
  {
    hide AfterCommit, Partition, Commits, Inv, NoLostWakeup, StepFrom;
    if Loud(before, after, entries, p) {
      forall s, t, s' | Inv(s) && s.facts == before && s.overlay == overlay && t in s.threads && s.threads[t] == p
                        && Next(s, Commit(t, after, overlay', entries), s')
        ensures NoLostWakeup(s')
      {
        NextInv(s, Commit(t, after, overlay', entries), s');
        InvIsEnough(s');
      }
    } else {
      var f :| IsAsserted(after, f) && !IsAsserted(before, f)
               && !(0 in AfterCommit(entries, p) && Partition(f.s.text) in AfterCommit(entries, p));
      AnnouncedIff(Partition(f.s.text), entries, p);
      var s, s' := WaiterFor(before, overlay, after, overlay', entries, p, f);
    }
  }

  lemma OnlyItself(before: Facts, after: Facts, f: Fact)
    requires Spelled(before, after) && f in after
    ensures Matches(PatternOf(f), Texts(f))
    ensures !IsAsserted(before, f) ==> !Visible(before, PatternOf(f))
  {
    TermsMatchIff(PatternOf(f), Texts(f));
    forall g | g in before && Matches(PatternOf(f), Texts(g)) ensures g == f {
      TermsMatchIff(PatternOf(f), Texts(g));
      assert Texts(g) == Texts(f);
    }
  }

  /** A state in which somebody waits for the fact that the commit is silent about. */
  lemma WaiterFor(before: Facts, overlay: Overlay, after: Facts, overlay': Overlay, entries: seq<Entry>, p: Place, f: Fact)
    returns (s: State, s': State)
    requires Commits(before, overlay, p, after, overlay', entries) && Spelled(before, after)
    requires IsAsserted(after, f) && !IsAsserted(before, f) && Partition(f.s.text) !in AfterCommit(entries, p)
    ensures Inv(s) && s.facts == before && s.overlay == overlay && 1 in s.threads && s.threads[1] == p
    ensures Next(s, Commit(1, after, overlay', entries), s') && !NoLostWakeup(s')
  {
    hide AfterCommit, Partition, Commits, Visible, Undoes, Inv, NoLostWakeup;
    CommitUndoes(before, overlay, p, after, overlay', entries);
    OnlyItself(before, after, f);
    s := OneWaits(before, overlay, p, PatternOf(f));
    s' := Move(s, 1, Notifying(AfterCommit(entries, p))).(facts := after, overlay := overlay', writer := None);
    WakeupLost(s', PatternOf(f), AfterCommit(entries, p)) by { NowVisible(after, f); }
  }

  lemma NowVisible(after: Facts, f: Fact)
    requires IsAsserted(after, f) && Matches(PatternOf(f), Texts(f))
    ensures Visible(after, PatternOf(f))
  {
  }

  lemma OneWaits(facts: Facts, overlay: Overlay, p: Place, pattern: Pattern) returns (s: State)
    requires (p.Writing? || p.Consuming?) && !Visible(facts, pattern)
    ensures s == State.State(facts, overlay, false, Some(1), map[], map[0 := Waiting(pattern, false), 1 := p]) && Inv(s)
  {
    hide Partition, Visible;
    s := State.State(facts, overlay, false, Some(1), map[], map[0 := Waiting(pattern, false), 1 := p]);
    assert Served(s, s.threads[0]);
  }

  lemma WakeupLost(s: State, pattern: Pattern, todo: seq<nat>)
    requires s.threads == map[0 := Waiting(pattern, false), 1 := Notifying(todo)]
    requires Visible(s.facts, pattern) && Partition(pattern.s) !in todo
    ensures !NoLostWakeup(s)
  {
    hide Partition, Visible;
    assert s.threads[0] == Waiting(pattern, false);
    assert !Pending(s.threads, Partition(pattern.s));
  }

  // ---- whole runs ----

  ghost predicate Run(states: seq<State>, steps: seq<Step>) {
    && |states| == |steps| + 1 && Init(states[0])
    && forall i {:trigger steps[i]} | 0 <= i < |steps| :: Next(states[i], steps[i], states[i + 1])
  }

  ghost predicate LoudRun(states: seq<State>, steps: seq<Step>)
    requires Run(states, steps)
  {
    forall i {:trigger steps[i]} | 0 <= i < |steps| :: LoudStep(states[i], steps[i])
  }

  lemma RunStep(states: seq<State>, steps: seq<Step>, n: nat)
    requires Run(states, steps) && n < |steps|
    ensures |states| == |steps| + 1 && Next(states[n], steps[n], states[n + 1])
    ensures LoudRun(states, steps) ==> LoudStep(states[n], steps[n])
  {
    hide Next, LoudStep;
  }

  lemma StartInv(states: seq<State>, steps: seq<Step>)
    requires Run(states, steps)
    ensures Inv(states[0])
  {
    hide Next;
  }

  lemma {:induction false} RunInv(states: seq<State>, steps: seq<Step>, n: nat)
    requires Run(states, steps) && LoudRun(states, steps) && n < |states|
    ensures Inv(states[n])
  {
    hide LoudStep, Inv, Next, Init;
    if n == 0 {
      StartInv(states, steps);
    } else {
      RunInv(states, steps, n - 1);
      RunStep(states, steps, n - 1);
      NextInv(states[n - 1], steps[n - 1], states[n]);
    }
  }

  /** In a run whose commits are loud no wakeup is lost. */
  lemma LoudRunLosesNoWakeup(states: seq<State>, steps: seq<Step>)
    requires Run(states, steps) && LoudRun(states, steps)
    ensures forall n | 0 <= n < |states| :: NoLostWakeup(states[n])
  {
    forall n | 0 <= n < |states| ensures NoLostWakeup(states[n]) {
      RunInv(states, steps, n);
      InvIsEnough(states[n]);
    }
  }

  lemma InvIsEnough(s: State)
    requires Inv(s)
    ensures NoLostWakeup(s)
  {
    assert forall t | t in s.threads :: Served(s, s.threads[t]);
  }

  /** What a caller can see to before it commits: it asserts nothing that is stored as a derived fact only, unless
      it is `out` on a tuple with that subject. */
  ghost predicate Promotes(s: State, step: Step) {
    step.Commit? && step.t in s.threads &&
    exists f | Promoted(s.facts, step.after, f) :: s.threads[step.t] != Writing(Some(f.s.text))
  }

  lemma CommitUndoes(facts: Facts, overlay: Overlay, p: Place, after: Facts, overlay': Overlay, entries: seq<Entry>)
    requires Commits(facts, overlay, p, after, overlay', entries)
    ensures Undoes(after, entries, facts) && (p.Writing? || p.Consuming?)
  {
  }

  lemma UnpromotedIsLoud(s: State, step: Step, s': State)
    requires Next(s, step, s') && step.Commit? && !Promotes(s, step)
    ensures LoudStep(s, step)
  {
    hide AfterCommit, Partition, Undoes, Loud;
    var p := s.threads[step.t];
    CommitUndoes(s.facts, s.overlay, p, step.after, step.overlay, step.entries);
    hide Commits;
    LoudIff(s.facts, step.after, step.entries, p);
    forall f | Promoted(s.facts, step.after, f) ensures Announced(Partition(f.s.text), step.entries, p) {
      assert Hit(Partition(f.s.text), step.entries, p);
    }
  }

  /** In every reachable interleaving of Linda operations and transactions none of which promotes a derived fact, no
      wakeup is lost. */
  lemma RunLosesNoWakeup(states: seq<State>, steps: seq<Step>)
    requires Run(states, steps)
    requires forall i | 0 <= i < |steps| :: !Promotes(states[i], steps[i])
    ensures forall n | 0 <= n < |states| :: NoLostWakeup(states[n])
  {
    forall i | 0 <= i < |steps| ensures LoudStep(states[i], steps[i]) {
      assert Next(states[i], steps[i], states[i + 1]);
      if steps[i].Commit? { UnpromotedIsLoud(states[i], steps[i], states[i + 1]); }
    }
    LoudRunLosesNoWakeup(states, steps);
  }

  // ---- a run that loses a wakeup ----

  ghost predicate Reachable(s: State) {
    exists states, steps :: Run(states, steps) && states[|steps|] == s
  }

  lemma ReachNext(s: State, step: Step, s': State)
    requires Reachable(s) && Next(s, step, s')
    ensures Reachable(s')
  {
    hide Next, Init;
    var states, steps :| Run(states, steps) && states[|steps|] == s;
    var more, longer := states + [s'], steps + [step];
    forall i | 0 <= i < |longer| ensures Next(more[i], longer[i], more[i + 1]) {
      if i < |steps| { assert Next(states[i], steps[i], states[i + 1]); }
    }
    assert Run(more, longer) && more[|longer|] == s';
  }

  /** Two threads: one that reads, one that changes the store. */
  function Pair(facts: Facts, writer: Option<Thread>, locks: map<nat, Thread>, reader: Place, changer: Place): State {
    State.State(facts, map[], false, writer, locks, map[0 := reader, 1 := changer])
  }

  lemma OneBroadcast(facts: Facts, todo: seq<nat>)
    requires todo != [] && Reachable(Pair(facts, None, map[todo[0] := 1], Outside, Broadcasting(todo)))
    ensures Reachable(Pair(facts, None, map[], Outside, Notifying(todo[1..])))
  {
    hide Partition, Reachable, Visible;
    var held := Pair(facts, None, map[todo[0] := 1], Outside, Broadcasting(todo));
    var next := Pair(facts, None, map[], Outside, Notifying(todo[1..]));
    assert Woken(held.threads, todo[0]) == held.threads;
    assert next == Release(Move(held.(threads := Woken(held.threads, todo[0])), 1, Notifying(todo[1..])), todo[0]);
    ReachNext(held, Broadcast(1), next);
  }

  lemma {:induction false} Drained(facts: Facts, todo: seq<nat>)
    requires Reachable(Pair(facts, None, map[], Outside, Notifying(todo)))
    ensures Reachable(Pair(facts, None, map[], Outside, Outside))
    decreases |todo|
  {
    hide Partition, Reachable, Visible;
    var s := Pair(facts, None, map[], Outside, Notifying(todo));
    if todo == [] {
      ReachNext(s, Done(1), Move(s, 1, Outside));
      assert Move(s, 1, Outside) == Pair(facts, None, map[], Outside, Outside);
    } else {
      var held := Pair(facts, None, map[todo[0] := 1], Outside, Broadcasting(todo));
      assert held == Acquire(Move(s, 1, Broadcasting(todo)), todo[0], 1);
      ReachNext(s, TakeLock(1), held);
      OneBroadcast(facts, todo);
      Drained(facts, todo[1..]);
    }
  }

  /** One transaction of the store's own, up to its commit. */
  lemma Committed(facts: Facts, after: Facts, entries: seq<Entry>, reader: Place)
    requires Reachable(Pair(facts, None, map[], reader, Outside)) && Undoes(after, entries, facts)
    ensures Reachable(Pair(after, None, map[], reader, Notifying(AfterCommit(entries, Writing(None)))))
  {
    hide AfterCommit, Undoes, Reachable, Partition;
    var s := Pair(facts, None, map[], reader, Outside);
    var open := Pair(facts, Some(1), map[], reader, Writing(None));
    assert open == Move(s, 1, Writing(None)).(writer := Some(1));
    ReachNext(s, BeginTx(1, None), open);
    var done := Pair(after, None, map[], reader, Notifying(AfterCommit(entries, Writing(None))));
    assert done == Move(open, 1, Notifying(AfterCommit(entries, Writing(None)))).(facts := after, writer := None);
    ReachNext(open, Commit(1, after, map[], entries), done);
  }

  /** `rd` takes its partition's lock. */
  lemma Locks(facts: Facts, pattern: Pattern)
    requires Reachable(Pair(facts, None, map[], Outside, Outside))
    ensures Reachable(Pair(facts, None, map[Partition(pattern.s) := 0], Checking(pattern, false), Outside))
  {
    hide Partition, Reachable, Visible;
    var k := Partition(pattern.s);
    var s := Pair(facts, None, map[], Outside, Outside);
    var wants := Pair(facts, None, map[], Wanting(pattern, false), Outside);
    assert wants == Move(s, 0, Wanting(pattern, false));
    ReachNext(s, Start(0, pattern, false), wants);
    var holds := Pair(facts, None, map[k := 0], Checking(pattern, false), Outside);
    assert holds == Acquire(Move(wants, 0, Checking(pattern, false)), k, 0);
    ReachNext(wants, Lock(0), holds);
  }

  lemma Looks(facts: Facts, pattern: Pattern)
    requires Reachable(Pair(facts, None, map[], Outside, Outside))
    ensures Reachable(Pair(facts, None, map[Partition(pattern.s) := 0], Looking(pattern, false), Outside))
  {
    hide Partition, Reachable, Visible;
    var k := Partition(pattern.s);
    Locks(facts, pattern);
    var holds := Pair(facts, None, map[k := 0], Checking(pattern, false), Outside);
    var looks := Pair(facts, None, map[k := 0], Looking(pattern, false), Outside);
    assert looks == Move(holds, 0, Looking(pattern, false));
    ReachNext(holds, CheckClosed(0), looks);
  }

  /** It looks in vain and blocks. */
  lemma Blocked(facts: Facts, pattern: Pattern)
    requires Reachable(Pair(facts, None, map[], Outside, Outside)) && !Visible(facts, pattern)
    ensures Reachable(Pair(facts, None, map[], Waiting(pattern, false), Outside))
  {
    hide Partition, Reachable, Visible;
    var k := Partition(pattern.s);
    Looks(facts, pattern);
    var looks := Pair(facts, None, map[k := 0], Looking(pattern, false), Outside);
    var missed := Pair(facts, None, map[k := 0], Missed(pattern, false), Outside);
    assert missed == Move(looks, 0, Missed(pattern, false));
    ReachNext(looks, RdLook(0), missed);
    var waits := Pair(facts, None, map[], Waiting(pattern, false), Outside);
    assert waits == Release(Move(missed, 0, Waiting(pattern, false)), k);
    ReachNext(missed, Wait(0), waits);
  }

  /** Promoting a derived fact is silent. */
  lemma PromotionIsSilent(f: Fact)
    ensures var before, after := map[f := Support(false, true)], map[f := Support(true, true)];
            var entries := [Entry(Action.State, f, Support(false, true))];
            Undoes(after, entries, before) && AfterCommit(entries, Writing(None)) == []
  {
    var before, after := map[f := Support(false, true)], map[f := Support(true, true)];
    var entries := [Entry(Action.State, f, Support(false, true))];
    assert Undo(after, entries[0]) == before && entries[..0] == [];
    assert Summary(entries) == {};
    NoneInOrder(PARTITIONS);
  }

  lemma SelfMatches(f: Fact)
    ensures Matches(PatternOf(f), Texts(f))
    ensures !Visible(map[f := Support(false, true)], PatternOf(f))
  {
    TermsMatchIff(PatternOf(f), Texts(f));
  }

  lemma DerivedAlone(f: Fact)
    ensures Undoes(map[f := Support(false, true)], [Entry(Action.Remove, f, Support(false, true))], map[])
  {
    var facts, entries := map[f := Support(false, true)], [Entry(Action.Remove, f, Support(false, true))];
    assert Undo(facts, entries[0]) == map[] && entries[..0] == [];
  }

  /** The run: the store derives `f`, a thread blocks on `rd` for it, and a transaction of the store asserts it. The
      tuple is visible then, the thread is blocked, and nobody has a broadcast to make. */
  lemma PromotionLosesWakeup(f: Fact) returns (states: seq<State>, steps: seq<Step>)
    ensures Run(states, steps)
    ensures var s := states[|steps|];
            && s.facts == map[f := Support(true, true)] && 0 in s.threads && s.threads[0] == Waiting(PatternOf(f), false)
            && Visible(s.facts, PatternOf(f)) && (forall k :: !Pending(s.threads, k)) && !NoLostWakeup(s)
  {
    hide AfterCommit, Partition, Undoes;
    var s := Pair(map[], None, map[], Outside, Outside);
    var none: seq<Step> := [];
    assert Run([s], none) && [s][|none|] == s;
    var derived: Facts := map[f := Support(false, true)];
    var both: Facts := map[f := Support(true, true)];
    DerivedAlone(f);
    SelfMatches(f);
    var added, promoted := [Entry(Action.Remove, f, Support(false, true))], [Entry(Action.State, f, Support(false, true))];
    Committed(map[], derived, added, Outside);
    Drained(derived, AfterCommit(added, Writing(None)));
    Blocked(derived, PatternOf(f));
    PromotionIsSilent(f);
    Committed(derived, both, promoted, Waiting(PatternOf(f), false));
    var last := Pair(both, None, map[], Waiting(PatternOf(f), false), Notifying([]));
    assert IsAsserted(both, f) && Matches(PatternOf(f), Texts(f));
    assert last.threads[0].Waiting? && Visible(last.facts, last.threads[0].pattern);
    states, steps :| Run(states, steps) && states[|steps|] == last;
  }

  // ---- no deadlock ----

  predicate Busy(p: Place) {
    !p.Outside? && !p.Waiting?
  }

  /** What a transaction has done when it commits. */
  datatype Work = Work(after: Facts, overlay: Overlay, entries: seq<Entry>)

  /** What a busy thread does next, when its locks allow: a look finds `found`, with memory to take it, and a writer
      commits what its transaction has done. */
  function Intends(p: Place, t: Thread, found: Fact, work: Work): Step
    requires Busy(p)
  {
    match p
    case Wanting(_, _) => Lock(t)
    case Checking(_, _) => CheckClosed(t)
    case Looking(_, consume) => if consume then InBegin(t) else RdLook(t)
    case Searching(_) => InLook(t, found, true)
    case Missed(_, _) => Wait(t)
    case Consuming(_, _, _) => Commit(t, work.after, work.overlay, work.entries)
    case Writing(_) => Commit(t, work.after, work.overlay, work.entries)
    case Notifying(todo) => if todo == [] then Done(t) else TakeLock(t)
    case Broadcasting(_) => Broadcast(t)
  }

  ghost predicate Enabled(s: State, step: Step) {
    exists s' :: Next(s, step, s')
  }

  /** What the writer's transaction has done is something it can commit, and what it would find is there to be found. */
  ghost predicate Ready(s: State, found: Fact, work: Work) {
    s.writer.Some? && s.writer.value in s.threads ==>
      var p := s.threads[s.writer.value];
      && (p.Writing? || p.Consuming? ==> Commits(s.facts, s.overlay, p, work.after, work.overlay, work.entries))
      && (p.Searching? && Visible(s.facts, p.pattern) ==> IsAsserted(s.facts, found) && Matches(p.pattern, Texts(found)))
  }

  /** The writer, or else whoever holds a partition's lock, can go on. */
  lemma HolderMoves(s: State, t: Thread, found: Fact, work: Work)
    requires LocksOk(s) && t in s.threads && Busy(s.threads[t]) && Ready(s, found, work)
    requires if s.writer.Some? then s.writer == Some(t) else !s.threads[t].Wanting? && (s.threads[t].Notifying? ==> s.threads[t].todo == [])
    ensures Enabled(s, Intends(s.threads[t], t, found, work))
  {
    hide Partition, Visible, LocksOk, Commits;
    LockOf(s, t);
    var p := s.threads[t];
    match p
    case Consuming(_, _, _) => CommitMoves(s, t, work);
    case Writing(_) => CommitMoves(s, t, work);
    case Notifying(_) => assert Next(s, Done(t), Move(s, t, Outside));
    case Broadcasting(todo) =>
      FirstToDo(s, t);
      assert Next(s, Broadcast(t), Release(Move(s.(threads := Woken(s.threads, todo[0])), t, Notifying(todo[1..])), todo[0]));
    case _ => LookerMoves(s, t, found, work);
  }

  lemma CommitMoves(s: State, t: Thread, work: Work)
    requires t in s.threads && Commits(s.facts, s.overlay, s.threads[t], work.after, work.overlay, work.entries)
    ensures Enabled(s, Commit(t, work.after, work.overlay, work.entries))
  {
    hide Commits;
    var s' := Move(s, t, Notifying(AfterCommit(work.entries, s.threads[t]))).(facts := work.after, overlay := work.overlay, writer := None);
    assert Next(s, Commit(t, work.after, work.overlay, work.entries), s');
  }

  lemma FirstToDo(s: State, t: Thread)
    requires LocksOk(s) && t in s.threads && s.threads[t].Broadcasting?
    ensures s.threads[t].todo != []
  {
  }

  lemma LookerMoves(s: State, t: Thread, found: Fact, work: Work)
    requires t in s.threads && (HoldsWriter(s.threads[t]) <==> s.writer == Some(t)) && (s.writer.Some? ==> s.writer == Some(t))
    requires Ready(s, found, work)
    requires var p := s.threads[t]; p.Checking? || p.Looking? || p.Searching? || p.Missed?
    ensures Enabled(s, Intends(s.threads[t], t, found, work))
  {
    hide Partition, Visible, Commits, Matches;
    var p := s.threads[t];
    match p
    case Checking(_, _) =>
      var s' := if s.closed then Release(Move(s, t, Outside), Partition(p.pattern.s)) else Move(s, t, Looking(p.pattern, p.consume));
      assert Next(s, CheckClosed(t), s');
    case Looking(_, consume) =>
      if consume {
        assert Next(s, InBegin(t), Move(s, t, Searching(p.pattern)).(writer := Some(t)));
      } else {
        var s' := if Visible(s.facts, p.pattern) then Release(Move(s, t, Outside), Partition(p.pattern.s)) else Move(s, t, Missed(p.pattern, false));
        assert Next(s, RdLook(t), s');
      }
    case Searching(_) =>
      var s' := if Visible(s.facts, p.pattern) then Release(Move(s, t, Consuming(p.pattern, found, true)), Partition(p.pattern.s))
                else Move(s, t, Missed(p.pattern, true)).(writer := None);
      assert Next(s, InLook(t, found, true), s');
    case Missed(_, _) =>
      assert Next(s, Wait(t), Release(Move(s, t, Waiting(p.pattern, p.consume)), Partition(p.pattern.s)));
  }

  /** Whatever a transaction has done, it can be committed, and unless every thread is outside or blocked on a condition, some thread can take its step: `in` takes the
      writer lock inside its partition's lock, but nobody waits for a partition's lock while writing. */
  lemma NoDeadlock(s: State, t: Thread, found: Fact, work: Work)
    requires LocksOk(s) && t in s.threads && Busy(s.threads[t]) && Ready(s, found, work)
    ensures exists u :: u in s.threads && Busy(s.threads[u]) && Enabled(s, Intends(s.threads[u], u, found, work))
  {
    hide Partition, Commits;
    if s.writer.Some? {
      LockOf(s, s.writer.value);
      HolderMoves(s, s.writer.value, found, work);
    } else {
      var p := s.threads[t];
      if p.Wanting? {
        FreeOrHeld(s, t, Partition(p.pattern.s), Acquire(Move(s, t, Checking(p.pattern, p.consume)), Partition(p.pattern.s), t), found, work);
      } else if p.Notifying? && p.todo != [] {
        FreeOrHeld(s, t, p.todo[0], Acquire(Move(s, t, Broadcasting(p.todo)), p.todo[0], t), found, work);
      } else {
        HolderMoves(s, t, found, work);
      }
    }
  }

  lemma FreeOrHeld(s: State, t: Thread, k: nat, s': State, found: Fact, work: Work)
    requires LocksOk(s) && t in s.threads && Busy(s.threads[t]) && Ready(s, found, work) && s.writer.None?
    requires k !in s.locks ==> Next(s, Intends(s.threads[t], t, found, work), s')
    ensures exists u :: u in s.threads && Busy(s.threads[u]) && Enabled(s, Intends(s.threads[u], u, found, work))
  {
    hide StepFrom;
    if k in s.locks {
      var u := s.locks[k];
      assert HeldLock(s.threads[u]) == Some(k);
      HolderMoves(s, u, found, work);
    } else {
      assert Enabled(s, Intends(s.threads[t], t, found, work));
    }
  }

  /** There is always something to commit: an empty transaction, one more occurrence for `out`, and for `in` the tuple
      that it has found. */
  lemma SomethingToCommit(facts: Facts, overlay: Overlay, p: Place) returns (work: Work)
    requires p.Writing? || (p.Consuming? && IsAsserted(facts, p.found) && (p.found in overlay ==> p.taken))
    ensures Commits(facts, overlay, p, work.after, work.overlay, work.entries)
  {
    hide Undoes;
    UndoNothing(facts);
    match p
    case Writing(None) => work := Work(facts, overlay, []);
    case Writing(Some(subject)) =>
      var f := Fact(Symbol(0, subject), Symbol(0, ""), Symbol(0, ""));
      if IsAsserted(facts, f) {
        work := Work(facts, overlay[f := Occurrences(overlay, f) + 1], []);
      } else {
        UndoChange(facts, f, Asserted, true);
        work := Work(Added(facts, f, Asserted), overlay - {f}, [EntryFor(facts, f, Set(SupportOf(facts, f), Asserted, true))]);
      }
      assert AddsOne(facts, overlay, f, work.after, work.overlay, work.entries);
    case Consuming(_, f, taken) =>
      if taken && f !in overlay {
        UndoChange(facts, f, Asserted, false);
        work := Work(Removed(facts, f, Asserted), overlay, [EntryFor(facts, f, Set(SupportOf(facts, f), Asserted, false))]);
      } else {
        work := Work(facts, if !taken then overlay else if overlay[f] > 2 then overlay[f := overlay[f] - 1] else overlay - {f}, []);
      }
  }

  lemma UndoNothing(facts: Facts)
    ensures Undoes(facts, [], facts)
  {
  }

  lemma UndoChange(facts: Facts, f: Fact, origin: Origin, on: bool)
    requires f in facts || on
    ensures var x := Set(SupportOf(facts, f), origin, on);
            Undoes(WithSupport(facts, f, x), [EntryFor(facts, f, x)], facts)
  {
    var x := Set(SupportOf(facts, f), origin, on);
    EntryUndoes(facts, f, x);
    var e := EntryFor(facts, f, x);
    assert [e][..0] == [];
  }
}
