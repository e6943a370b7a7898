/** What `in` and `rd` go on with: over any run a look succeeds only on a visible tuple, and an occurrence is taken once
    (linda_rd_wait and linda_in_wait in lib/linda.c). */
module LindaTakes {
  import opened Collections
  import opened Hexastores
  import opened Journal
  import opened Linda
  import opened LindaWaits

  /** A tuple that was found for a thread is there for it until it commits: it is the writer. */
  ghost predicate FoundOk(s: State, p: Place) {
    p.Consuming? ==>
      IsAsserted(s.facts, p.found) && Matches(p.pattern, Texts(p.found)) && (p.found in s.overlay ==> p.taken)
  }

  ghost predicate AllFound(s: State) {
    forall t | t in s.threads :: FoundOk(s, s.threads[t])
  }

  lemma ConsumerIsWriter(s: State, t: Thread, u: Thread)
    requires LocksOk(s) && t in s.threads && u in s.threads && HoldsWriter(s.threads[t]) && HoldsWriter(s.threads[u])
    ensures t == u
  {
  }

  /** Where a step can take the thread that makes it. */
  ghost predicate Moves(s: State, p: Place, q: Place) {
    match p
    case Wanting(pattern, consume) => q == Checking(pattern, consume)
    case Checking(pattern, consume) => q == if s.closed then Outside else Looking(pattern, consume)
    case Looking(pattern, false) => if Visible(s.facts, pattern) then q == Outside else q == Missed(pattern, false)
    case Looking(pattern, true) => q == Searching(pattern)
    case Searching(pattern) =>
      if Visible(s.facts, pattern) then q.Consuming? && q.pattern == pattern else q == Missed(pattern, true)
    case Missed(pattern, consume) => q == Waiting(pattern, consume)
    case Consuming(_, found, _) => (q == Outside && found !in s.overlay) || q.Notifying?
    case Writing(_) => q == Outside || q.Notifying?
    case Waiting(pattern, consume) => q == Wanting(pattern, consume) || q == Outside
    case Outside => q.Wanting? || q.Writing? || q.Notifying? || q == Outside
    case Notifying(todo) => q == if todo == [] then Outside else Broadcasting(todo)
    case Broadcasting(todo) => todo != [] && q == Notifying(todo[1..])
  }

  lemma LookMoves(s: State, step: Step, s': State)
    requires Next(s, step, s') && (IsLookStep(step) || step.Wait?)
    ensures step.t in s'.threads && Moves(s, s.threads[step.t], s'.threads[step.t]) && FoundOk(s', s'.threads[step.t])
    ensures s'.facts == s.facts && s'.overlay == s.overlay
  {
    hide Partition, Visible, Matches, Commits, AfterCommit, IsAsserted;
  }

  lemma OtherMoves(s: State, step: Step, s': State)
    requires Next(s, step, s') && !IsLookStep(step) && !step.Wait?
    ensures step.t in s'.threads && Moves(s, s.threads[step.t], s'.threads[step.t]) && !s'.threads[step.t].Consuming?
    ensures (s'.facts == s.facts && s'.overlay == s.overlay) || HoldsWriter(s.threads[step.t])
  {
    hide Partition, Visible, Matches, AfterCommit, IsAsserted, TakesOne, AddsOne, Undoes;
  }

  predicate OthersMove(p: Place, q: Place) {
    q == p || (p.Waiting? && q == Wanting(p.pattern, p.consume))
  }

  lemma OthersStay(s: State, step: Step, s': State)
    requires Next(s, step, s')
    ensures forall u | u in s.threads && u != step.t :: u in s'.threads && OthersMove(s.threads[u], s'.threads[u])
    ensures s'.threads.Keys == s.threads.Keys
  {
    hide Partition, Visible, Matches, Commits, AfterCommit, IsAsserted, Woken;
    if step.Broadcast? {
      WokenStay(s.threads, s.threads[step.t].todo[0]);
    } else {
      OthersUntouched(s, step, s');
    }
  }

  lemma OthersUntouched(s: State, step: Step, s': State)
    requires Next(s, step, s') && !step.Broadcast?
    ensures forall u | u in s.threads && u != step.t :: u in s'.threads && s'.threads[u] == s.threads[u]
    ensures s'.threads.Keys == s.threads.Keys
  {
    hide Partition, Visible, Matches, Commits, AfterCommit, IsAsserted, Woken;
    assert step.t in s'.threads && s'.threads == s.threads[step.t := s'.threads[step.t]];
  }

  lemma WokenStay(threads: map<Thread, Place>, k: nat)
    ensures Woken(threads, k).Keys == threads.Keys
    ensures forall u | u in threads :: OthersMove(threads[u], Woken(threads, k)[u])
  {
    hide Partition;
  }

  lemma FoundStep(s: State, step: Step, s': State)
    requires LocksOk(s) && AllFound(s) && Next(s, step, s')
    ensures AllFound(s')
  {
    OthersStay(s, step, s');
    if IsLookStep(step) || step.Wait? { LookMoves(s, step, s'); } else { OtherMoves(s, step, s'); }
    hide LocksOk, StepFrom, FoundOk;
    forall u | u in s'.threads ensures FoundOk(s', s'.threads[u]) {
      if u != step.t {
        if s.threads[u].Consuming? && HoldsWriter(s.threads[step.t]) { ConsumerIsWriter(s, u, step.t); }
        assert FoundOk(s, s.threads[u]);
        StillFound(s, s.threads[u], s', s'.threads[u]);
      } else {
        NotConsuming(s', s'.threads[u]);
      }
    }
  }

  lemma NotConsuming(s: State, p: Place)
    ensures !p.Consuming? ==> FoundOk(s, p)
  {
  }

  lemma StillFound(s: State, p: Place, s': State, q: Place)
    requires FoundOk(s, p) && OthersMove(p, q) && (p.Consuming? ==> s'.facts == s.facts && s'.overlay == s.overlay)
    ensures FoundOk(s', q)
  {
  }

  // ---- whole runs ----

  lemma {:induction false} RunFound(states: seq<State>, steps: seq<Step>, n: nat)
    requires Run(states, steps) && n < |states|
    ensures LocksOk(states[n]) && AllFound(states[n])
  {
    if n == 0 {
      assert LocksOk(states[0]);
    } else {
      RunFound(states, steps, n - 1);
      assert Next(states[n - 1], steps[n - 1], states[n]);
      hide Run, Next, LocksOk, AllFound;
      LocksNext(states[n - 1], steps[n - 1], states[n]);
      FoundStep(states[n - 1], steps[n - 1], states[n]);
    }
  }

  /** A thread that looks goes on only with a visible tuple: `rd` returns, and `in` consumes, only where one matches;
      where none does, the look ends in waiting. Said of the places of one thread before and after any step of a run. */
  lemma GoesOnWithTuple(states: seq<State>, steps: seq<Step>, n: nat, t: Thread)
    requires Run(states, steps) && n < |steps| && t in states[n].threads
    ensures t in states[n + 1].threads
    ensures var (s, p, q) := (states[n], states[n].threads[t], states[n + 1].threads[t]);
            && (q.Consuming? ==> IsAsserted(states[n + 1].facts, q.found) && Matches(q.pattern, Texts(q.found)))
            && (p.Checking? && q != p ==> q == if s.closed then Outside else Looking(p.pattern, p.consume))
            && (q.Consuming? && q != p ==> p == Searching(q.pattern) && Visible(s.facts, q.pattern))
            && (p.Looking? && !p.consume && q == Outside ==> Visible(s.facts, p.pattern))
            && (p.Looking? && q != p ==> q in {Outside, Missed(p.pattern, false), Searching(p.pattern)})
            && ((p.Looking? || p.Searching?) && !Visible(s.facts, p.pattern) && q != p ==>
                  q in {Searching(p.pattern), Missed(p.pattern, p.Searching? || p.consume)})
            && (p.Searching? && Visible(s.facts, p.pattern) && q != p ==> q.Consuming? && q.pattern == p.pattern)
            && (p.Missed? && q != p ==> q == Waiting(p.pattern, p.consume))
            && (p.Consuming? && q != p ==> steps[n].t == t && (q.Notifying? || (q == Outside && p.found !in s.overlay)))
  {
    RunFound(states, steps, n + 1);
    var s, step, s' := states[n], steps[n], states[n + 1];
    assert Next(s, step, s');
    hide Run, LocksOk, StepFrom;
    OthersStay(s, step, s');
    if t == step.t {
      if IsLookStep(step) || step.Wait? { LookMoves(s, step, s'); } else { OtherMoves(s, step, s'); }
    }
  }

  /** A look has the store to itself: no transaction is open but that of `in` itself, and what the store holds changes only
      when its writer commits. */
  lemma LooksAtRest(states: seq<State>, steps: seq<Step>, n: nat, t: Thread)
    requires Run(states, steps) && n < |steps| && t in states[n].threads
    ensures t in states[n + 1].threads
    ensures var (s, p, q) := (states[n], states[n].threads[t], states[n + 1].threads[t]);
            && (p.Looking? && q != p ==> s.writer.None?) && (p.Searching? ==> s.writer == Some(t))
    ensures states[n + 1].facts != states[n].facts || states[n + 1].overlay != states[n].overlay ==>
              steps[n].Commit? && states[n].writer == Some(steps[n].t)
  {
    RunFound(states, steps, n);
    var s, step, s' := states[n], steps[n], states[n + 1];
    assert Next(s, step, s');
    hide Run;
    OthersStay(s, step, s');
    hide Partition, Visible, Matches, AfterCommit, IsAsserted, TakesOne, AddsOne, Undoes;
    assert t == step.t && s.threads[t].Looking? && s'.threads[t] != s.threads[t] ==> s.writer.None?;
  }

  /** Closing is for good: no operation begins any more, and a thread that takes its partition's lock gives up. */
  lemma {:induction false} ClosedForGood(states: seq<State>, steps: seq<Step>, m: nat, n: nat)
    requires Run(states, steps) && m < n <= |steps| && steps[m].Close?
    ensures states[n].closed && (n < |steps| ==> !steps[n].Start?)
    ensures n < |steps| && steps[n].CheckClosed? ==> steps[n].t in states[n + 1].threads && states[n + 1].threads[steps[n].t] == Outside
  {
    RunFound(states, steps, n - 1);
    assert Next(states[n - 1], steps[n - 1], states[n]);
    assert n < |steps| ==> Next(states[n], steps[n], states[n + 1]);
    hide Partition, Visible, Matches, Commits, AfterCommit, Woken;
    if m < n - 1 { ClosedForGood(states, steps, m, n - 1); }
  }

  // ---- occurrences ----

  /** How often the tuple of a fact is in the space. */
  function Occurs(s: State, f: Fact): nat {
    if IsAsserted(s.facts, f) then Occurrences(s.overlay, f) else 0
  }

  predicate CountsTwo(overlay: Overlay) {
    forall f | f in overlay :: overlay[f] >= 2
  }

  /** `in` commits with this tuple taken. */
  predicate Takes(s: State, step: Step, f: Fact) {
    step.Commit? && step.t in s.threads && s.threads[step.t].Consuming? && s.threads[step.t].taken && s.threads[step.t].found == f
  }

  /** `out`, or a transaction of the store's own, commits. */
  predicate Writes(s: State, step: Step) {
    step.Commit? && step.t in s.threads && s.threads[step.t].Writing?
  }

  /** A commit of `in` takes one occurrence of the tuple it found, and of no other. */
  lemma TakeEffect(facts: Facts, overlay: Overlay, f: Fact, taken: bool, after: Facts, overlay': Overlay, entries: seq<Entry>, g: Fact)
    requires TakesOne(facts, overlay, f, taken, after, overlay', entries) && IsAsserted(facts, f) && CountsTwo(overlay)
    requires f in overlay ==> taken
    ensures CountsTwo(overlay')
    ensures (if IsAsserted(after, g) then Occurrences(overlay', g) else 0) ==
            (if IsAsserted(facts, g) then Occurrences(overlay, g) else 0) - if taken && g == f then 1 else 0
  {
    hide Undoes;
    if g !in facts.Keys + after.Keys { assert !IsAsserted(after, g) && !IsAsserted(facts, g); }
  }

  /** A commit of `out` adds one occurrence of one tuple. */
  lemma OutEffect(facts: Facts, overlay: Overlay, f: Fact, after: Facts, overlay': Overlay, entries: seq<Entry>, g: Fact)
    requires AddsOne(facts, overlay, f, after, overlay', entries) && CountsTwo(overlay)
    ensures CountsTwo(overlay')
    ensures (if IsAsserted(after, g) then Occurrences(overlay', g) else 0) ==
            (if IsAsserted(facts, g) then Occurrences(overlay, g) else 0) + if g == f then 1 else 0
  {
    hide Undoes;
    if g !in facts.Keys + after.Keys { assert !IsAsserted(after, g) && !IsAsserted(facts, g); }
  }

  /** What a step does to the number of occurrences, unless it is a commit of `out` or of the store. */
  lemma OccursStep(s: State, step: Step, s': State, f: Fact)
    requires LocksOk(s) && AllFound(s) && CountsTwo(s.overlay) && Next(s, step, s')
    ensures CountsTwo(s'.overlay)
    ensures !Writes(s, step) ==> Occurs(s', f) == Occurs(s, f) - if Takes(s, step, f) then 1 else 0
    ensures Writes(s, step) ==> !Takes(s, step, f)
  {
    if step.Commit? && s.threads[step.t].Consuming? {
      var p := s.threads[step.t];
      assert FoundOk(s, p);
      TakeEffect(s.facts, s.overlay, p.found, p.taken, step.after, step.overlay, step.entries, f);
    } else if step.Commit? {
      WriterCounts(s, step);
    } else {
      NoCommit(s, step, s');
    }
  }

  lemma NoCommit(s: State, step: Step, s': State)
    requires Next(s, step, s') && !step.Commit?
    ensures s'.facts == s.facts && s'.overlay == s.overlay
  {
    hide Partition, Visible, Matches, Commits, AfterCommit, IsAsserted, Woken;
  }

  /** `out` commits this tuple. */
  predicate PutsOut(s: State, step: Step, f: Fact) {
    && Writes(s, step) && s.threads[step.t].subject == Some(f.s.text)
    && AddsOne(s.facts, s.overlay, f, step.after, step.overlay, step.entries)
  }

  lemma WriterCounts(s: State, step: Step)
    requires CountsTwo(s.overlay) && Writes(s, step)
    requires Commits(s.facts, s.overlay, s.threads[step.t], step.after, step.overlay, step.entries)
    ensures CountsTwo(step.overlay)
    ensures s.threads[step.t].subject.Some? ==> exists f: Fact :: PutsOut(s, step, f)
  {
    hide Undoes;
    if s.threads[step.t].subject.Some? {
      var f: Fact :| f.s.text == s.threads[step.t].subject.value && AddsOne(s.facts, s.overlay, f, step.after, step.overlay, step.entries);
      assert PutsOut(s, step, f);
      OutEffect(s.facts, s.overlay, f, step.after, step.overlay, step.entries, f);
    }
  }

  lemma {:induction false} RunCounts(states: seq<State>, steps: seq<Step>, n: nat)
    requires Run(states, steps) && n < |states|
    ensures CountsTwo(states[n].overlay)
  {
    hide Next, LocksOk, AllFound, CountsTwo;
    if n == 0 {
      NothingCounted(states[0].overlay);
    } else {
      hide Run, Occurs, Takes, Writes;
      RunCounts(states, steps, n - 1);
      RunFound(states, steps, n - 1);
      RunIs(states, steps, n);
      var f: Fact :| true;
      OccursStep(states[n - 1], steps[n - 1], states[n], f);
    }
  }

  lemma NothingCounted(overlay: Overlay)
    requires overlay == map[]
    ensures CountsTwo(overlay)
  {
  }

  lemma RunIs(states: seq<State>, steps: seq<Step>, n: nat)
    requires Run(states, steps)
    ensures |states| == |steps| + 1 && (0 < n <= |steps| ==> Next(states[n - 1], steps[n - 1], states[n]))
  {
  }

  /** How often the tuple was taken by `in` in the steps from `m` to `n`. */
  function TimesTaken(states: seq<State>, steps: seq<Step>, f: Fact, m: nat, n: nat): nat
    requires m <= n <= |steps| < |states|
  {
    if m == n then 0 else TimesTaken(states, steps, f, m, n - 1) + if Takes(states[n - 1], steps[n - 1], f) then 1 else 0
  }

  /** By how much commits of `out` and of the store have changed its occurrences. */
  function Written(states: seq<State>, steps: seq<Step>, f: Fact, m: nat, n: nat): int
    requires m <= n <= |steps| < |states|
  {
    if m == n then 0
    else Written(states, steps, f, m, n - 1)
         + if Writes(states[n - 1], steps[n - 1]) then Occurs(states[n], f) - Occurs(states[n - 1], f) else 0
  }

  /** Over any stretch of a run, what was there and what was written is what `in` took and what is left: no two calls
      of `in` take the same occurrence. */
  lemma {:induction false} TakenOnce(states: seq<State>, steps: seq<Step>, f: Fact, m: nat, n: nat)
    requires Run(states, steps) && m <= n <= |steps|
    ensures Occurs(states[m], f) + Written(states, steps, f, m, n) == TimesTaken(states, steps, f, m, n) + Occurs(states[n], f)
  {
    hide Run, Next, LocksOk, AllFound, Takes, Writes, Occurs, CountsTwo;
    RunIs(states, steps, n);
    if m < n {
      TakenOnce(states, steps, f, m, n - 1);
      RunFound(states, steps, n - 1);
      RunCounts(states, steps, n - 1);
      OccursStep(states[n - 1], steps[n - 1], states[n], f);
    }
  }

  /** `out` adds one occurrence of one tuple with its subject and changes no other. */
  lemma OutAddsOne(states: seq<State>, steps: seq<Step>, n: nat) returns (f: Fact)
    requires Run(states, steps) && n < |steps| && Writes(states[n], steps[n]) && states[n].threads[steps[n].t].subject.Some?
    ensures f.s.text == states[n].threads[steps[n].t].subject.value
    ensures forall g :: Occurs(states[n + 1], g) == Occurs(states[n], g) + if g == f then 1 else 0
  {
    RunCounts(states, steps, n);
    var s, step := states[n], steps[n];
    assert Next(s, step, states[n + 1]);
    WriterCounts(s, step);
    f :| PutsOut(s, step, f);
    hide Run, Commits, AddsOne;
    forall g ensures Occurs(states[n + 1], g) == Occurs(s, g) + if g == f then 1 else 0 {
      OutEffect(s.facts, s.overlay, f, step.after, step.overlay, step.entries, g);
    }
  }
}
