/** Epoch-based reclamation as atomic steps under sequential consistency: any number of reader threads and one
    writer (include/urcu.h). */
module Epochs {
  type Thread = nat
  type Object = nat

  const MAX_THREADS := 64

  datatype Slot = Slot(epoch: nat, active: bool)

  /** Where a registered thread is. `Loaded` and `Stored` are inside urcu_read_lock, `Leaving` inside
      urcu_unregister_thread. */
  datatype Place = Outside | Loaded(epoch: nat) | Stored(epoch: nat) | Inside | Leaving
  datatype Reader = Reader(idx: nat, depth: nat, place: Place, held: set<Object>)

  datatype Retired = Retired(obj: Object, epoch: nat)

  /** Where the writer is: between operations, between queueing an object and advancing the epoch, reading slot
      `i` in urcu_gc, or compacting the queue with `k` entries read and `w` of them kept. */
  datatype Phase = CheckSlot | CheckActive | ReadEpoch
  datatype Writer = Ready | Bumping | Scanning(i: nat, oldest: nat, phase: Phase) | Reclaiming(k: nat, w: nat, oldest: nat)

  datatype State = State(global: nat, slots: seq<Slot>, readers: map<Thread, Reader>, linked: set<Object>,
                         unlinked: set<Object>, queue: seq<Retired>, freed: set<Object>, writer: Writer)

  datatype Step =
    | Register(t: Thread, idx: nat)
    | LockLoad(t: Thread) | LockEpoch(t: Thread) | LockActive(t: Thread) | LockNested(t: Thread)
    | UnlockNested(t: Thread) | UnlockLast(t: Thread)
    | UnregisterInactive(t: Thread) | UnregisterFree(t: Thread)
    | Acquire(t: Thread, obj: Object)
    | Link(obj: Object) | Unlink(obj: Object) | Retire(obj: Object) | Bump
    | GcStart | GcSlot | GcActive | GcEpoch | GcReclaim | GcEntry | GcDone

  predicate Init(s: State) {
    && s.global == 1 && s.readers == map[] && s.linked == {} && s.unlinked == {} && s.queue == [] && s.freed == {}
    && s.writer == Ready && s.slots == seq(MAX_THREADS, _ => Slot(0, false))
  }

  /** The objects still waiting in the queue while it is compacted in place. */
  function Waiting(s: State): seq<Retired> {
    if s.writer.Reclaiming? && s.writer.w <= s.writer.k <= |s.queue|
    then s.queue[..s.writer.w] + s.queue[s.writer.k..] else s.queue
  }

  function Update(s: State, t: Thread, r: Reader): State {
    s.(readers := s.readers[t := r])
  }

  /** One atomic step of a thread that is registered. */
  predicate ReaderStep(s: State, step: Step, t: Thread, s': State)
    requires t in s.readers && s.readers[t].idx < |s.slots|
  {
    var r := s.readers[t];
    var slot := s.slots[r.idx];
    match step
    case LockLoad(_) =>
      r.place == Outside && s' == Update(s, t, r.(depth := r.depth + 1, place := Loaded(s.global)))
    case LockEpoch(_) =>
      r.place.Loaded?
      && s' == Update(s, t, r.(place := Stored(r.place.epoch))).(slots := s.slots[r.idx := slot.(epoch := r.place.epoch)])
    case LockActive(_) =>
      r.place.Stored? && s' == Update(s, t, r.(place := Inside)).(slots := s.slots[r.idx := slot.(active := true)])
    case LockNested(_) =>
      r.place == Inside && s' == Update(s, t, r.(depth := r.depth + 1))
    case UnlockNested(_) =>
      r.place == Inside && r.depth > 1 && s' == Update(s, t, r.(depth := r.depth - 1))
    case UnlockLast(_) =>
      r.place == Inside && r.depth == 1
      && s' == Update(s, t, r.(depth := 0, place := Outside, held := {})).(slots := s.slots[r.idx := slot.(active := false)])
    case UnregisterInactive(_) =>
      (r.place == Inside || r.place == Outside)
      && s' == Update(s, t, r.(place := Leaving, held := {})).(slots := s.slots[r.idx := slot.(active := false)])
    case UnregisterFree(_) =>
      r.place == Leaving
      && s' == s.(readers := s.readers - {t}, slots := s.slots[r.idx := slot.(epoch := 0)])
    case Acquire(_, o) =>
      r.place == Inside && o in s.linked && s' == Update(s, t, r.(held := r.held + {o}))
    case _ => false
  }

  /** One atomic step of the writer. */
  predicate WriterStep(s: State, step: Step, s': State) {
    match step
    case Link(o) =>
      s.writer == Ready && o !in s.linked + s.unlinked + s.freed && (forall e | e in s.queue :: e.obj != o)
      && s' == s.(linked := s.linked + {o})
    case Unlink(o) =>
      s.writer == Ready && o in s.linked && s' == s.(linked := s.linked - {o}, unlinked := s.unlinked + {o})
    case Retire(o) =>
      s.writer == Ready && o in s.unlinked
      && s' == s.(unlinked := s.unlinked - {o}, queue := s.queue + [Retired(o, s.global)], writer := Bumping)
    case Bump =>
      s.writer == Bumping && s' == s.(global := s.global + 1, writer := Ready)
    case GcStart =>
      s.writer == Ready && s' == s.(writer := Scanning(0, s.global, CheckSlot))
    case GcSlot =>
      s.writer.Scanning? && s.writer.phase == CheckSlot && s.writer.i < |s.slots|
      && s' == s.(writer := if s.slots[s.writer.i].epoch != 0 then s.writer.(phase := CheckActive)
                            else s.writer.(i := s.writer.i + 1))
    case GcActive =>
      s.writer.Scanning? && s.writer.phase == CheckActive && s.writer.i < |s.slots|
      && s' == s.(writer := if s.slots[s.writer.i].active then s.writer.(phase := ReadEpoch)
                            else s.writer.(i := s.writer.i + 1, phase := CheckSlot))
    case GcEpoch =>
      s.writer.Scanning? && s.writer.phase == ReadEpoch && s.writer.i < |s.slots|
      && var e := s.slots[s.writer.i].epoch;
         s' == s.(writer := Scanning(s.writer.i + 1, if e < s.writer.oldest then e else s.writer.oldest, CheckSlot))
    case GcReclaim =>
      s.writer.Scanning? && s.writer.phase == CheckSlot && s.writer.i == |s.slots|
      && s' == s.(writer := Reclaiming(0, 0, s.writer.oldest))
    case GcEntry =>
      s.writer.Reclaiming? && s.writer.w <= s.writer.k < |s.queue|
      && var e := s.queue[s.writer.k];
         if e.epoch < s.writer.oldest
         then s' == s.(freed := s.freed + {e.obj}, writer := s.writer.(k := s.writer.k + 1))
         else s' == s.(queue := s.queue[s.writer.w := e], writer := s.writer.(k := s.writer.k + 1, w := s.writer.w + 1))
    case GcDone =>
      s.writer.Reclaiming? && s.writer.k == |s.queue| && s.writer.w <= s.writer.k
      && s' == s.(queue := s.queue[..s.writer.w], writer := Ready)
    case _ => false
  }

  predicate Next(s: State, step: Step, s': State) {
    if step.Register? then
      step.t !in s.readers && step.idx < |s.slots| && s.slots[step.idx] == Slot(0, false)
      && s' == s.(readers := s.readers[step.t := Reader(step.idx, 0, Outside, {})], slots := s.slots[step.idx := Slot(1, false)])
    else if step.LockLoad? || step.LockEpoch? || step.LockActive? || step.LockNested? || step.UnlockNested?
            || step.UnlockLast? || step.UnregisterInactive? || step.UnregisterFree? || step.Acquire? then
      step.t in s.readers && s.readers[step.t].idx < |s.slots| && ReaderStep(s, step, step.t, s')
    else
      WriterStep(s, step, s')
  }

  // ---- what every step keeps ----

  predicate SlotOf(s: State, t: Thread)
    requires t in s.readers
  {
    var r := s.readers[t];
    && r.idx < |s.slots| && s.slots[r.idx].epoch > 0
    && s.slots[r.idx].active == (r.place == Inside)
    && (r.place != Inside ==> r.held == {})
    && s.slots[r.idx].epoch <= s.global
    && (r.place.Loaded? || r.place.Stored? ==> 0 < r.place.epoch <= s.global)
    && (r.place.Stored? ==> s.slots[r.idx].epoch == r.place.epoch)
  }

  predicate OwnSlots(s: State) {
    && (forall t | t in s.readers :: SlotOf(s, t))
    && forall t, u | t in s.readers && u in s.readers && t != u :: s.readers[t].idx != s.readers[u].idx
  }

  predicate Apart(s: State) {
    && s.linked !! s.unlinked && s.linked !! s.freed && s.unlinked !! s.freed
    && (forall e | e in Waiting(s) :: e.obj !in s.linked + s.unlinked + s.freed && e.epoch <= s.global)
    && forall i, j | 0 <= i < j < |Waiting(s)| :: Waiting(s)[i].obj != Waiting(s)[j].obj
  }

  /** A held object is linked, about to be retired, or waits with an epoch not older than its holder's. */
  predicate HeldOk(s: State, t: Thread, o: Object)
    requires t in s.readers && s.readers[t].idx < |s.slots|
  {
    || o in s.linked || o in s.unlinked
    || exists e :: e in Waiting(s) && e.obj == o && s.slots[s.readers[t].idx].epoch <= e.epoch
  }

  /** The collector has seen every holder that it must respect among the slots it has read. */
  predicate Respects(s: State, t: Thread, seen: nat, oldest: nat)
    requires t in s.readers
  {
    s.readers[t].idx < seen ==> forall e | e in Waiting(s) && e.obj in s.readers[t].held :: oldest <= e.epoch
  }

  predicate WriterOk(s: State) {
    match s.writer
    case Scanning(i, oldest, phase) =>
      && i <= |s.slots| && (phase != CheckSlot ==> i < |s.slots|) && forall t | t in s.readers :: Respects(s, t, i, oldest)
    case Reclaiming(k, w, oldest) =>
      && w <= k <= |s.queue| && forall t | t in s.readers :: Respects(s, t, |s.slots|, oldest)
    case _ => true
  }

  predicate Inv(s: State) {
    && |s.slots| == MAX_THREADS && s.global > 0 && OwnSlots(s) && Apart(s) && WriterOk(s)
    && forall t, o | t in s.readers && o in s.readers[t].held :: HeldOk(s, t, o)
  }

  /** No reader holds a freed object. */
  predicate Safe(s: State) {
    forall t | t in s.readers :: s.readers[t].held !! s.freed
  }

  lemma InvIsSafe(s: State)
    requires Inv(s)
    ensures Safe(s)
  {
  }

  lemma InitInv(s: State)
    requires Init(s)
    ensures Inv(s)
  {
  }

  lemma RegisterInv(s: State, step: Step, s': State)
    requires Inv(s) && Next(s, step, s') && step.Register?
    ensures Inv(s')
  {
    assert Waiting(s') == Waiting(s);
    forall t | t in s.readers ensures s.readers[t].idx != step.idx {
      assert SlotOf(s, t);
    }
    forall t | t in s'.readers ensures SlotOf(s', t) {
      if t != step.t { assert SlotOf(s, t); }
    }
    forall t, o | t in s'.readers && o in s'.readers[t].held ensures HeldOk(s', t, o) {
      assert HeldOk(s, t, o);
    }
    if s.writer.Scanning? {
      forall t | t in s'.readers ensures Respects(s', t, s.writer.i, s.writer.oldest) {
        if t != step.t { assert Respects(s, t, s.writer.i, s.writer.oldest); }
      }
    }
    if s.writer.Reclaiming? {
      forall t | t in s'.readers ensures Respects(s', t, |s.slots|, s.writer.oldest) {
        if t != step.t { assert Respects(s, t, |s.slots|, s.writer.oldest); }
      }
    }
  }

  predicate IsReaderStep(step: Step) {
    step.LockLoad? || step.LockEpoch? || step.LockActive? || step.LockNested? || step.UnlockNested?
    || step.UnlockLast? || step.UnregisterInactive? || step.UnregisterFree? || step.Acquire?
  }

  /** A reader's step changes only its own slot and what it holds; new objects it holds are linked. */
  lemma ReaderChanges(s: State, step: Step, t: Thread, s': State)
    requires Inv(s) && t in s.readers && s.readers[t].idx < |s.slots| && ReaderStep(s, step, t, s')
    ensures s'.global == s.global && s'.linked == s.linked && s'.unlinked == s.unlinked && s'.queue == s.queue
    ensures s'.freed == s.freed && s'.writer == s.writer && |s'.slots| == |s.slots|
    ensures forall i | 0 <= i < |s.slots| && i != s.readers[t].idx :: s'.slots[i] == s.slots[i]
    ensures s'.readers.Keys - {t} == s.readers.Keys - {t} && forall u | u in s.readers && u != t :: s'.readers[u] == s.readers[u]
    ensures t in s'.readers ==> s'.readers[t].idx == s.readers[t].idx && SlotOf(s', t)
    ensures t in s'.readers ==> forall o | o in s'.readers[t].held :: o in s.linked || o in s.readers[t].held
    ensures t in s'.readers && s'.readers[t].held != {} ==> s'.slots[s.readers[t].idx] == s.slots[s.readers[t].idx]
  {
    assert SlotOf(s, t);
  }

  lemma ReaderInv(s: State, step: Step, t: Thread, s': State)
    requires Inv(s) && t in s.readers && s.readers[t].idx < |s.slots| && ReaderStep(s, step, t, s')
    ensures Inv(s')
  {
    hide ReaderStep;
    ReaderChanges(s, step, t, s');
    assert Waiting(s') == Waiting(s);
    forall u | u in s'.readers ensures SlotOf(s', u) && (u != t ==> u in s.readers && s.readers[u].idx != s.readers[t].idx) {
      if u != t {
        assert u in s'.readers.Keys - {t};
        assert SlotOf(s, u);
      }
    }
    forall u, o | u in s'.readers && o in s'.readers[u].held ensures HeldOk(s', u, o) {
      ReaderHolds(s, t, s', u, o);
    }
    if s.writer.Scanning? {
      ReaderRespects(s, t, s', s.writer.i, s.writer.oldest);
    } else if s.writer.Reclaiming? {
      ReaderRespects(s, t, s', |s.slots|, s.writer.oldest);
    }
  }

  /** How a reader's step relates the two states. */
  predicate OnlyReader(s: State, t: Thread, s': State) {
    && t in s.readers && s.readers[t].idx < |s.slots|
    && s'.global == s.global && s'.linked == s.linked && s'.unlinked == s.unlinked
    && Waiting(s') == Waiting(s) && |s'.slots| == |s.slots|
    && (forall i | 0 <= i < |s.slots| && i != s.readers[t].idx :: s'.slots[i] == s.slots[i])
    && s'.readers.Keys - {t} == s.readers.Keys - {t} && (forall u | u in s.readers && u in s'.readers && u != t :: s'.readers[u] == s.readers[u])
    && (t in s'.readers ==> s'.readers[t].idx == s.readers[t].idx)
    && (t in s'.readers ==> forall o | o in s'.readers[t].held :: o in s.linked || o in s.readers[t].held)
    && (t in s'.readers && s'.readers[t].held != {} ==> s'.slots[s.readers[t].idx] == s.slots[s.readers[t].idx])
  }

  lemma ReaderHolds(s: State, t: Thread, s': State, u: Thread, o: Object)
    requires Inv(s) && OnlyReader(s, t, s') && u in s'.readers && o in s'.readers[u].held
    ensures s'.readers[u].idx < |s'.slots| && HeldOk(s', u, o)
  {
    hide Waiting;
    if u != t {
      assert u in s'.readers.Keys - {t};
      assert SlotOf(s, u) && HeldOk(s, u, o);
    } else if o !in s.linked {
      assert HeldOk(s, t, o);
    }
  }

  lemma ReaderRespects(s: State, t: Thread, s': State, seen: nat, oldest: nat)
    requires Inv(s) && OnlyReader(s, t, s') && forall u | u in s.readers :: Respects(s, u, seen, oldest)
    ensures forall u | u in s'.readers :: Respects(s', u, seen, oldest)
  {
    hide Waiting;
    forall u | u in s'.readers ensures Respects(s', u, seen, oldest) {
      if u != t { assert u in s'.readers.Keys - {t}; }
      assert Respects(s, u, seen, oldest);
    }
  }

  /** Linking, unlinking, retiring and advancing the epoch. */
  lemma UpdateInv(s: State, step: Step, s': State)
    requires Inv(s) && WriterStep(s, step, s') && (step.Link? || step.Unlink? || step.Retire? || step.Bump?)
    ensures Inv(s')
  {
    forall t | t in s'.readers ensures SlotOf(s', t) { assert SlotOf(s, t); }
    forall e | e in Waiting(s') ensures e in Waiting(s) || (step.Retire? && e == Retired(step.obj, s.global)) {
    }
    forall t, o | t in s'.readers && o in s'.readers[t].held ensures HeldOk(s', t, o) {
      assert SlotOf(s, t) && HeldOk(s, t, o);
      if step.Retire? {
        var e := Retired(step.obj, s.global);
        assert s'.queue[|s.queue|] == e && e in Waiting(s');
        assert forall d | d in s.queue :: d in s'.queue;
      }
    }
  }

  /** Reading the slots: whoever held a waiting object when its slot was read keeps the bound down. */
  lemma ScanInv(s: State, step: Step, s': State)
    requires Inv(s) && WriterStep(s, step, s') && (step.GcStart? || step.GcSlot? || step.GcActive? || step.GcEpoch? || step.GcReclaim?)
    ensures Inv(s')
  {
    assert Waiting(s') == Waiting(s) by { if step.GcReclaim? { assert s.queue[..0] + s.queue[0..] == s.queue; } }
    forall t | t in s'.readers ensures SlotOf(s', t) { assert SlotOf(s, t); }
    forall t, o | t in s'.readers && o in s'.readers[t].held ensures HeldOk(s', t, o) { assert HeldOk(s, t, o); }
    if s'.writer.Scanning? {
      forall t | t in s'.readers ensures Respects(s', t, s'.writer.i, s'.writer.oldest) {
        if s.writer.Scanning? {
          assert Respects(s, t, s.writer.i, s.writer.oldest);
          if s.readers[t].idx == s.writer.i && s'.writer.i > s.writer.i { SlotRead(s, t, s'.writer.oldest); }
        }
      }
    } else {
      forall t | t in s'.readers ensures Respects(s', t, |s.slots|, s'.writer.oldest) {
        assert Respects(s, t, s.writer.i, s.writer.oldest);
      }
    }
  }

  lemma SlotRead(s: State, t: Thread, oldest: nat)
    requires Inv(s) && t in s.readers && (s.readers[t].place != Inside || oldest <= s.slots[s.readers[t].idx].epoch)
    ensures forall e | e in Waiting(s) && e.obj in s.readers[t].held :: oldest <= e.epoch
  {
    hide Waiting;
    assert SlotOf(s, t);
    forall e | e in Waiting(s) && e.obj in s.readers[t].held ensures oldest <= e.epoch {
      assert HeldOk(s, t, e.obj);
      var d :| d in Waiting(s) && d.obj == e.obj && s.slots[s.readers[t].idx].epoch <= d.epoch;
      OneEntry(Waiting(s), d, e);
    }
  }

  lemma OneEntry(waiting: seq<Retired>, d: Retired, e: Retired)
    requires forall i, j | 0 <= i < j < |waiting| :: waiting[i].obj != waiting[j].obj
    requires d in waiting && e in waiting && d.obj == e.obj
    ensures d == e
  {
  }

  lemma Compacted(queue: seq<Retired>, w: nat, k: nat) returns (a: seq<Retired>, b: seq<Retired>)
    requires w <= k < |queue|
    ensures queue[..w] + queue[k..] == a + [queue[k]] + b && queue[..w] + queue[k + 1..] == a + b
    ensures queue[w := queue[k]][..w + 1] + queue[w := queue[k]][k + 1..] == a + [queue[k]] + b
  {
    a, b := queue[..w], queue[k + 1..];
    assert queue[k..] == [queue[k]] + b;
    assert queue[w := queue[k]][..w + 1] == a + [queue[k]] && queue[w := queue[k]][k + 1..] == b;
  }

  /** Compacting the queue in place: what waits shrinks by the entry that is freed. */
  lemma EntryWaiting(s: State, s': State) returns (a: seq<Retired>, b: seq<Retired>)
    requires Inv(s) && WriterStep(s, GcEntry, s')
    ensures var e := s.queue[s.writer.k];
            Waiting(s) == a + [e] + b && Waiting(s') == if e.epoch < s.writer.oldest then a + b else a + [e] + b
  {
    hide Inv;
    a, b := Compacted(s.queue, s.writer.w, s.writer.k);
  }

  lemma EntryInv(s: State, s': State)
    requires Inv(s) && WriterStep(s, GcEntry, s')
    ensures Inv(s')
  {
    var e := s.queue[s.writer.k];
    var a, b := EntryWaiting(s, s');
    hide Waiting;
    if e.epoch < s.writer.oldest {
      Dropped(a, e, b);
      FreedNotHeld(s, e);
      EntryFreed(s, s', e);
    } else {
      forall t | t in s'.readers ensures SlotOf(s', t) && Respects(s', t, |s.slots|, s.writer.oldest) {
        assert SlotOf(s, t) && Respects(s, t, |s.slots|, s.writer.oldest);
      }
      forall t, o | t in s'.readers && o in s'.readers[t].held ensures HeldOk(s', t, o) { assert HeldOk(s, t, o); }
    }
  }

  lemma Dropped(a: seq<Retired>, e: Retired, b: seq<Retired>)
    requires var all := a + [e] + b; forall i, j | 0 <= i < j < |all| :: all[i].obj != all[j].obj
    ensures forall i, j | 0 <= i < j < |a + b| :: (a + b)[i].obj != (a + b)[j].obj
    ensures forall d :: d in a + b <==> d in a + [e] + b && d.obj != e.obj
  {
    var all := a + [e] + b;
    assert all[|a|] == e;
    forall i | 0 <= i < |a + b| ensures (a + b)[i] == all[if i < |a| then i else i + 1] {
    }
    forall d | d in all && d.obj != e.obj ensures d in a + b {
      var i :| 0 <= i < |all| && all[i] == d;
      assert (a + b)[if i < |a| then i else i - 1] == d;
    }
  }

  /** No reader holds an object whose epoch lies below every active reader's. */
  lemma FreedNotHeld(s: State, e: Retired)
    requires Inv(s) && s.writer.Reclaiming? && e in Waiting(s) && e.epoch < s.writer.oldest
    ensures forall t | t in s.readers :: e.obj !in s.readers[t].held
  {
    hide Waiting;
    forall t | t in s.readers ensures e.obj !in s.readers[t].held {
      assert SlotOf(s, t) && Respects(s, t, |s.slots|, s.writer.oldest);
    }
  }

  lemma EntryFreed(s: State, s': State, e: Retired)
    requires Inv(s) && WriterStep(s, GcEntry, s') && e == s.queue[s.writer.k] && e.epoch < s.writer.oldest && e in Waiting(s)
    requires forall t | t in s.readers :: e.obj !in s.readers[t].held
    requires forall i, j | 0 <= i < j < |Waiting(s')| :: Waiting(s')[i].obj != Waiting(s')[j].obj
    requires forall d :: d in Waiting(s') <==> d in Waiting(s) && d.obj != e.obj
    ensures Inv(s')
  {
    hide Waiting;
    forall t | t in s'.readers ensures SlotOf(s', t) && Respects(s', t, |s.slots|, s.writer.oldest) {
      assert SlotOf(s, t) && Respects(s, t, |s.slots|, s.writer.oldest);
    }
    forall t, o | t in s'.readers && o in s'.readers[t].held ensures HeldOk(s', t, o) { assert HeldOk(s, t, o); }
  }

  lemma DoneInv(s: State, s': State)
    requires Inv(s) && WriterStep(s, GcDone, s')
    ensures Inv(s')
  {
    assert Waiting(s') == Waiting(s) by { assert s.queue[s.writer.k..] == []; }
    forall t | t in s'.readers ensures SlotOf(s', t) { assert SlotOf(s, t); }
    forall t, o | t in s'.readers && o in s'.readers[t].held ensures HeldOk(s', t, o) { assert HeldOk(s, t, o); }
  }

  lemma NextInv(s: State, step: Step, s': State)
    requires Inv(s) && Next(s, step, s')
    ensures Inv(s')
  {
    hide Inv, ReaderStep, WriterStep;
    if step.Register? {
      RegisterInv(s, step, s');
    } else if IsReaderStep(step) {
      ReaderInv(s, step, step.t, s');
    } else if step.Link? || step.Unlink? || step.Retire? || step.Bump? {
      UpdateInv(s, step, s');
    } else if step.GcEntry? {
      EntryInv(s, s');
    } else if step.GcDone? {
      DoneInv(s, s');
    } else {
      ScanInv(s, step, s');
    }
  }

  // ---- whole runs ----

  predicate Run(states: seq<State>, steps: seq<Step>) {
    && |states| == |steps| + 1 && Init(states[0])
    && forall i {:trigger steps[i]} | 0 <= i < |steps| :: Next(states[i], steps[i], states[i + 1])
  }

  lemma {:induction false} RunInv(states: seq<State>, steps: seq<Step>, n: nat)
    requires Run(states, steps) && n < |states|
    ensures Inv(states[n])
  {
    hide Inv, Next, Init;
    if n == 0 {
      InitInv(states[0]);
    } else {
      RunInv(states, steps, n - 1);
      NextInv(states[n - 1], steps[n - 1], states[n]);
    }
  }

  /** In no run is an object freed while a reader that acquired it is still in the same critical section. */
  lemma RunSafe(states: seq<State>, steps: seq<Step>)
    requires Run(states, steps)
    ensures forall n | 0 <= n < |states| :: Safe(states[n])
  {
    forall n | 0 <= n < |states| ensures Safe(states[n]) {
      RunInv(states, steps, n);
      InvIsSafe(states[n]);
    }
  }

  /** Nor is an object ever freed twice: one that is freed is not waiting any more. */
  lemma RunFreesOnce(states: seq<State>, steps: seq<Step>)
    requires Run(states, steps)
    ensures forall n, e | 0 <= n < |states| && e in Waiting(states[n]) :: e.obj !in states[n].freed
  {
    hide Waiting;
    forall n, e | 0 <= n < |states| && e in Waiting(states[n]) ensures e.obj !in states[n].freed {
      RunInv(states, steps, n);
    }
  }

  // ---- nested sections, counted over the steps of a run ----

  predicate Locks(step: Step, t: Thread) {
    (step.LockLoad? || step.LockNested?) && step.t == t
  }

  predicate Unlocks(step: Step, t: Thread) {
    (step.UnlockNested? || step.UnlockLast?) && step.t == t
  }

  /** How many more times the thread has entered than left, from step `a` up to step `b`. */
  function Balance(steps: seq<Step>, t: Thread, a: nat, b: nat): int
    requires a <= b <= |steps|
  {
    if a == b then 0
    else Balance(steps, t, a, b - 1) + (if Locks(steps[b - 1], t) then 1 else 0) - if Unlocks(steps[b - 1], t) then 1 else 0
  }

  ghost predicate StaysRegistered(steps: seq<Step>, t: Thread, a: nat, b: nat)
    requires a <= b <= |steps|
  {
    forall k | a <= k < b :: steps[k] != UnregisterInactive(t)
  }

  lemma RunStep(states: seq<State>, steps: seq<Step>, n: nat)
    requires Run(states, steps) && n < |steps|
    ensures Next(states[n], steps[n], states[n + 1])
  {
  }

  /** A thread's depth and place go together. */
  predicate DepthOk(r: Reader) {
    match r.place
    case Outside => r.depth == 0
    case Inside => r.depth > 0
    case Leaving => true
    case _ => r.depth == 1
  }

  /** What a step does to a registered thread. */
  lemma ThreadStep(s: State, step: Step, s': State, t: Thread)
    requires Next(s, step, s') && t in s.readers
    ensures t !in s'.readers ==> s.readers[t].place == Leaving && !Locks(step, t) && !Unlocks(step, t)
    ensures t in s'.readers ==>
              var r, q := s.readers[t], s'.readers[t];
              && q.depth == r.depth + (if Locks(step, t) then 1 else 0) - (if Unlocks(step, t) then 1 else 0)
              && (r.place == Leaving ==> q.place == Leaving && !Locks(step, t) && !Unlocks(step, t))
              && (q.place == Leaving ==> r.place == Leaving || step == UnregisterInactive(t))
              && (forall o | o in r.held && o !in q.held :: (Unlocks(step, t) && q.depth == 0) || step == UnregisterInactive(t))
              && (step.Acquire? && step.t == t ==> step.obj in q.held)
              && (DepthOk(r) ==> DepthOk(q))
  {
    if step.Register? || (IsReaderStep(step) && step.t != t) {
    } else if !IsReaderStep(step) {
      WriterKeepsReaders(s, step, s');
    }
  }

  lemma StrangerStep(s: State, step: Step, s': State, t: Thread)
    requires Next(s, step, s') && t !in s.readers
    ensures !Locks(step, t) && !Unlocks(step, t)
    ensures t in s'.readers ==> s'.readers[t].depth == 0 && s'.readers[t].place == Outside
  {
    if !step.Register? && !IsReaderStep(step) { WriterKeepsReaders(s, step, s'); }
  }

  lemma WriterKeepsReaders(s: State, step: Step, s': State)
    requires WriterStep(s, step, s')
    ensures s'.readers == s.readers && s'.slots == s.slots
  {
  }

  /** The recorded depth never falls behind. */
  lemma {:induction false} DepthCovers(states: seq<State>, steps: seq<Step>, t: Thread, a: nat, n: nat)
    requires Run(states, steps) && a <= n <= |steps| && StaysRegistered(steps, t, a, n)
    ensures var r := states[n].readers;
            if t in r then Balance(steps, t, a, n) <= r[t].depth && (r[t].place == Leaving ==> Balance(steps, t, a, n) <= 0)
            else Balance(steps, t, a, n) <= 0
  {
    hide Next, Locks, Unlocks, Init;
    if a < n {
      DepthCovers(states, steps, t, a, n - 1);
      RunStep(states, steps, n - 1);
      if t in states[n - 1].readers {
        ThreadStep(states[n - 1], steps[n - 1], states[n], t);
      } else {
        StrangerStep(states[n - 1], steps[n - 1], states[n], t);
      }
    }
  }

  /** While the thread has entered more often than left, it holds on to what it acquired. */
  lemma {:induction false} StillHeld(states: seq<State>, steps: seq<Step>, t: Thread, o: Object, a: nat, m: nat, n: nat)
    requires Run(states, steps) && a <= m < n <= |steps| && steps[m] == Acquire(t, o) && StaysRegistered(steps, t, a, n)
    requires forall k | m < k <= n :: Balance(steps, t, a, k) > 0
    ensures t in states[n].readers && o in states[n].readers[t].held
  {
    hide Next, Locks, Unlocks, Init, Balance;
    RunStep(states, steps, n - 1);
    DepthCovers(states, steps, t, a, n);
    if m + 1 < n { StillHeld(states, steps, t, o, a, m, n - 1); } else { AcquirerIsIn(states[m], t, o, states[n]); }
    ThreadStep(states[n - 1], steps[n - 1], states[n], t);
  }

  lemma AcquirerIsIn(s: State, t: Thread, o: Object, s': State)
    requires Next(s, Acquire(t, o), s')
    ensures t in s.readers && t in s'.readers
  {
  }

  /** What a thread acquired is not freed while it has entered its section, nested or not, more often than left. */
  lemma SectionSafe(states: seq<State>, steps: seq<Step>, t: Thread, o: Object, a: nat, m: nat, n: nat)
    requires Run(states, steps) && a <= m < n <= |steps| && steps[m] == Acquire(t, o) && StaysRegistered(steps, t, a, n)
    requires forall k | m < k <= n :: Balance(steps, t, a, k) > 0
    ensures o !in states[n].freed
  {
    hide Run;
    StillHeld(states, steps, t, o, a, m, n);
    RunSafe(states, steps) by { RunLength(states, steps); }
    RunLength(states, steps);
    assert Safe(states[n]);
  }

  lemma RunLength(states: seq<State>, steps: seq<Step>)
    requires Run(states, steps)
    ensures |states| == |steps| + 1 && states[0].writer == Ready
  {
  }

  /** Since it registered, a thread is outside exactly when it has left as often as it entered; its slot is active
      from the end of the first lock to the last unlock. */
  lemma {:induction false} NestingIs(states: seq<State>, steps: seq<Step>, t: Thread, a: nat, n: nat)
    requires Run(states, steps) && a < n <= |steps| && steps[a].Register? && steps[a].t == t && StaysRegistered(steps, t, a, n)
    ensures t in states[n].readers
    ensures var r := states[n].readers[t];
            && r.depth == Balance(steps, t, a, n) && r.place != Leaving
            && (r.place == Outside <==> Balance(steps, t, a, n) == 0)
            && (r.place.Loaded? || r.place.Stored? ==> Balance(steps, t, a, n) == 1)
            && r.idx < |states[n].slots| && (states[n].slots[r.idx].active <==> r.place == Inside)
  {
    DepthIs(states, steps, t, a, n);
    hide Next, Locks, Unlocks, Init, Balance;
    RunInv(states, steps, n);
    SlotIs(states[n], t);
  }

  lemma SlotIs(s: State, t: Thread)
    requires Inv(s) && t in s.readers
    ensures s.readers[t].idx < |s.slots| && (s.slots[s.readers[t].idx].active <==> s.readers[t].place == Inside)
  {
    assert SlotOf(s, t);
  }

  lemma {:induction false} DepthIs(states: seq<State>, steps: seq<Step>, t: Thread, a: nat, n: nat)
    requires Run(states, steps) && a < n <= |steps| && steps[a].Register? && steps[a].t == t && StaysRegistered(steps, t, a, n)
    ensures t in states[n].readers && DepthOk(states[n].readers[t]) && states[n].readers[t].place != Leaving
    ensures states[n].readers[t].depth == Balance(steps, t, a, n)
  {
    hide Next, Init;
    RunStep(states, steps, n - 1);
    if a + 1 < n {
      DepthIs(states, steps, t, a, n - 1);
      hide Locks, Unlocks;
      ThreadStep(states[n - 1], steps[n - 1], states[n], t);
    } else {
      assert Balance(steps, t, a, a) == 0;
      Registered(states[a], steps[a], states[n]);
    }
  }

  lemma Registered(s: State, step: Step, s': State)
    requires Next(s, step, s') && step.Register?
    ensures step.t in s'.readers && s'.readers[step.t].depth == 0 && s'.readers[step.t].place == Outside
  {
  }

  // ---- what the collector frees ----

  /** The epoch that is read from the slot the collector is at. */
  function EpochRead(s: State): nat {
    if s.writer.Scanning? && s.writer.i < |s.slots| then s.slots[s.writer.i].epoch else 0
  }

  /** `x` lies before the epoch at which collection began, and before every reader's epoch it has read since. */
  ghost predicate OlderThanSeen(states: seq<State>, steps: seq<Step>, a: nat, n: nat, x: nat)
    requires a < n <= |steps| < |states|
  {
    x < states[a].global && forall j | a < j < n && steps[j].GcEpoch? :: x < EpochRead(states[j])
  }

  function Survivors(queue: seq<Retired>, bound: nat): seq<Retired> {
    if queue == [] then []
    else Survivors(queue[..|queue| - 1], bound)
         + if queue[|queue| - 1].epoch < bound then [] else [queue[|queue| - 1]]
  }

  function Outdated(queue: seq<Retired>, bound: nat): set<Object> {
    set e | e in queue && e.epoch < bound :: e.obj
  }

  /** What is known inside one collection. */
  ghost predicate Collecting(s: State, s0: State, bound: nat) {
    match s.writer
    case Scanning(_, oldest, _) => oldest == bound && s.queue == s0.queue && s.freed == s0.freed
    case Reclaiming(k, w, oldest) =>
      && oldest == bound && w <= k <= |s.queue| == |s0.queue|
      && s.queue[..w] == Survivors(s0.queue[..k], bound) && s.queue[k..] == s0.queue[k..]
      && s.freed == s0.freed + Outdated(s0.queue[..k], bound)
    case _ => false
  }

  lemma CollectingStep(s: State, step: Step, s': State, s0: State, bound: nat) returns (after: nat)
    requires Next(s, step, s') && Collecting(s, s0, bound) && !step.GcDone?
    ensures Collecting(s', s0, after)
    ensures after == if step.GcEpoch? && EpochRead(s) < bound then EpochRead(s) else bound
  {
    after := if step.GcEpoch? && EpochRead(s) < bound then EpochRead(s) else bound;
    if step.GcEntry? {
      EntryCollected(s, s', s0, bound);
    } else if step.GcReclaim? {
      assert s0.queue[..0] == [] && s.queue[..0] == [] && s.queue[0..] == s.queue && s0.queue[0..] == s0.queue;
      assert Outdated([], bound) == {};
    } else if IsReaderStep(step) || step.Register? {
      ReaderKeepsWriter(s, step, s');
    }
  }

  lemma ReaderKeepsWriter(s: State, step: Step, s': State)
    requires Next(s, step, s') && (IsReaderStep(step) || step.Register?)
    ensures s'.writer == s.writer && s'.queue == s.queue && s'.freed == s.freed
  {
  }

  lemma SurvivorsStep(queue: seq<Retired>, k: nat, bound: nat)
    requires k < |queue|
    ensures Survivors(queue[..k + 1], bound) == Survivors(queue[..k], bound) + if queue[k].epoch < bound then [] else [queue[k]]
    ensures Outdated(queue[..k + 1], bound) == Outdated(queue[..k], bound) + if queue[k].epoch < bound then {queue[k].obj} else {}
  {
    assert queue[..k + 1][..k] == queue[..k];
    assert queue[..k + 1] == queue[..k] + [queue[k]];
  }

  lemma SameTail(a: seq<Retired>, b: seq<Retired>, k: nat)
    requires k < |a| == |b| && a[k..] == b[k..]
    ensures a[k] == b[k] && a[k + 1..] == b[k + 1..]
  {
    assert a[k..][0] == b[k..][0] && a[k..][1..] == b[k..][1..];
    assert a[k..][1..] == a[k + 1..] && b[k..][1..] == b[k + 1..];
  }

  lemma Written(queue: seq<Retired>, w: nat, k: nat, e: Retired)
    requires w <= k < |queue|
    ensures queue[w := e][..w + 1] == queue[..w] + [e] && queue[w := e][k + 1..] == queue[k + 1..]
  {
  }

  lemma EntryCollected(s: State, s': State, s0: State, bound: nat)
    requires WriterStep(s, GcEntry, s') && Collecting(s, s0, bound)
    ensures Collecting(s', s0, bound)
  {
    hide Survivors, Outdated;
    SameTail(s.queue, s0.queue, s.writer.k);
    SurvivorsStep(s0.queue, s.writer.k, bound);
    Written(s.queue, s.writer.w, s.writer.k, s.queue[s.writer.k]);
  }

  lemma {:induction false} Collects(states: seq<State>, steps: seq<Step>, a: nat, n: nat) returns (bound: nat)
    requires Run(states, steps) && a < n <= |steps| && steps[a].GcStart? && forall j | a < j < n :: !steps[j].GcDone?
    ensures Collecting(states[n], states[a], bound)
    ensures forall x: nat :: x < bound <==> OlderThanSeen(states, steps, a, n, x)
  {
    hide Collecting, Next;
    RunStep(states, steps, n - 1);
    if n == a + 1 {
      bound := states[a].global;
      CollectionStarts(states[a], states[n]);
    } else {
      var before := Collects(states, steps, a, n - 1);
      bound := CollectingStep(states[n - 1], steps[n - 1], states[n], states[a], before);
      forall x: nat ensures x < bound <==> OlderThanSeen(states, steps, a, n, x) {
        OneMoreRead(states, steps, a, n, x);
      }
    }
  }

  lemma CollectionStarts(s: State, s': State)
    requires Next(s, GcStart, s')
    ensures Collecting(s', s, s.global)
  {
  }

  lemma OneMoreRead(states: seq<State>, steps: seq<Step>, a: nat, n: nat, x: nat)
    requires a + 1 < n <= |steps| < |states|
    ensures OlderThanSeen(states, steps, a, n, x) <==>
            OlderThanSeen(states, steps, a, n - 1, x) && (steps[n - 1].GcEpoch? ==> x < EpochRead(states[n - 1]))
  {
  }

  /** The collector frees every entry older than the epoch it began in and than every reader it has seen, keeps the
      others in order, and frees nothing else. */
  lemma CollectorFrees(states: seq<State>, steps: seq<Step>, a: nat, b: nat)
    requires Run(states, steps) && a < b < |steps| && steps[a].GcStart? && steps[b].GcDone?
    requires forall j | a < j < b :: !steps[j].GcDone?
    ensures exists bound ::
      && (forall x: nat :: x < bound <==> OlderThanSeen(states, steps, a, b, x))
      && states[b + 1].queue == Survivors(states[a].queue, bound)
      && states[b + 1].freed == states[a].freed + Outdated(states[a].queue, bound)
  {
    var bound := Collects(states, steps, a, b);
    RunStep(states, steps, b);
    var s, s0 := states[b], states[a];
    assert s0.queue[..|s0.queue|] == s0.queue;
  }

  /** The readers whose epoch it reads were active when it looked. */
  lemma SeenWasActive(states: seq<State>, steps: seq<Step>, n: nat) returns (j: nat)
    requires Run(states, steps) && n < |steps| && steps[n].GcEpoch?
    ensures j < n && steps[j].GcActive? && states[j].writer.Scanning? && states[n].writer.Scanning?
    ensures states[j].writer.i == states[n].writer.i < |states[j].slots| && states[j].slots[states[j].writer.i].active
  {
    RunStep(states, steps, n);
    j := WasActive(states, steps, n);
  }

  lemma {:induction false} WasActive(states: seq<State>, steps: seq<Step>, n: nat) returns (j: nat)
    requires Run(states, steps) && n <= |steps| && states[n].writer.Scanning? && states[n].writer.phase == ReadEpoch
    ensures j < n && steps[j].GcActive? && states[j].writer.Scanning? && states[j].writer.i == states[n].writer.i
    ensures states[j].writer.i < |states[j].slots| && states[j].slots[states[j].writer.i].active
  {
    hide Run, Next;
    RunLength(states, steps);
    RunStep(states, steps, n - 1);
    WasLooking(states[n - 1], steps[n - 1], states[n]);
    if steps[n - 1].GcActive? {
      j := n - 1;
    } else {
      j := WasActive(states, steps, n - 1);
    }
  }

  lemma WasLooking(s: State, step: Step, s': State)
    requires Next(s, step, s') && s'.writer.Scanning? && s'.writer.phase == ReadEpoch
    ensures s.writer.Scanning? && s.writer.i == s'.writer.i
    ensures step.GcActive? ==> s.writer.i < |s.slots| && s.slots[s.writer.i].active
    ensures !step.GcActive? ==> s.writer == s'.writer
  {
    if IsReaderStep(step) || step.Register? { ReaderKeepsWriter(s, step, s'); }
  }

  /** Entries retired before the collector began are older than the epoch it began in. */
  lemma {:induction false} QueueIsOlder(states: seq<State>, steps: seq<Step>, n: nat)
    requires Run(states, steps) && n < |states|
    ensures states[n].writer == Ready ==> forall e | e in states[n].queue :: e.epoch < states[n].global
    ensures states[n].writer != Ready ==>
              forall e | e in states[n].queue :: e.epoch < states[n].global || (states[n].writer == Bumping && e.epoch == states[n].global)
  {
    if n > 0 {
      RunStep(states, steps, n - 1);
      QueueIsOlder(states, steps, n - 1);
      hide Run;
      OlderStep(states[n - 1], steps[n - 1], states[n]);
    }
  }

  lemma OlderStep(s: State, step: Step, s': State)
    requires Next(s, step, s')
    requires forall e | e in s.queue :: e.epoch < s.global || (s.writer == Bumping && e.epoch == s.global)
    ensures forall e | e in s'.queue :: e.epoch < s'.global || (s'.writer == Bumping && e.epoch == s'.global)
  {
    if step.Register? || IsReaderStep(step) {
      ReaderKeepsWriter(s, step, s');
      assert s'.global == s.global;
    }
  }

  /** A collection that meets no active reader frees all that was retired. */
  lemma QuietCollectionFreesAll(states: seq<State>, steps: seq<Step>, a: nat, b: nat)
    requires Run(states, steps) && a < b < |steps| && steps[a].GcStart? && steps[b].GcDone?
    requires forall j | a < j < b :: !steps[j].GcDone? && !steps[j].GcEpoch?
    ensures states[b + 1].queue == [] && forall e | e in states[a].queue :: e.obj in states[b + 1].freed
  {
    CollectorFrees(states, steps, a, b);
    var bound :|
      && (forall x: nat :: x < bound <==> OlderThanSeen(states, steps, a, b, x))
      && states[b + 1].queue == Survivors(states[a].queue, bound)
      && states[b + 1].freed == states[a].freed + Outdated(states[a].queue, bound);
    QueueIsOlder(states, steps, a);
    RunStep(states, steps, a);
    hide Run;
    forall e | e in states[a].queue ensures e.epoch < bound {
      assert OlderThanSeen(states, steps, a, b, e.epoch);
    }
    NoneSurvive(states[a].queue, bound);
  }

  lemma {:induction false} NoneSurvive(queue: seq<Retired>, bound: nat)
    requires forall e | e in queue :: e.epoch < bound
    ensures Survivors(queue, bound) == []
  {
    if queue != [] { NoneSurvive(queue[..|queue| - 1], bound); }
  }

  // ---- what a slot says ----

  predicate InSection(p: Place) {
    p.Loaded? || p.Stored? || p == Inside
  }

  /** The epoch a reader has published, or is about to. */
  function SectionEpoch(s: State, t: Thread): nat
    requires t in s.readers && s.readers[t].idx < |s.slots|
  {
    if s.readers[t].place.Loaded? then s.readers[t].place.epoch else s.slots[s.readers[t].idx].epoch
  }

  lemma SectionStep(s: State, step: Step, s': State, t: Thread)
    requires Inv(s) && Next(s, step, s') && t in s'.readers && s'.readers[t].idx < |s'.slots| && InSection(s'.readers[t].place)
    ensures t in s.readers && s.readers[t].idx < |s.slots|
    ensures step == LockLoad(t) ==> SectionEpoch(s', t) == s.global
    ensures step != LockLoad(t) ==> InSection(s.readers[t].place) && SectionEpoch(s', t) == SectionEpoch(s, t)
  {
    if !step.Register? && !IsReaderStep(step) { WriterKeepsReaders(s, step, s'); }
    assert SlotOf(s, t);
    if step.Register? || (IsReaderStep(step) && step.t != t) {
      assert step.Register? ==> s.slots[step.idx] == Slot(0, false);
      assert step.t in s.readers ==> SlotOf(s, step.t);
    }
  }

  /** Inside a section, a reader's slot holds the epoch that was current when its outermost lock began. */
  lemma {:induction false} SlotHoldsEpoch(states: seq<State>, steps: seq<Step>, t: Thread, n: nat) returns (a: nat)
    requires Run(states, steps) && n <= |steps| && t in states[n].readers && InSection(states[n].readers[t].place)
    ensures a < n && steps[a] == LockLoad(t) && forall k | a < k < n :: steps[k] != LockLoad(t)
    ensures states[n].readers[t].idx < |states[n].slots| && SectionEpoch(states[n], t) == states[a].global
  {
    RunLength(states, steps);
    hide Run, Inv, Next, InSection, SectionEpoch;
    RunInv(states, steps, n);
    SlotIs(states[n], t);
    RunInv(states, steps, n - 1);
    RunStep(states, steps, n - 1);
    SectionStep(states[n - 1], steps[n - 1], states[n], t);
    if steps[n - 1] == LockLoad(t) {
      a := n - 1;
    } else {
      a := SlotHoldsEpoch(states, steps, t, n - 1);
    }
  }

  predicate Taken(s: State, i: nat) {
    exists t :: t in s.readers && s.readers[t].idx == i
  }

  /** A slot that no registered thread has is free to be registered. */
  predicate FreeOk(s: State) {
    forall i | 0 <= i < |s.slots| && !Taken(s, i) :: s.slots[i] == Slot(0, false)
  }

  lemma IdxStays(s: State, step: Step, s': State, u: Thread)
    requires Next(s, step, s') && (step.Register? || IsReaderStep(step)) && u in s.readers
    ensures u in s'.readers ==> s'.readers[u].idx == s.readers[u].idx
    ensures u !in s'.readers ==> u == step.t && s.readers[u].place == Leaving
  {
  }

  lemma FreeStep(s: State, step: Step, s': State)
    requires Inv(s) && FreeOk(s) && Next(s, step, s')
    ensures FreeOk(s')
  {
    if !step.Register? && !IsReaderStep(step) {
      WriterKeepsReaders(s, step, s');
      forall i | 0 <= i < |s.slots| ensures Taken(s', i) <==> Taken(s, i) {
      }
    } else {
      var t := step.t;
      if t in s.readers { assert SlotOf(s, t); }
      forall i | 0 <= i < |s'.slots| && !Taken(s', i) ensures s'.slots[i] == Slot(0, false) {
        if Taken(s, i) {
          var u :| u in s.readers && s.readers[u].idx == i;
          IdxStays(s, step, s', u);
        } else {
          assert t in s'.readers ==> s'.readers[t].idx != i;
        }
      }
    }
  }

  lemma {:induction false} FreeSlotsAreFree(states: seq<State>, steps: seq<Step>, n: nat)
    requires Run(states, steps) && n < |states|
    ensures FreeOk(states[n])
  {
    if n > 0 {
      FreeSlotsAreFree(states, steps, n - 1);
      RunInv(states, steps, n - 1);
      RunStep(states, steps, n - 1);
      hide Run, Next, Inv, FreeOk;
      FreeStep(states[n - 1], steps[n - 1], states[n]);
    }
  }

  // ---- nobody waits ----

  /** The next step of a registered thread, which leaves its section if it is inside one. */
  function ReaderIntends(t: Thread, r: Reader): Step {
    match r.place
    case Outside => LockLoad(t)
    case Loaded(_) => LockEpoch(t)
    case Stored(_) => LockActive(t)
    case Inside => if r.depth > 1 then UnlockNested(t) else UnlockLast(t)
    case Leaving => UnregisterFree(t)
  }

  function WriterIntends(s: State): Step {
    match s.writer
    case Ready => GcStart
    case Bumping => Bump
    case Scanning(i, _, CheckSlot) => if i < |s.slots| then GcSlot else GcReclaim
    case Scanning(_, _, CheckActive) => GcActive
    case Scanning(_, _, ReadEpoch) => GcEpoch
    case Reclaiming(k, _, _) => if k < |s.queue| then GcEntry else GcDone
  }

  ghost predicate Enabled(s: State, step: Step) {
    exists s' :: Next(s, step, s')
  }

  lemma EnabledBy(s: State, step: Step, s': State)
    requires Next(s, step, s')
    ensures Enabled(s, step)
  {
  }

  lemma ReaderMoves(s: State, t: Thread)
    requires t in s.readers && s.readers[t].idx < |s.slots| && DepthOk(s.readers[t])
    ensures Enabled(s, ReaderIntends(t, s.readers[t]))
  {
    var r := s.readers[t];
    var slot, step := s.slots[r.idx], ReaderIntends(t, r);
    match r.place
    case Outside => EnabledBy(s, step, Update(s, t, r.(depth := r.depth + 1, place := Loaded(s.global))));
    case Loaded(e) => EnabledBy(s, step, Update(s, t, r.(place := Stored(e))).(slots := s.slots[r.idx := slot.(epoch := e)]));
    case Stored(_) => EnabledBy(s, step, Update(s, t, r.(place := Inside)).(slots := s.slots[r.idx := slot.(active := true)]));
    case Inside =>
      EnabledBy(s, step, if r.depth > 1 then Update(s, t, r.(depth := r.depth - 1))
                         else Update(s, t, r.(depth := 0, place := Outside, held := {})).(slots := s.slots[r.idx := slot.(active := false)]));
    case Leaving => EnabledBy(s, step, s.(readers := s.readers - {t}, slots := s.slots[r.idx := slot.(epoch := 0)]));
  }

  lemma WriterMoves(s: State)
    requires Inv(s)
    ensures Enabled(s, WriterIntends(s))
  {
    hide OwnSlots, Apart, HeldOk, Respects;
    var step := WriterIntends(s);
    match s.writer
    case Ready => EnabledBy(s, step, s.(writer := Scanning(0, s.global, CheckSlot)));
    case Bumping => EnabledBy(s, step, s.(global := s.global + 1, writer := Ready));
    case Scanning(i, oldest, CheckSlot) =>
      EnabledBy(s, step, if i == |s.slots| then s.(writer := Reclaiming(0, 0, oldest))
                         else s.(writer := if s.slots[i].epoch != 0 then s.writer.(phase := CheckActive) else s.writer.(i := i + 1)));
    case Scanning(i, oldest, CheckActive) =>
      EnabledBy(s, step, s.(writer := if s.slots[i].active then s.writer.(phase := ReadEpoch)
                                      else s.writer.(i := i + 1, phase := CheckSlot)));
    case Scanning(i, oldest, ReadEpoch) =>
      var e := s.slots[i].epoch;
      EnabledBy(s, step, s.(writer := Scanning(i + 1, if e < oldest then e else oldest, CheckSlot)));
    case Reclaiming(k, w, oldest) =>
      EnabledBy(s, step, if k == |s.queue| then s.(queue := s.queue[..w], writer := Ready)
                         else if s.queue[k].epoch < oldest then s.(freed := s.freed + {s.queue[k].obj}, writer := s.writer.(k := k + 1))
                         else s.(queue := s.queue[w := s.queue[k]], writer := s.writer.(k := k + 1, w := w + 1)));
  }

  lemma {:induction false} DepthsAreOk(states: seq<State>, steps: seq<Step>, n: nat)
    requires Run(states, steps) && n < |states|
    ensures forall t | t in states[n].readers :: DepthOk(states[n].readers[t])
  {
    if n > 0 {
      hide Next, DepthOk;
      DepthsAreOk(states, steps, n - 1);
      RunStep(states, steps, n - 1);
      hide Run;
      forall t | t in states[n].readers ensures DepthOk(states[n].readers[t]) {
        if t in states[n - 1].readers {
          ThreadStep(states[n - 1], steps[n - 1], states[n], t);
        } else {
          StrangerStep(states[n - 1], steps[n - 1], states[n], t);
          NewIsOk(states[n].readers[t]);
        }
      }
    }
  }

  lemma NewIsOk(r: Reader)
    requires r.depth == 0 && r.place == Outside
    ensures DepthOk(r)
  {
  }

  /** In every state of a run each registered thread and the writer can take their next step, whatever the others do. */
  lemma NobodyWaits(states: seq<State>, steps: seq<Step>, n: nat)
    requires Run(states, steps) && n < |states|
    ensures Enabled(states[n], WriterIntends(states[n]))
    ensures forall t | t in states[n].readers :: Enabled(states[n], ReaderIntends(t, states[n].readers[t]))
  {
    RunInv(states, steps, n);
    DepthsAreOk(states, steps, n);
    hide Run, Inv, Enabled, ReaderIntends, WriterIntends, DepthOk;
    WriterMoves(states[n]);
    forall t | t in states[n].readers ensures Enabled(states[n], ReaderIntends(t, states[n].readers[t])) {
      SlotIs(states[n], t);
      ReaderMoves(states[n], t);
    }
  }

  /** How many steps a collection can still take. */
  function StepsLeft(s: State): int {
    match s.writer
    case Scanning(i, _, phase) =>
      3 * (|s.slots| - i) - (match phase case CheckSlot => 0 case CheckActive => 1 case ReadEpoch => 2) + |s.queue| + 2
    case Reclaiming(k, _, _) => |s.queue| - k + 1
    case _ => 0
  }

  /** The steps from `a` on that the writer makes. */
  function WriterSteps(steps: seq<Step>, a: nat, b: nat): nat
    requires a <= b <= |steps|
  {
    if a == b then 0 else WriterSteps(steps, a, b - 1) + if steps[b - 1].Register? || IsReaderStep(steps[b - 1]) then 0 else 1
  }

  lemma LeftIsNat(s: State)
    requires Inv(s)
    ensures StepsLeft(s) >= 0 && |s.slots| == MAX_THREADS
  {
  }

  lemma LessLeft(s: State, step: Step, s': State)
    requires Inv(s) && Next(s, step, s') && (s.writer.Scanning? || s.writer.Reclaiming?)
    ensures if step.Register? || IsReaderStep(step) then StepsLeft(s') == StepsLeft(s) else StepsLeft(s') < StepsLeft(s)
    ensures step.GcDone? <==> s'.writer == Ready
  {
    if step.Register? || IsReaderStep(step) {
      if step.t in s.readers && IsReaderStep(step) { ReaderChanges(s, step, step.t, s'); }
    } else {
      hide OwnSlots, Apart, HeldOk, Respects;
    }
  }

  lemma {:induction false} CollectionShrinks(states: seq<State>, steps: seq<Step>, a: nat, n: nat)
    requires Run(states, steps) && a < n <= |steps| && steps[a].GcStart? && forall j | a < j < n :: !steps[j].GcDone?
    ensures states[n].writer.Scanning? || states[n].writer.Reclaiming?
    ensures StepsLeft(states[n]) + WriterSteps(steps, a + 1, n) <= 3 * MAX_THREADS + |states[a].queue| + 2
  {
    hide Run, Inv, Next, StepsLeft, IsReaderStep, WriterSteps;
    if n == a + 1 {
      FirstStep(states, steps, a);
    } else {
      RunLength(states, steps);
      RunInv(states, steps, n - 1);
      RunStep(states, steps, n - 1);
      CollectionShrinks(states, steps, a, n - 1);
      OneStepLess(states[n - 1], steps, a + 1, n - 1, states[n]);
    }
  }

  lemma FirstStep(states: seq<State>, steps: seq<Step>, a: nat)
    requires Run(states, steps) && a < |steps| && steps[a].GcStart?
    ensures states[a + 1].writer.Scanning?
    ensures StepsLeft(states[a + 1]) + WriterSteps(steps, a + 1, a + 1) <= 3 * MAX_THREADS + |states[a].queue| + 2
  {
    RunInv(states, steps, a);
    RunStep(states, steps, a);
    NoStepsYet(steps, a + 1);
    hide Run, Inv, Next, StepsLeft, WriterSteps;
    StepsAtStart(states[a], steps[a], states[a + 1]);
  }

  lemma NoStepsYet(steps: seq<Step>, n: nat)
    requires n <= |steps|
    ensures WriterSteps(steps, n, n) == 0
  {
  }

  lemma OneStepLess(s: State, steps: seq<Step>, a: nat, n: nat, s': State)
    requires a <= n < |steps| && Inv(s) && Next(s, steps[n], s') && (s.writer.Scanning? || s.writer.Reclaiming?) && !steps[n].GcDone?
    ensures s'.writer.Scanning? || s'.writer.Reclaiming?
    ensures StepsLeft(s') + WriterSteps(steps, a, n + 1) <= StepsLeft(s) + WriterSteps(steps, a, n)
  {
    hide Inv, Next, StepsLeft, IsReaderStep;
    LessLeft(s, steps[n], s');
    CollectsOn(s, steps[n], s');
  }

  lemma StepsAtStart(s: State, step: Step, s': State)
    requires Inv(s) && Next(s, step, s') && step.GcStart?
    ensures s'.writer.Scanning? && StepsLeft(s') == 3 * MAX_THREADS + |s.queue| + 2
  {
    hide OwnSlots, Apart, HeldOk, Respects;
  }

  lemma CollectsOn(s: State, step: Step, s': State)
    requires Next(s, step, s') && (s.writer.Scanning? || s.writer.Reclaiming?) && !step.GcDone?
    ensures s'.writer.Scanning? || s'.writer.Reclaiming?
  {
    if step.Register? || IsReaderStep(step) { ReaderKeepsWriter(s, step, s'); }
  }

  /** A collection ends after at most three steps for each slot and one for each entry, whatever the readers do. */
  lemma CollectionEnds(states: seq<State>, steps: seq<Step>, a: nat, n: nat)
    requires Run(states, steps) && a < n <= |steps| && steps[a].GcStart? && forall j | a < j < n :: !steps[j].GcDone?
    ensures WriterSteps(steps, a + 1, n) <= 3 * MAX_THREADS + |states[a].queue| + 2
  {
    CollectionShrinks(states, steps, a, n);
    RunInv(states, steps, n) by { RunLength(states, steps); }
    LeftIsNat(states[n]);
  }

  // ---- the life of an object ----

  datatype Life = Unknown | Linked | Unlinked | Retiring

  /** How far the first `n` steps have taken an object. */
  function LifeOf(steps: seq<Step>, o: Object, n: nat): Life
    requires n <= |steps|
  {
    if n == 0 then Unknown
    else match steps[n - 1]
      case Link(x) => if x == o then Linked else LifeOf(steps, o, n - 1)
      case Unlink(x) => if x == o then Unlinked else LifeOf(steps, o, n - 1)
      case Retire(x) => if x == o then Retiring else LifeOf(steps, o, n - 1)
      case _ => LifeOf(steps, o, n - 1)
  }

  predicate Awaits(s: State, o: Object) {
    exists e :: e in Waiting(s) && e.obj == o
  }

  /** Where an object is at that point of its life. */
  predicate IsAt(s: State, o: Object, life: Life) {
    match life
    case Unknown => o !in s.linked && o !in s.unlinked && o !in s.freed && !Awaits(s, o)
    case Linked => o in s.linked && o !in s.unlinked && o !in s.freed && !Awaits(s, o)
    case Unlinked => o !in s.linked && o in s.unlinked && o !in s.freed && !Awaits(s, o)
    case Retiring => o !in s.linked && o !in s.unlinked && (o in s.freed <==> !Awaits(s, o))
  }

  lemma Stays(s: State, s': State, o: Object, life: Life)
    requires IsAt(s, o, life) && s'.linked == s.linked && s'.unlinked == s.unlinked && s'.freed == s.freed
    requires Waiting(s') == Waiting(s)
    ensures IsAt(s', o, life)
  {
    hide Waiting;
    assert Awaits(s', o) <==> Awaits(s, o);
  }

  /** The steps that move no object. */
  lemma NothingMoves(s: State, step: Step, s': State)
    requires Inv(s) && Next(s, step, s') && !step.Link? && !step.Unlink? && !step.Retire? && !step.GcEntry?
    ensures s'.linked == s.linked && s'.unlinked == s.unlinked && s'.freed == s.freed && Waiting(s') == Waiting(s)
  {
    if step.Register? {
    } else if IsReaderStep(step) {
      ReaderChanges(s, step, step.t, s');
    } else {
      hide OwnSlots, Apart, HeldOk, Respects;
      if step.GcDone? { assert s.queue[s.writer.k..] == []; }
    }
  }

  lemma Moved(s: State, step: Step, s': State, o: Object, life: Life)
    requires Next(s, step, s') && (step.Link? || step.Unlink? || step.Retire?) && IsAt(s, o, life)
    ensures IsAt(s', o, if step.obj != o then life else if step.Link? then Linked else if step.Unlink? then Unlinked else Retiring)
  {
    if step.Retire? {
      assert s'.queue == s.queue + [Retired(step.obj, s.global)];
      assert Awaits(s', o) <==> Awaits(s, o) || step.obj == o by {
        assert s'.queue[|s.queue|].obj == step.obj;
        assert forall e | e in s.queue :: e in s'.queue;
      }
    } else {
      assert Waiting(s') == Waiting(s);
      assert Awaits(s', o) <==> Awaits(s, o);
    }
  }

  lemma EntryMoves(s: State, s': State, o: Object, life: Life)
    requires Inv(s) && Next(s, GcEntry, s') && IsAt(s, o, life)
    ensures IsAt(s', o, life)
  {
    var e := s.queue[s.writer.k];
    var a, b := EntryWaiting(s, s');
    assert Apart(s) && e in Waiting(s);
    hide Waiting, Inv, OwnSlots, HeldOk, Respects, WriterOk;
    if e.epoch < s.writer.oldest {
      Dropped(a, e, b);
      assert Awaits(s', o) <==> Awaits(s, o) && o != e.obj;
      assert Awaits(s, e.obj);
    } else {
      Stays(s, s', o, life);
    }
  }

  /** A new object is linked, then unlinked, then retired, and freed after that: at any point of a run an object is where
      the steps that name it have taken it, and once retired it waits in the queue until it is freed. */
  lemma {:induction false} LivesOnce(states: seq<State>, steps: seq<Step>, o: Object, n: nat)
    requires Run(states, steps) && n < |states|
    ensures IsAt(states[n], o, LifeOf(steps, o, n))
  {
    hide Next, IsAt, Inv;
    if n == 0 {
      NothingYet(states, steps, o);
    } else {
      LivesOnce(states, steps, o, n - 1);
      RunInv(states, steps, n - 1);
      RunStep(states, steps, n - 1);
      hide Run;
      var s, step, s', life := states[n - 1], steps[n - 1], states[n], LifeOf(steps, o, n - 1);
      if step.Link? || step.Unlink? || step.Retire? {
        Moved(s, step, s', o, life);
      } else if step.GcEntry? {
        EntryMoves(s, s', o, life);
      } else {
        NothingMoves(s, step, s');
        Stays(s, s', o, life);
      }
    }
  }

  lemma NothingYet(states: seq<State>, steps: seq<Step>, o: Object)
    requires Run(states, steps)
    ensures IsAt(states[0], o, Unknown)
  {
  }

  // ---- the order of steps ----

  /** While it bumps the epoch or collects, the writer does one thing after the other; between that it changes what is
      linked, retires, or starts to collect. */
  lemma WriterIsSequential(s: State, step: Step, s': State)
    requires Inv(s) && Next(s, step, s') && !step.Register? && !IsReaderStep(step)
    ensures if s.writer == Ready then step.Link? || step.Unlink? || step.Retire? || step.GcStart? else step == WriterIntends(s)
  {
    hide OwnSlots, Apart, HeldOk, Respects;
  }

  /** What a registered thread may do besides: at any place where it has finished a lock or unlock it may unregister, and
      inside a section lock again and acquire whatever is linked. */
  lemma ReaderChoices(s: State, t: Thread, o: Object)
    requires t in s.readers && s.readers[t].idx < |s.slots|
    ensures var p := s.readers[t].place;
            && (Enabled(s, UnregisterInactive(t)) <==> p == Inside || p == Outside)
            && (Enabled(s, LockNested(t)) <==> p == Inside)
            && (Enabled(s, Acquire(t, o)) <==> p == Inside && o in s.linked)
  {
    var r := s.readers[t];
    var slot := s.slots[r.idx];
    if r.place == Inside || r.place == Outside {
      EnabledBy(s, UnregisterInactive(t),
                Update(s, t, r.(place := Leaving, held := {})).(slots := s.slots[r.idx := slot.(active := false)]));
    }
    if r.place == Inside {
      EnabledBy(s, LockNested(t), Update(s, t, r.(depth := r.depth + 1)));
      if o in s.linked { EnabledBy(s, Acquire(t, o), Update(s, t, r.(held := r.held + {o}))); }
    }
  }

  /** And the writer, when it is not at work on the epoch: any new object may be linked, any linked one unlinked, and any
      unlinked one retired. */
  lemma WriterChoices(s: State, o: Object)
    requires s.writer == Ready
    ensures IsAt(s, o, Unknown) ==> Enabled(s, Link(o))
    ensures o in s.linked ==> Enabled(s, Unlink(o))
    ensures o in s.unlinked ==> Enabled(s, Retire(o))
  {
    if IsAt(s, o, Unknown) {
      forall e | e in s.queue ensures e.obj != o { assert e in Waiting(s); }
      EnabledBy(s, Link(o), s.(linked := s.linked + {o}));
    }
    if o in s.linked { EnabledBy(s, Unlink(o), s.(linked := s.linked - {o}, unlinked := s.unlinked + {o})); }
    if o in s.unlinked {
      EnabledBy(s, Retire(o), s.(unlinked := s.unlinked - {o}, queue := s.queue + [Retired(o, s.global)], writer := Bumping));
    }
  }
}
