// threads/synch.c: what becomes of lock_try_acquire in an interrupt handler where its condition fails.

module KernelHandlers {
  import opened Options
  import opened KernelModel
  import opened KernelSteps
  import opened KernelRuns

  // ---------- in any state ----------

  // A thread past the ASSERT of lock_acquire goes to sleep on a lock of which it is the holder ...
  lemma SleepsOnOwn(st: State, l: LockId)
    requires Inv(st) && st.pc[st.current].Acquiring? && st.pc[st.current].l == l && SemaAt(st, OfLock(l)).value == 1
    requires !Holds(st, st.current, l)
    ensures PcOf(HandlerTake(st, l), st.current).Acquiring? && HandlerTake(st, l).current == st.current
    ensures var t := st.current; var r := LockDown(HandlerTake(st, l));
            Holds(r, t, l) && OfLock(l) in r.semas && t in r.semas[OfLock(l)].waiters
  {
    var t, mid := st.current, HandlerGot(st, l);
    assert HandlerTake(st, l) == mid;
    var m := SemaAt(mid, OfLock(l));
    assert m.value == 0;
    SleptIs(mid, OfLock(l), Hold(l, st.pc[t].wait));
    assert (m.waiters + [t])[|m.waiters|] == t;
  }

  lemma SleptIs(st: State, s: SemaId, after: After)
    requires SemaAt(st, s).value == 0
    ensures var r := SemaDown(st, s, after); var m := SemaAt(st, s);
            r.holders == st.holders && s in r.semas && r.semas[s].waiters == m.waiters + [st.current]
  {}

  // ... and one past the ASSERT of lock_try_acquire is told that it failed.
  lemma FailsAsHolder(st: State, l: LockId)
    requires Inv(st) && st.pc[st.current] == Trying(l) && SemaAt(st, OfLock(l)).value == 1
    requires !Holds(st, st.current, l)
    ensures PcOf(HandlerTake(st, l), st.current).Trying? && HandlerTake(st, l).current == st.current
    ensures var t := st.current; var r := LockTry(HandlerTake(st, l));
            Holds(r, t, l) && PcOf(r, t).Run?
  {
    var mid := HandlerGot(st, l);
    assert HandlerTake(st, l) == mid && SemaAt(mid, OfLock(l)).value == 0;
    assert LockTry(mid) == SetPc(mid, Run);
  }

  // A cond_wait on its way back fails the ASSERT of its lock_acquire.
  lemma FailsAssert(st: State, l: LockId)
    requires Inv(st) && st.pc[st.current].Relocking? && st.pc[st.current].l == l && SemaAt(st, OfLock(l)).value > 0
    requires !Holds(st, st.current, l)
    ensures PcOf(HandlerTake(st, l), st.current).Relocking? && HandlerTake(st, l).current == st.current
    ensures CondRelock(HandlerTake(st, l)).panic
  {
    assert HandlerTake(st, l) == HandlerGot(st, l);
  }

  // A thread that holds the lock fails the handler's own ASSERT.
  lemma FailsOwnAssert(st: State, l: LockId)
    requires Holds(st, st.current, l)
    ensures HandlerTake(st, l).panic
  {}

  // ---------- runs to such states ----------

  // The first thread at position p, with lock 0 and n calls of cond_wait so far.
  predicate At(st: State, p: Pc, value: int, holder: Option<Tid>, n: int) {
    && st.current == MAIN && PcOf(st, MAIN) == p && 0 in st.holders && st.holders[0] == holder
    && SemaAt(st, OfLock(0)).value == value && Cond(0, 0) in st.conds && |st.calls| == n
  }

  lemma Started() returns (acts: seq<Action>)
    ensures IsRun(Boot(), acts) && At(Final(Boot(), acts), Run, 1, None, 0)
  {
    acts := [OnLock(LockInit(0)), OnCond(CondInit(Cond(0, 0)))];
    var st := LockNew(Boot(), 0);
    assert acts[1..] == [acts[1]] && acts[1..][1..] == [];
    assert Final(st, acts[1..]) == CondNew(st, Cond(0, 0));
  }

  lemma FirstAsks(st: State)
    requires At(st, Run, 1, None, 0)
    ensures Enabled(st, OnLock(Acquire(0))) && At(Apply(st, OnLock(Acquire(0))), Acquiring(0, None), 1, None, 0)
    ensures Enabled(st, OnLock(TryAcquire(0))) && At(Apply(st, OnLock(TryAcquire(0))), Trying(0), 1, None, 0)
  {}

  lemma FirstAcquires(st: State)
    requires At(st, Acquiring(0, None), 1, None, 0)
    ensures Enabled(st, OnLock(AcquireDown)) && At(Apply(st, OnLock(AcquireDown)), SetHolder(0, None), 0, None, 0)
  {}

  lemma FirstHolds(st: State)
    requires At(st, SetHolder(0, None), 0, None, 0)
    ensures Enabled(st, OnLock(TakeHolder)) && At(Apply(st, OnLock(TakeHolder)), Run, 0, Some(MAIN), 0)
  {}

  lemma FirstWaits(st: State)
    requires At(st, Run, 0, Some(MAIN), 0)
    ensures Enabled(st, OnCond(Wait(Cond(0, 0))))
    ensures At(Apply(st, OnCond(Wait(Cond(0, 0)))), Enqueued(0, 0), 0, Some(MAIN), 1)
  {}

  lemma FirstDrops(st: State)
    requires At(st, Enqueued(0, 0), 0, Some(MAIN), 1)
    ensures Enabled(st, OnCond(WaitRelease))
    ensures At(Apply(st, OnCond(WaitRelease)), Unlocking(0, Some(0)), 0, None, 1)
  {}

  lemma FirstReleases(st: State)
    requires At(st, Unlocking(0, Some(0)), 0, None, 1)
    ensures Enabled(st, OnLock(ReleaseUp)) && At(Apply(st, OnLock(ReleaseUp)), Waiting(0, 0), 1, None, 1)
  {}

  lemma Extend(acts: seq<Action>, a: Action) returns (acts1: seq<Action>)
    requires IsRun(Boot(), acts) && Enabled(Final(Boot(), acts), a)
    ensures IsRun(Boot(), acts1) && Final(Boot(), acts1) == Apply(Final(Boot(), acts), a)
  {
    acts1 := acts + [a];
    ExtendFrom(Boot(), acts, a);
  }

  lemma {:induction false} ExtendFrom(st: State, acts: seq<Action>, a: Action)
    requires IsRun(st, acts) && Enabled(Final(st, acts), a)
    ensures IsRun(st, acts + [a]) && Final(st, acts + [a]) == Apply(Final(st, acts), a)
    decreases |acts|
  {
    if acts == [] {
      assert (acts + [a])[1..] == [];
    } else {
      ExtendFrom(Apply(st, acts[0]), acts[1..], a);
      assert (acts + [a])[1..] == acts[1..] + [a];
    }
  }

  // Past the ASSERT of lock_acquire: the holder comes to sleep on its own lock.
  lemma HandlerInAcquire() returns (acts: seq<Action>)
    ensures IsRun(Boot(), acts)
    ensures var st := Final(Boot(), acts); var mid := HandlerTake(st, 0);
            && InterruptsOn(st) && 0 in st.holders && !Inv(mid) && PcOf(st, MAIN) == Acquiring(0, None)
            && PcOf(mid, mid.current).Acquiring? && var r := LockDown(mid);
               Holds(r, MAIN, 0) && OfLock(0) in r.semas && MAIN in r.semas[OfLock(0)].waiters
  {
    acts := Started();
    FirstAsks(Final(Boot(), acts));
    acts := Extend(acts, OnLock(Acquire(0)));
    Reached(acts);
    HandlerTakeExact(Final(Boot(), acts), 0);
    SleepsOnOwn(Final(Boot(), acts), 0);
  }

  // Past the ASSERT of lock_try_acquire: it reports a failure to the holder.
  lemma HandlerInTry() returns (acts: seq<Action>)
    ensures IsRun(Boot(), acts)
    ensures var st := Final(Boot(), acts); var mid := HandlerTake(st, 0);
            && InterruptsOn(st) && 0 in st.holders && !Inv(mid) && PcOf(st, MAIN) == Trying(0)
            && PcOf(mid, mid.current).Trying? && Holds(LockTry(mid), MAIN, 0) && PcOf(LockTry(mid), MAIN).Run?
  {
    acts := Started();
    FirstAsks(Final(Boot(), acts));
    acts := Extend(acts, OnLock(TryAcquire(0)));
    Reached(acts);
    HandlerTakeExact(Final(Boot(), acts), 0);
    FailsAsHolder(Final(Boot(), acts), 0);
  }

  // In the critical section: the handler's ASSERT fails.
  lemma HandlerInSection() returns (acts: seq<Action>)
    ensures IsRun(Boot(), acts)
    ensures var st := Final(Boot(), acts);
            InterruptsOn(st) && At(st, Run, 0, Some(MAIN), 0) && HandlerTake(st, 0).panic
  {
    acts := Started();
    FirstAsks(Final(Boot(), acts));
    acts := Extend(acts, OnLock(Acquire(0)));
    FirstAcquires(Final(Boot(), acts));
    acts := Extend(acts, OnLock(AcquireDown));
    FirstHolds(Final(Boot(), acts));
    acts := Extend(acts, OnLock(TakeHolder));
    FailsOwnAssert(Final(Boot(), acts), 0);
  }

  // In cond_wait, after its lock_release: the waiter becomes the holder of the lock that a signal needs.
  lemma HandlerInWait() returns (acts: seq<Action>)
    ensures IsRun(Boot(), acts)
    ensures var st := Final(Boot(), acts);
            && InterruptsOn(st) && 0 in st.holders && !Holds(st, st.current, 0)
            && !Inv(HandlerTake(st, 0)) && Holds(HandlerTake(st, 0), MAIN, 0) && PcOf(st, MAIN) == Waiting(0, 0)
  {
    acts := HandlerInSection();
    FirstWaits(Final(Boot(), acts));
    acts := Extend(acts, OnCond(Wait(Cond(0, 0))));
    FirstDrops(Final(Boot(), acts));
    acts := Extend(acts, OnCond(WaitRelease));
    FirstReleases(Final(Boot(), acts));
    acts := Extend(acts, OnLock(ReleaseUp));
    Reached(acts);
    HandlerTakeExact(Final(Boot(), acts), 0);
  }
}
