// threads/thread.c and threads/synch.c: what holds in every state of every run.

module KernelRuns {
  import opened Options
  import opened Seqs
  import opened KernelModel
  import opened KernelPlaces
  import opened KernelSteps
  import S = KernelSemas
  import L = KernelLocks
  import C = KernelConds

  lemma BootPlaces()
    ensures Placed(Boot())
  {
    var st := Boot();
    forall u ensures LifeOk(st.status, st.pc, st.freed, st.current, st.idleStarted, u) {}
  }

  lemma BootLocks()
    ensures LocksOk(Boot())
  {
    var st := Boot();
    forall t, l | t in st.pc ensures L.PairOk(st.holders, st.held[t], st.pc[t], t, l) {}
  }

  lemma BootConds()
    ensures CondsOk(Boot())
  {
    var st := Boot();
    forall t | t in st.pc ensures C.ThreadOk(st.calls, st.semas, st.pc[t], t) {}
    assert |st.calls| == 0;
  }

  lemma CpuInv(st: State, a: CpuAction)
    requires Inv(st) && CpuEnabled(st, a)
    ensures Inv(CpuStep(st, a))
  {
    var t := st.current;
    assert LifeOk(st.status, st.pc, st.freed, t, st.idleStarted, t);
    match a
    case TimerTick => TickInv(st);
    case ThreadYield => YieldInv(st);
    case ThreadExit => GoInv(st, Dying);
    case ThreadInit(ch) => CreateInv(st, ch);
    case ThreadLaunch => LaunchInv(st);
    case IdleStart => IdleBeginInv(st);
    case IdleUps => IdleSignalInv(st);
    case IdleBlocks => GoInv(st, Blocked);
  }

  lemma SemaInv(st: State, a: SemaAction)
    requires Inv(st) && SemaEnabled(st, a)
    ensures Inv(SemaStep(st, a))
  {
    match a
    case SemaInit(n, v) => NewSemaInv(st, Plain(n), v);
    case Down(n) => PlainDownInv(st, n);
    case TryDown(n) => if st.semas[Plain(n)].value > 0 { TakenInv(st, n); }
    case Up(n) => UpInv(st, n);
    case Retest => RetestInv(st);
  }

  lemma LockInv(st: State, a: LockAction)
    requires Inv(st) && LockEnabled(st, a)
    ensures Inv(LockStep(st, a))
  {
    var p := st.pc[st.current];
    match a
    case LockInit(l) => LockNewInv(st, l);
    case Acquire(l) => AskInv(st, l, Acquiring(l, None));
    case AcquireDown => LockDownInv(st);
    case TryAcquire(l) => AskInv(st, l, Trying(l));
    case AcquireTry => LockTryInv(st);
    case HandlerTry(l) => HandlerTakeExact(st, l);
    case TakeHolder => LockTakeInv(st);
    case Release(l) => LockDropInv(st, l, None);
    case ReleaseUp => LockUpInv(st, p.l, if p.wait.Some? then Waiting(p.l, p.wait.value) else Run);
  }

  lemma CondInv(st: State, a: CondAction)
    requires Inv(st) && CondEnabled(st, a)
    ensures Inv(CondStep(st, a))
  {
    var p := st.pc[st.current];
    match a
    case CondInit(c) => CondNewInv(st, c);
    case Wait(c) => ArriveInv(st, c);
    case WaitRelease => WaitReleaseInv(st);
    case WaitDown => WaitDownInv(st);
    case WaitRelock => RelockInv(st);
    case Signal(c) => PopInv(st, c, None);
    case SignalUp => SignalUpInv(st, if p.rest.Some? then Broadcasting(p.rest.value) else Run);
    case Broadcast(c) => BroadcastInv(st, c);
    case BroadcastNext => BroadcastNextInv(st);
    case BroadcastNone(c) => BroadcastNoneInv(st, c);
  }

  lemma StepInv(st: State, a: Action)
    requires Inv(st) && Enabled(st, a)
    ensures Inv(Apply(st, a))
  {
    match a
    case Cpu(c) => CpuInv(st, c);
    case OnSema(c) => SemaInv(st, c);
    case OnLock(c) => LockInv(st, c);
    case OnCond(c) => CondInv(st, c);
  }

  lemma {:induction false} RunInv(st: State, acts: seq<Action>)
    requires Inv(st) && IsRun(st, acts)
    ensures Inv(Final(st, acts))
    decreases |acts|
  {
    if acts != [] {
      StepInv(st, acts[0]);
      RunInv(Apply(st, acts[0]), acts[1..]);
    }
  }

  // Every state that thread_start's state can reach.
  lemma Reached(acts: seq<Action>)
    requires IsRun(Boot(), acts)
    ensures Inv(Final(Boot(), acts))
  {
    BootPlaces();
    BootLocks();
    BootConds();
    RunInv(Boot(), acts);
  }

  // ---------- what holds on every run ----------

  // No ASSERT of thread.c or synch.c that is not an obligation of the caller fails.
  lemma NoPanic(acts: seq<Action>)
    requires IsRun(Boot(), acts)
    ensures !Final(Boot(), acts).panic
  {
    Reached(acts);
  }

  lemma UnitsConserved(acts: seq<Action>, s: SemaId)
    requires IsRun(Boot(), acts) && s in Final(Boot(), acts).semas
    ensures var m := Final(Boot(), acts).semas[s]; m.init + m.ups == m.value + m.downs
  {
    Reached(acts);
  }

  // Nobody sleeps on a semaphore with units left unless that many threads have
  // been woken and are about to test it.
  lemma NoLostWakeup(acts: seq<Action>, s: SemaId)
    requires IsRun(Boot(), acts) && s in Final(Boot(), acts).semas
    ensures var st := Final(Boot(), acts);
            st.semas[s].waiters != [] ==>
              && st.semas[s].value <= |S.Woken(st.status, st.pc, s)|
              && (st.semas[s].value > 0 ==>
                    exists t :: t in st.pc && st.pc[t].Downing? && st.pc[t].s == s
                                && (t in st.ready || t == st.current))
  {
    var st := Final(Boot(), acts);
    Reached(acts);
    if st.semas[s].waiters != [] && st.semas[s].value > 0 {
      var t := SomeoneTests(st, s);
    }
  }

  lemma SomeoneTests(st: State, s: SemaId) returns (t: Tid)
    requires Inv(st) && s in st.semas && st.semas[s].waiters != [] && st.semas[s].value > 0
    ensures t in st.pc && st.pc[t].Downing? && st.pc[t].s == s && (t in st.ready || t == st.current)
  {
    var w := S.Woken(st.status, st.pc, s);
    assert S.SemaOk(st.semas[s], w);
    assert (forall u :: u !in w) ==> w == {};
    t :| t in w;
    assert LifeOk(st.status, st.pc, st.freed, st.current, st.idleStarted, t);
  }

  // A thread is in one place, and its status says which.  The idle thread and a
  // thread that its creator has not launched yet are in none.
  lemma OnePlace(acts: seq<Action>, t: Tid)
    requires IsRun(Boot(), acts) && t in Final(Boot(), acts).status
    ensures var st := Final(Boot(), acts);
            && (st.status[t] == Running <==> t == st.current)
            && (!IsIdle(st, t) ==> (st.status[t] == Ready <==> t in st.ready))
            && (!IsIdle(st, t) && !PcOf(st, t).Newborn? ==>
                  (st.status[t] == Blocked <==> exists s :: s in st.semas && t in st.semas[s].waiters))
            && (st.status[t] == Dying && t != MAIN <==> t in st.freed)
  {
    var st := Final(Boot(), acts);
    Reached(acts);
    assert LifeOk(st.status, st.pc, st.freed, st.current, st.idleStarted, t);
    if st.status[t] == Blocked && st.pc[t].Downing? {
      assert Sleeps(st.status, st.pc, t, st.pc[t].s);
    }
  }

  // ... so `elem' is on one list at a time, and on it once.
  lemma OneList(acts: seq<Action>, t: Tid, s: SemaId, r: SemaId)
    requires IsRun(Boot(), acts)
    ensures var st := Final(Boot(), acts);
            && NoDup(st.ready)
            && (s in st.semas ==> NoDup(st.semas[s].waiters))
            && (s in st.semas && t in st.semas[s].waiters ==> t !in st.ready)
            && (s in st.semas && r in st.semas && t in st.semas[s].waiters && t in st.semas[r].waiters
                ==> s == r)
  {
    Reached(acts);
  }

  // A lock is free or exactly one thread is between its down and its up; a
  // recorded holder is that thread.
  lemma LockExclusion(acts: seq<Action>, l: LockId)
    requires IsRun(Boot(), acts) && l in Final(Boot(), acts).holders
    ensures var st := Final(Boot(), acts);
            && OfLock(l) in st.semas
            && st.semas[OfLock(l)].value + |L.Section(st.held, l)| == 1
            && (st.holders[l].Some? ==> L.Section(st.held, l) == {st.holders[l].value})
  {
    var st := Final(Boot(), acts);
    Reached(acts);
    if st.holders[l].Some? {
      var h := st.holders[l].value;
      assert L.PairOk(st.holders, st.held[h], st.pc[h], h, l);
      forall u | u in L.Section(st.held, l) ensures u == h { L.Alone(st.held, l, u, h); }
    }
  }

  // Outside lock_acquire and lock_release, lock_held_by_current_thread is true
  // exactly in the critical section.
  lemma HolderTest(acts: seq<Action>, l: LockId)
    requires IsRun(Boot(), acts)
    requires var st := Final(Boot(), acts); l in st.holders && PcOf(st, st.current).Run?
    ensures var st := Final(Boot(), acts);
            Holds(st, st.current, l) <==> st.current in L.Section(st.held, l)
  {
    var st := Final(Boot(), acts);
    Reached(acts);
    assert L.PairOk(st.holders, st.held[st.current], st.pc[st.current], st.current, l);
  }

  // The i-th signal on a condition variable wakes the i-th call of cond_wait on
  // it; a call that returned was woken so, was upped and downed once, and no
  // call returns twice.
  lemma WaitsMatchSignals(acts: seq<Action>, k: Ticket)
    requires IsRun(Boot(), acts) && k in Final(Boot(), acts).finished
    ensures var st := Final(Boot(), acts);
            && NoDup(st.finished) && k in st.calls && st.calls[k].cond in st.conds
            && var v := st.conds[st.calls[k].cond];
            && NoDup(v.arrivals) && v.signals <= |v.arrivals| && v.waiters == v.arrivals[v.signals..]
            && (exists i :: 0 <= i < v.signals && v.arrivals[i] == k)
            && OfWait(k) in st.semas
            && st.semas[OfWait(k)].ups == 1 && st.semas[OfWait(k)].downs == 1
  {
    var st := Final(Boot(), acts);
    Reached(acts);
    assert C.DoneOk(st.calls, st.semas, st.pc, k);
    assert C.TicketOk(st.conds, st.calls, st.semas, st.pc, k);
    var c := st.calls[k].cond;
    assert C.CondOk(st.calls, c, st.conds[c]);
    assert S.SemaOk(st.semas[OfWait(k)], S.Woken(st.status, st.pc, OfWait(k)));
  }

  // cond_wait returns to its caller holding the lock of its condition variable.
  lemma WaitReturnsHolding(st: State, a: Action)
    requires Inv(st) && Enabled(st, a) && Apply(st, a).finished != st.finished
    ensures var r := Apply(st, a);
            exists k :: r.finished == st.finished + [k] && k in r.calls
                        && r.calls[k].owner == r.current == st.current
                        && Holds(r, r.current, r.calls[k].cond.lock) && PcOf(r, r.current).Run?
  {
    OnlyTakeHolderFinishes(st, a);
    var p := st.pc[st.current];
    assert C.ThreadOk(st.calls, st.semas, p, st.current);
    assert Apply(st, a).finished == st.finished + [p.wait.value];
  }

  lemma OnlyTakeHolderFinishes(st: State, a: Action)
    requires Enabled(st, a) && Apply(st, a).finished != st.finished
    ensures a == OnLock(TakeHolder)
  {
    match a
    case Cpu(c) => CpuFrame(st, c);
    case OnSema(c) => SemaFrame(st, c);
    case OnLock(c) => LockFrame(st, c);
    case OnCond(c) => CondFrame(st, c);
  }

  lemma ScheduleFrame(st: State)
    ensures Schedule(st).finished == st.finished && Schedule(st).conds == st.conds
  {
  }

  lemma DownFrame(st: State, s: SemaId, after: After)
    ensures SemaDown(st, s, after).finished == st.finished && SemaDown(st, s, after).conds == st.conds
  {
    if SemaAt(st, s).value == 0 { ScheduleFrame(Asleep(st, s, after)); }
  }

  lemma UpFrame(st: State, s: SemaId)
    ensures SemaUp(st, s).finished == st.finished && SemaUp(st, s).conds == st.conds
  {
  }

  lemma TickFrame(st: State)
    ensures Tick(st).finished == st.finished && Tick(st).conds == st.conds
  {
    if st.slice + 1 >= TIME_SLICE {}
  }

  lemma CpuFrame(st: State, a: CpuAction)
    requires CpuEnabled(st, a)
    ensures CpuStep(st, a).finished == st.finished && CpuStep(st, a).conds == st.conds
  {
    match a
    case TimerTick => TickFrame(st);
    case ThreadExit => ScheduleFrame(SetStatus(st, Dying));
    case IdleBlocks => ScheduleFrame(SetStatus(st, Blocked));
    case _ =>
  }

  lemma SemaFrame(st: State, a: SemaAction)
    requires SemaEnabled(st, a)
    ensures SemaStep(st, a).finished == st.finished && SemaStep(st, a).conds == st.conds
  {
    var p := PcOf(st, st.current);
    match a
    case SemaInit(n, v) =>
    case Down(n) => DownFrame(st, Plain(n), Return);
    case TryDown(n) => if SemaAt(st, Plain(n)).value > 0 {}
    case Up(n) => UpFrame(st, Plain(n));
    case Retest => DownFrame(st, p.s, p.after);
  }

  lemma LockUpFrame(st: State)
    requires PcOf(st, st.current).Unlocking?
    ensures LockUp(st).conds == st.conds && LockUp(st).finished == st.finished
  {
  }

  lemma LockDownFrame(st: State)
    requires PcOf(st, st.current).Acquiring?
    ensures LockDown(st).conds == st.conds && LockDown(st).finished == st.finished
  {
    var p := PcOf(st, st.current);
    DownFrame(st, OfLock(p.l), Hold(p.l, p.wait));
  }

  lemma LockTryFrame(st: State)
    requires PcOf(st, st.current).Trying?
    ensures LockTry(st).conds == st.conds && LockTry(st).finished == st.finished
    ensures var p := PcOf(LockTry(st), st.current); (p.SetHolder? || p.Run?) && LockTry(st).pc == st.pc[st.current := p]
  {
    var l := PcOf(st, st.current).l;
    if SemaAt(st, OfLock(l)).value > 0 { GotFrame(st, l); }
  }

  lemma GotFrame(st: State, l: LockId)
    requires SemaAt(st, OfLock(l)).value > 0
    ensures var r := LockGot(st, l);
            r.conds == st.conds && r.finished == st.finished && r.pc == st.pc[st.current := SetHolder(l, None)]
  {}

  lemma HandlerFrame(st: State, l: LockId)
    ensures HandlerTake(st, l).conds == st.conds && HandlerTake(st, l).finished == st.finished
  {
    if !Holds(st, st.current, l) && SemaAt(st, OfLock(l)).value > 0 {
      assert HandlerTake(st, l) == HandlerGot(st, l);
    }
  }

  lemma LockFrame(st: State, a: LockAction)
    requires LockEnabled(st, a)
    ensures LockStep(st, a).conds == st.conds
    ensures !a.TakeHolder? ==> LockStep(st, a).finished == st.finished
  {
    match a
    case AcquireDown => LockDownFrame(st);
    case AcquireTry => LockTryFrame(st);
    case HandlerTry(l) => HandlerFrame(st, l);
    case ReleaseUp => LockUpFrame(st);
    case _ =>
  }

  lemma CondUpFrame(st: State)
    requires PcOf(st, st.current).Signalling?
    ensures CondUp(st).conds == st.conds && CondUp(st).finished == st.finished
  {
  }

  // Only cond_wait and cond_signal, by a thread that holds the lock, change the waiters.
  lemma CondFrame(st: State, a: CondAction)
    requires CondEnabled(st, a)
    ensures CondStep(st, a).finished == st.finished
    ensures !a.CondInit? && !a.Wait? && !a.Signal? && !a.BroadcastNext? ==>
              CondStep(st, a).conds == st.conds
  {
    var p := PcOf(st, st.current);
    match a
    case WaitDown => DownFrame(st, OfWait(p.k), Regain(p.l, p.k));
    case Signal(c) => PopFrame(st, c, None);
    case SignalUp => CondUpFrame(st);
    case BroadcastNext => PopFrame(st, p.c, Some(p.c));
    case BroadcastNone(c) => PopFrame(st, c, Some(c));
    case _ =>
  }

  lemma PopFrame(st: State, c: Cond, rest: Option<Cond>)
    ensures CondPop(st, c, rest).finished == st.finished
    ensures CondAt(st, c).waiters == [] ==> CondPop(st, c, rest).conds == st.conds
  {
    if CondAt(st, c).waiters == [] {}
  }

  // While a thread is inside cond_broadcast nobody else touches the condition variable.
  lemma BroadcastAlone(st: State, a: Action, t: Tid, c: Cond)
    requires Inv(st) && Enabled(st, a) && t in st.pc && t != st.current && c in st.conds
    requires st.pc[t] == Broadcasting(c) || (st.pc[t].Signalling? && st.pc[t].rest == Some(c))
    ensures CondAt(Apply(st, a), c) == st.conds[c]
  {
    assert L.PairOk(st.holders, st.held[t], st.pc[t], t, c.lock);
    assert L.PairOk(st.holders, st.held[st.current], st.pc[st.current], st.current, c.lock);
    match a
    case Cpu(b) => CpuFrame(st, b);
    case OnSema(b) => SemaFrame(st, b);
    case OnLock(b) => LockFrame(st, b);
    case OnCond(b) => CondFrame(st, b);
  }
}
