// threads/thread.c: thread_exit is for ever.

module KernelExit {
  import opened Options
  import opened KernelModel
  import opened KernelPlaces
  import opened KernelSteps
  import opened KernelRuns
  import opened KernelTrace

  // The dead stay dead: no step changes the status of a thread that is DYING.
  lemma DeadStep(st: State, a: Action, t: Tid)
    requires Inv(st) && Enabled(st, a) && t in st.status && st.status[t] == Dying
    ensures t in Apply(st, a).status && Apply(st, a).status[t] == Dying
  {
    match a
    case Cpu(b) => CpuDead(st, b, t);
    case OnSema(b) => SemaDead(st, b, t);
    case OnLock(b) => LockDead(st, b, t);
    case OnCond(b) => CondDead(st, b, t);
  }

  // Whom schedule() dispatches is READY, or the idle thread.
  lemma ScheduleDead(st: State, t: Tid)
    requires t in st.status && st.status[t] == Dying && t != NextThread(st)
    ensures t in Schedule(st).status && Schedule(st).status[t] == Dying
  {}

  lemma NextAlive(st: State, t: Tid)
    requires Inv(st) && t in st.status && st.status[t] == Dying
    ensures t != st.current && t != IDLE && t !in st.ready && t != NextThread(st)
    ensures forall s | s in st.semas :: t !in st.semas[s].waiters
  {
    assert LifeOk(st.status, st.pc, st.freed, st.current, st.idleStarted, t);
    if st.ready != [] { assert st.ready[0] in st.ready; }
  }

  lemma YieldDead(st: State, t: Tid)
    requires t in st.status && st.status[t] == Dying && t != st.current && t != NextThread(st)
    ensures t in Yield(st).status && Yield(st).status[t] == Dying
  {
    var ready := if IsIdle(st, st.current) then st.ready else st.ready + [st.current];
    ScheduleDead(SetStatus(st.(ready := ready), Ready), t);
  }

  lemma TickDead(st: State, t: Tid)
    requires t in st.status && st.status[t] == Dying && t != st.current && t != NextThread(st)
    ensures t in Tick(st).status && Tick(st).status[t] == Dying
  {
    if st.slice + 1 >= TIME_SLICE { YieldDead(Counted(st), t); }
  }

  lemma UpDead(st: State, s: SemaId, t: Tid)
    requires t in st.status && st.status[t] == Dying && t !in SemaAt(st, s).waiters
    ensures t in SemaUp(st, s).status && SemaUp(st, s).status[t] == Dying
  {}

  lemma DownDead(st: State, s: SemaId, after: After, t: Tid)
    requires t in st.status && st.status[t] == Dying && t != st.current && t != NextThread(st)
    ensures var r := SemaDown(st, s, after); t in r.status && r.status[t] == Dying
  {
    if SemaAt(st, s).value == 0 { ScheduleDead(Asleep(st, s, after), t); }
  }

  lemma LaunchDead(st: State, t: Tid)
    requires PcOf(st, st.current).Creating? && t in st.status && st.status[t] == Dying
    requires t != PcOf(st, st.current).child
    ensures t in Launch(st).status && Launch(st).status[t] == Dying
  {}

  lemma CpuDead(st: State, a: CpuAction, t: Tid)
    requires Inv(st) && CpuEnabled(st, a) && t in st.status && st.status[t] == Dying
    ensures t in CpuStep(st, a).status && CpuStep(st, a).status[t] == Dying
  {
    NextAlive(st, t);
    assert LifeOk(st.status, st.pc, st.freed, st.current, st.idleStarted, st.current);
    match a
    case TimerTick => TickDead(st, t);
    case ThreadYield => YieldDead(st, t);
    case ThreadExit => ScheduleDead(SetStatus(st, Dying), t);
    case ThreadInit(ch) =>
    case ThreadLaunch =>
      assert LifeOk(st.status, st.pc, st.freed, st.current, st.idleStarted, st.pc[st.current].child);
      LaunchDead(st, t);
    case IdleStart =>
    case IdleUps => UpDead(SetPc(st, IdleLoop), Plain(0), t);
    case IdleBlocks => ScheduleDead(SetStatus(st, Blocked), t);
  }

  lemma SemaDead(st: State, a: SemaAction, t: Tid)
    requires Inv(st) && SemaEnabled(st, a) && t in st.status && st.status[t] == Dying
    ensures t in SemaStep(st, a).status && SemaStep(st, a).status[t] == Dying
  {
    NextAlive(st, t);
    var p := PcOf(st, st.current);
    match a
    case SemaInit(n, v) =>
    case Down(n) => DownDead(st, Plain(n), Return, t);
    case TryDown(n) => if SemaAt(st, Plain(n)).value > 0 {}
    case Up(n) => UpDead(st, Plain(n), t);
    case Retest => DownDead(st, p.s, p.after, t);
  }

  lemma TryDead(st: State, l: LockId)
    requires PcOf(st, st.current) == Trying(l)
    ensures LockTry(st).status == st.status
  {
    if SemaAt(st, OfLock(l)).value > 0 { assert LockTry(st) == LockGot(st, l); }
  }

  lemma HandlerDead(st: State, l: LockId)
    ensures HandlerTake(st, l).status == st.status
  {
    if !Holds(st, st.current, l) && SemaAt(st, OfLock(l)).value > 0 {
      assert HandlerTake(st, l) == HandlerGot(st, l);
    }
  }

  lemma LockDead(st: State, a: LockAction, t: Tid)
    requires Inv(st) && LockEnabled(st, a) && t in st.status && st.status[t] == Dying
    ensures t in LockStep(st, a).status && LockStep(st, a).status[t] == Dying
  {
    NextAlive(st, t);
    var p := PcOf(st, st.current);
    match a
    case AcquireDown => DownDead(st, OfLock(p.l), Hold(p.l, p.wait), t);
    case AcquireTry => TryDead(st, p.l);
    case HandlerTry(l) => HandlerDead(st, l);
    case ReleaseUp => LockUpDead(st, t);
    case _ =>
  }

  lemma LockUpDead(st: State, t: Tid)
    requires PcOf(st, st.current).Unlocking? && t in st.status && st.status[t] == Dying
    requires t !in SemaAt(st, OfLock(PcOf(st, st.current).l)).waiters
    ensures t in LockUp(st).status && LockUp(st).status[t] == Dying
  {}

  lemma CondDead(st: State, a: CondAction, t: Tid)
    requires Inv(st) && CondEnabled(st, a) && t in st.status && st.status[t] == Dying
    ensures t in CondStep(st, a).status && CondStep(st, a).status[t] == Dying
  {
    NextAlive(st, t);
    var p := PcOf(st, st.current);
    match a
    case WaitDown => DownDead(st, OfWait(p.k), Regain(p.l, p.k), t);
    case Signal(c) => PopDead(st, c, None);
    case SignalUp => CondUpDead(st, t);
    case BroadcastNext => PopDead(st, p.c, Some(p.c));
    case BroadcastNone(c) => PopDead(st, c, Some(c));
    case _ =>
  }

  lemma PopDead(st: State, c: Cond, rest: Option<Cond>)
    ensures CondPop(st, c, rest).status == st.status
  {
    if CondAt(st, c).waiters == [] {}
  }

  lemma CondUpDead(st: State, t: Tid)
    requires PcOf(st, st.current).Signalling? && t in st.status && st.status[t] == Dying
    requires t !in SemaAt(st, OfWait(PcOf(st, st.current).k)).waiters
    ensures t in CondUp(st).status && CondUp(st).status[t] == Dying
  {}

  lemma {:induction false} DeadRun(st: State, acts: seq<Action>, t: Tid)
    requires Inv(st) && IsRun(st, acts) && t in st.status && st.status[t] == Dying
    ensures Inv(Final(st, acts)) && t in Final(st, acts).status && Final(st, acts).status[t] == Dying
    decreases |acts|
  {
    if acts != [] {
      DeadStep(st, acts[0], t);
      StepInv(st, acts[0]);
      DeadRun(Apply(st, acts[0]), acts[1..], t);
    }
  }

  lemma ExitDies(st: State)
    requires Inv(st) && CpuEnabled(st, ThreadExit)
    ensures var t, r := st.current, Exit(st); t in r.status && r.status[t] == Dying
  {
    assert LifeOk(st.status, st.pc, st.freed, st.current, st.idleStarted, st.current);
    if st.ready != [] { assert st.ready[0] in st.ready; }
  }

  // thread_exit: on every continuation the thread is never current, READY or waiting again, and its
  // page is freed exactly if it is not the first thread's.
  lemma ExitIsFinal(before: seq<Action>, acts: seq<Action>, s: SemaId)
    requires IsRun(Boot(), before) && Enabled(Final(Boot(), before), Cpu(ThreadExit))
    requires IsRun(Apply(Final(Boot(), before), Cpu(ThreadExit)), acts)
    ensures var t := Final(Boot(), before).current; var r := Final(Apply(Final(Boot(), before), Cpu(ThreadExit)), acts);
      && t != r.current && t !in r.ready && t !in SemaAt(r, s).waiters && (t in r.freed <==> t != MAIN)
  {
    var st := Final(Boot(), before);
    Reached(before);
    StepInv(st, Cpu(ThreadExit));
    ExitDies(st);
    var st1 := Apply(st, Cpu(ThreadExit));
    DeadRun(st1, acts, st.current);
    var r := Final(st1, acts);
    NextAlive(r, st.current);
    assert LifeOk(r.status, r.pc, r.freed, r.current, r.idleStarted, st.current);
  }
}
