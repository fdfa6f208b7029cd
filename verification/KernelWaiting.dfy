// threads/thread.c: round-robin, or how long a ready thread can wait.

module KernelWaiting {
  import opened Options
  import opened KernelModel

  // The ready list moves one place at every schedule() and only grows at its
  // end; a time slice is at most TIME_SLICE ticks.
  ghost predicate Advances(st: State, r: State) {
    && (if r.schedules == st.schedules then st.ready <= r.ready
        else && r.schedules == st.schedules + 1
             && (st.ready != [] ==> r.current == st.ready[0] && st.ready[1..] <= r.ready))
    && r.ticks + TIME_SLICE * st.schedules + st.slice <= st.ticks + TIME_SLICE * r.schedules + r.slice
    && (st.slice < TIME_SLICE ==> r.slice < TIME_SLICE)
  }

  // schedule() after the end of the ready list may have grown.
  lemma ScheduleAdvances(st: State, mid: State)
    requires st.ready <= mid.ready && mid.schedules == st.schedules
    requires st.ticks <= mid.ticks <= st.ticks + 1 && mid.slice + st.ticks == st.slice + mid.ticks
    requires mid.slice <= TIME_SLICE
    ensures Advances(st, Schedule(mid))
  {
    if st.ready != [] {
      assert mid.ready[0] == st.ready[0] && st.ready[1..] <= mid.ready[1..];
    }
  }

  lemma YieldAdvances(st: State, mid: State)
    requires st.ready == mid.ready && mid.schedules == st.schedules
    requires st.ticks <= mid.ticks <= st.ticks + 1 && mid.slice + st.ticks == st.slice + mid.ticks
    requires mid.slice <= TIME_SLICE
    ensures Advances(st, Yield(mid))
  {
    var ready := if IsIdle(mid, mid.current) then mid.ready else mid.ready + [mid.current];
    ScheduleAdvances(st, SetStatus(mid.(ready := ready), Ready));
  }

  lemma DownAdvances(st: State, s: SemaId, after: After)
    requires st.slice < TIME_SLICE
    ensures Advances(st, SemaDown(st, s, after))
  {
    if SemaAt(st, s).value == 0 { ScheduleAdvances(st, Asleep(st, s, after)); }
  }

  lemma TickAdvances(st: State)
    requires st.slice < TIME_SLICE
    ensures Advances(st, Tick(st))
  {
    if st.slice + 1 >= TIME_SLICE { YieldAdvances(st, Counted(st)); }
  }

  lemma CpuAdvances(st: State, a: CpuAction)
    requires CpuEnabled(st, a) && st.slice < TIME_SLICE
    ensures Advances(st, CpuStep(st, a))
  {
    match a
    case TimerTick => TickAdvances(st);
    case ThreadYield => YieldAdvances(st, st);
    case ThreadExit => ScheduleAdvances(st, SetStatus(st, Dying));
    case IdleBlocks => ScheduleAdvances(st, SetStatus(st, Blocked));
    case _ =>
  }

  lemma SemaAdvances(st: State, a: SemaAction)
    requires SemaEnabled(st, a) && st.slice < TIME_SLICE
    ensures Advances(st, SemaStep(st, a))
  {
    var p := PcOf(st, st.current);
    match a
    case Down(n) => DownAdvances(st, Plain(n), Return);
    case TryDown(n) => if SemaAt(st, Plain(n)).value > 0 {}
    case Retest => DownAdvances(st, p.s, p.after);
    case _ =>
  }

  lemma LockAdvances(st: State, a: LockAction)
    requires LockEnabled(st, a) && st.slice < TIME_SLICE
    ensures Advances(st, LockStep(st, a))
  {
    match a
    case AcquireDown => LockDownAdvances(st);
    case AcquireTry => LockTryAdvances(st);
    case HandlerTry(l) => HandlerAdvances(st, l);
    case ReleaseUp => LockUpAdvances(st);
    case _ =>
  }

  lemma LockDownAdvances(st: State)
    requires PcOf(st, st.current).Acquiring? && st.slice < TIME_SLICE
    ensures Advances(st, LockDown(st))
  {
    var p := PcOf(st, st.current);
    DownAdvances(st, OfLock(p.l), Hold(p.l, p.wait));
  }

  lemma LockTryAdvances(st: State)
    requires PcOf(st, st.current).Trying?
    ensures Advances(st, LockTry(st))
  {
    if SemaAt(st, OfLock(PcOf(st, st.current).l)).value > 0 {}
  }

  lemma HandlerAdvances(st: State, l: LockId)
    ensures Advances(st, HandlerTake(st, l))
  {
    if Holds(st, st.current, l) {} else if SemaAt(st, OfLock(l)).value > 0 {}
  }

  lemma LockUpAdvances(st: State)
    requires PcOf(st, st.current).Unlocking?
    ensures Advances(st, LockUp(st))
  {
  }

  lemma CondAdvances(st: State, a: CondAction)
    requires CondEnabled(st, a) && st.slice < TIME_SLICE
    ensures Advances(st, CondStep(st, a))
  {
    var p := PcOf(st, st.current);
    match a
    case WaitDown => DownAdvances(st, OfWait(p.k), Regain(p.l, p.k));
    case Signal(c) => PopAdvances(st, c, None);
    case BroadcastNext => PopAdvances(st, p.c, Some(p.c));
    case BroadcastNone(c) => PopAdvances(st, c, Some(c));
    case SignalUp => CondUpAdvances(st);
    case _ =>
  }

  lemma PopAdvances(st: State, c: Cond, rest: Option<Cond>)
    ensures Advances(st, CondPop(st, c, rest))
  {
    if CondAt(st, c).waiters == [] {}
  }

  lemma CondUpAdvances(st: State)
    requires PcOf(st, st.current).Signalling?
    ensures Advances(st, CondUp(st))
  {
  }

  lemma StepAdvances(st: State, a: Action)
    requires Enabled(st, a) && st.slice < TIME_SLICE
    ensures Advances(st, Apply(st, a))
  {
    match a
    case Cpu(c) => CpuAdvances(st, c);
    case OnSema(c) => SemaAdvances(st, c);
    case OnLock(c) => LockAdvances(st, c);
    case OnCond(c) => CondAdvances(st, c);
  }

  // After d calls of schedule(), the thread that was at place k is at place k - d.
  lemma {:induction false} QueueMoves(st: State, acts: seq<Action>, k: nat)
    requires IsRun(st, acts) && st.slice < TIME_SLICE && k < |st.ready|
    ensures var r := Final(st, acts);
            && r.slice < TIME_SLICE && r.schedules >= st.schedules
            && (r.schedules - st.schedules <= k ==>
                  && k - (r.schedules - st.schedules) < |r.ready|
                  && r.ready[k - (r.schedules - st.schedules)] == st.ready[k])
            && r.ticks - st.ticks + st.slice <= TIME_SLICE * (r.schedules - st.schedules) + r.slice
    decreases |acts|
  {
    if acts != [] {
      var m := Apply(st, acts[0]);
      StepAdvances(st, acts[0]);
      if m.schedules == st.schedules {
        assert m.ready[k] == st.ready[k];
        QueueMoves(m, acts[1..], k);
      } else if k > 0 {
        assert st.ready[1..][k - 1] == m.ready[k - 1];
        QueueMoves(m, acts[1..], k - 1);
      } else {
        Monotone(m, acts[1..]);
      }
    }
  }

  lemma {:induction false} Monotone(st: State, acts: seq<Action>)
    requires IsRun(st, acts) && st.slice < TIME_SLICE
    ensures var r := Final(st, acts);
            && r.slice < TIME_SLICE && r.schedules >= st.schedules
            && r.ticks - st.ticks + st.slice <= TIME_SLICE * (r.schedules - st.schedules) + r.slice
    decreases |acts|
  {
    if acts != [] {
      StepAdvances(st, acts[0]);
      Monotone(Apply(st, acts[0]), acts[1..]);
    }
  }

  // The thread at place k of the ready list is dispatched by the (k+1)-th call
  // of schedule() from now ...
  lemma DispatchedInTurn(st: State, acts: seq<Action>, a: Action, k: nat)
    requires IsRun(st, acts) && Enabled(Final(st, acts), a)
    requires st.slice < TIME_SLICE && k < |st.ready|
    requires Final(st, acts).schedules == st.schedules + k
    requires Apply(Final(st, acts), a).schedules == st.schedules + k + 1
    ensures Apply(Final(st, acts), a).current == st.ready[k]
  {
    QueueMoves(st, acts, k);
    StepAdvances(Final(st, acts), a);
  }

  // ... and that call comes before TIME_SLICE * (k + 1) more ticks have passed.
  lemma DispatchedInTime(st: State, acts: seq<Action>, k: nat)
    requires IsRun(st, acts) && st.slice < TIME_SLICE && k < |st.ready|
    requires Final(st, acts).ticks >= st.ticks + TIME_SLICE * (k + 1)
    ensures Final(st, acts).schedules >= st.schedules + k + 1
  {
    QueueMoves(st, acts, k);
  }

  // The time slice never overruns, so the two results hold from every reachable state.
  lemma SliceBounded(acts: seq<Action>)
    requires IsRun(Boot(), acts)
    ensures Final(Boot(), acts).slice < TIME_SLICE
  {
    Monotone(Boot(), acts);
  }
}
