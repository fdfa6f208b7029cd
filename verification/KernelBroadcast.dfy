// threads/synch.c: cond_broadcast from its call to its return, whatever else runs in between.

module KernelBroadcast {
  import opened Options
  import opened KernelModel
  import opened KernelPlaces
  import opened KernelSteps
  import opened KernelRuns
  import C = KernelConds

  // Thread t is inside cond_broadcast on c.
  predicate Broadcasts(st: State, t: Tid, c: Cond) {
    var p := PcOf(st, t);
    t in st.pc && (p == Broadcasting(c) || (p.Signalling? && p.rest == Some(c)))
  }

  // Every state of the run but the last is inside the broadcast.
  ghost predicate During(st: State, acts: seq<Action>, t: Tid, c: Cond)
    requires IsRun(st, acts)
    decreases |acts|
  {
    acts == [] || (Broadcasts(st, t, c) && During(Apply(st, acts[0]), acts[1..], t, c))
  }

  // ---------- what a step does to code positions ----------

  // A step moves the current thread; others are only created and launched.
  predicate PcFrame(st: State, r: State, u: Tid) {
    && (u in st.pc ==> u in r.pc)
    && (u != st.current ==>
          || PcOf(r, u) == PcOf(st, u) || (u !in st.pc && PcOf(r, u).Newborn?)
          || (PcOf(st, u).Newborn? && PcOf(r, u).Run?))
  }

  // The current thread comes to a sema_up of cond_signal only by popping a call.
  ghost predicate PopsOnly(st: State, r: State) {
    var p := PcOf(r, st.current);
    p.Signalling? && p != PcOf(st, st.current) ==>
      exists c :: c in st.conds && st.conds[c].waiters != [] && st.conds[c].waiters[0] == p.k
                  && CondAt(r, c).signals == st.conds[c].signals + 1
  }

  lemma CpuPc(st: State, a: CpuAction, u: Tid)
    requires Inv(st) && CpuEnabled(st, a)
    ensures PcFrame(st, CpuStep(st, a), u) && PopsOnly(st, CpuStep(st, a))
  {
    assert LifeOk(st.status, st.pc, st.freed, st.current, st.idleStarted, st.current);
    match a
    case TimerTick => TickPc(st);
    case ThreadYield => YieldPc(st);
    case ThreadExit => SchedulePc(SetStatus(st, Dying));
    case ThreadLaunch => LaunchPc(st, u);
    case IdleUps => IdleUpPc(st, u);
    case IdleBlocks => SchedulePc(SetStatus(st, Blocked));
    case _ =>
  }

  lemma LaunchPc(st: State, u: Tid)
    requires PcOf(st, st.current).Creating? && PcOf(st, PcOf(st, st.current).child).Newborn?
    ensures PcFrame(st, Launch(st), u) && PcOf(Launch(st), st.current).Run?
  {}

  lemma IdleUpPc(st: State, u: Tid)
    ensures PcFrame(st, IdleSignal(st), u) && PcOf(IdleSignal(st), st.current).IdleLoop?
  {}

  lemma SchedulePc(st: State)
    ensures Schedule(st).pc == st.pc
  {}

  lemma YieldPc(st: State)
    ensures Yield(st).pc == st.pc
  {}

  lemma TickPc(st: State)
    ensures Tick(st).pc == st.pc
  {
    if st.slice + 1 >= TIME_SLICE {}
  }

  lemma DownPc(st: State, s: SemaId, after: After, u: Tid)
    ensures var r := SemaDown(st, s, after); PcFrame(st, r, u) && !PcOf(r, st.current).Signalling?
  {
    if SemaAt(st, s).value == 0 { SchedulePc(Asleep(st, s, after)); }
  }

  lemma SemaPc(st: State, a: SemaAction, u: Tid)
    requires SemaEnabled(st, a)
    ensures PcFrame(st, SemaStep(st, a), u) && PopsOnly(st, SemaStep(st, a))
  {
    var p := PcOf(st, st.current);
    match a
    case Down(n) => DownPc(st, Plain(n), Return, u);
    case TryDown(n) => if SemaAt(st, Plain(n)).value > 0 {}
    case Retest => DownPc(st, p.s, p.after, u);
    case _ =>
  }

  lemma LockPc(st: State, a: LockAction, u: Tid)
    requires LockEnabled(st, a)
    ensures PcFrame(st, LockStep(st, a), u) && PopsOnly(st, LockStep(st, a))
  {
    var p := PcOf(st, st.current);
    match a
    case AcquireDown => DownPc(st, OfLock(p.l), Hold(p.l, p.wait), u);
    case AcquireTry => TryPc(st, u);
    case HandlerTry(l) => HandlerPc(st, l);
    case _ =>
  }

  lemma TryPc(st: State, u: Tid)
    requires PcOf(st, st.current).Trying?
    ensures PcFrame(st, LockTry(st), u) && Target(PcOf(LockTry(st), st.current)) == None
    ensures !PcOf(LockTry(st), st.current).Signalling?
  {
    LockTryFrame(st);
  }

  lemma HandlerPc(st: State, l: LockId)
    ensures HandlerTake(st, l).pc == st.pc
  {
    if !Holds(st, st.current, l) && SemaAt(st, OfLock(l)).value > 0 {
      assert HandlerTake(st, l) == HandlerGot(st, l);
    }
  }

  lemma PopPc(st: State, c: Cond, rest: Option<Cond>, u: Tid)
    ensures PcFrame(st, CondPop(st, c, rest), u) && PopsOnly(st, CondPop(st, c, rest))
  {
    var v, r := CondAt(st, c), CondPop(st, c, rest);
    if v.waiters != [] {
      assert c in st.conds && CondAt(r, c).signals == st.conds[c].signals + 1;
    }
  }

  lemma CondPc(st: State, a: CondAction, u: Tid)
    requires CondEnabled(st, a)
    ensures PcFrame(st, CondStep(st, a), u) && PopsOnly(st, CondStep(st, a))
  {
    var p := PcOf(st, st.current);
    match a
    case WaitDown => DownPc(st, OfWait(p.k), Regain(p.l, p.k), u);
    case Signal(c) => PopPc(st, c, None, u);
    case BroadcastNext => PopPc(st, p.c, Some(p.c), u);
    case BroadcastNone(c) => PopPc(st, c, Some(c), u);
    case _ =>
  }

  lemma StepPc(st: State, a: Action, u: Tid)
    requires Inv(st) && Enabled(st, a)
    ensures PcFrame(st, Apply(st, a), u) && PopsOnly(st, Apply(st, a))
  {
    match a
    case Cpu(b) => CpuPc(st, b, u);
    case OnSema(b) => SemaPc(st, b, u);
    case OnLock(b) => LockPc(st, b, u);
    case OnCond(b) => CondPc(st, b, u);
  }

  // ---------- one step of the broadcast ----------

  // The condition variable between two moments of the broadcast by thread t: none arrive.
  ghost predicate Onward(st: State, r: State, t: Tid, c: Cond) {
    && c in st.conds && c in r.conds && t in r.pc
    && r.conds[c].arrivals == st.conds[c].arrivals && r.conds[c].signals >= st.conds[c].signals
    && (Broadcasts(r, t, c) || (PcOf(r, t).Run? && r.conds[c].waiters == []))
  }

  lemma OwnCond(st: State, a: CondAction, c: Cond)
    requires CondEnabled(st, a) && Broadcasts(st, st.current, c) && c in st.conds
    ensures Onward(st, CondStep(st, a), st.current, c)
  {
    match a
    case CondInit(d) =>
    case SignalUp => OwnUp(st, c);
    case BroadcastNext => OwnPop(st, c);
  }

  lemma OwnPop(st: State, c: Cond)
    requires PcOf(st, st.current) == Broadcasting(c) && st.current in st.pc && c in st.conds
    ensures Onward(st, CondPop(st, c, Some(c)), st.current, c)
  {
    if st.conds[c].waiters == [] {}
  }

  lemma OwnUp(st: State, c: Cond)
    requires Broadcasts(st, st.current, c) && PcOf(st, st.current).Signalling? && c in st.conds
    ensures Onward(st, CondUp(st), st.current, c)
  {
    CondUpFrame(st);
  }

  lemma OwnStep(st: State, a: Action, c: Cond)
    requires Inv(st) && Enabled(st, a) && Broadcasts(st, st.current, c) && c in st.conds
    ensures Onward(st, Apply(st, a), st.current, c)
  {
    match a
    case Cpu(b) => TickPc(st); CpuFrame(st, b);
    case OnSema(b) => OwnSema(st, b, c);
    case OnLock(b) => OwnLock(st, b, c);
    case OnCond(b) => OwnCond(st, b, c);
  }

  lemma OwnSema(st: State, a: SemaAction, c: Cond)
    requires SemaEnabled(st, a) && Broadcasts(st, st.current, c) && c in st.conds
    ensures Onward(st, SemaStep(st, a), st.current, c)
  {
    SemaFrame(st, a);
    match a
    case TryDown(n) => if SemaAt(st, Plain(n)).value > 0 {}
    case _ =>
  }

  lemma OwnLock(st: State, a: LockAction, c: Cond)
    requires LockEnabled(st, a) && Broadcasts(st, st.current, c) && c in st.conds
    ensures Onward(st, LockStep(st, a), st.current, c)
  {
    LockFrame(st, a);
    match a
    case HandlerTry(l) => HandlerPc(st, l);
    case _ =>
  }

  lemma CondsStay(st: State, a: Action, c: Cond)
    requires Enabled(st, a) && c in st.conds
    ensures c in Apply(st, a).conds
  {
    match a
    case Cpu(b) => CpuFrame(st, b);
    case OnSema(b) => SemaFrame(st, b);
    case OnLock(b) => LockFrame(st, b);
    case OnCond(b) => CondsStayThere(st, b, c);
  }

  lemma CondsStayThere(st: State, a: CondAction, c: Cond)
    requires CondEnabled(st, a) && c in st.conds
    ensures c in CondStep(st, a).conds
  {
    if a.CondInit? || a.Wait? {
    } else if a.Signal? {
      PopStays(st, a.c, None, c);
    } else if a.BroadcastNext? {
      PopStays(st, PcOf(st, st.current).c, Some(PcOf(st, st.current).c), c);
    } else {
      CondFrame(st, a);
    }
  }

  lemma PopStays(st: State, d: Cond, rest: Option<Cond>, c: Cond)
    requires c in st.conds
    ensures c in CondPop(st, d, rest).conds
  {
    if CondAt(st, d).waiters == [] {}
  }

  lemma BroadcastStep(st: State, a: Action, t: Tid, c: Cond)
    requires Inv(st) && Enabled(st, a) && Broadcasts(st, t, c) && c in st.conds
    ensures Onward(st, Apply(st, a), t, c)
  {
    if t == st.current {
      OwnStep(st, a, c);
    } else {
      StepPc(st, a, t);
      BroadcastAlone(st, a, t, c);
      CondsStay(st, a, c);
    }
  }

  // Nobody but t is about to up the private semaphore of call k.
  ghost predicate OnlyBy(pc: map<Tid, Pc>, k: Ticket, t: Tid) {
    C.Signallers(pc, k) <= {t}
  }

  // Who else signals meanwhile signals calls on other condition variables.
  lemma SignallerStep(st: State, a: Action, t: Tid, c: Cond, k: Ticket)
    requires Inv(st) && Enabled(st, a) && Broadcasts(st, t, c) && c in st.conds
    requires k in st.conds[c].arrivals && OnlyBy(st.pc, k, t)
    ensures OnlyBy(Apply(st, a).pc, k, t)
  {
    forall u | u in C.Signallers(Apply(st, a).pc, k) && u != t ensures false {
      StepPc(st, a, u);
      assert u !in C.Signallers(st.pc, k);
      NoOther(st, a, t, c, k, u);
    }
  }

  lemma NoOther(st: State, a: Action, t: Tid, c: Cond, k: Ticket, u: Tid)
    requires Inv(st) && Enabled(st, a) && Broadcasts(st, t, c) && c in st.conds && k in st.conds[c].arrivals
    requires u in st.pc && u !in C.Signallers(st.pc, k) && u != t
    ensures u !in C.Signallers(Apply(st, a).pc, k)
  {
    StepPc(st, a, u);
    if u in C.Signallers(Apply(st, a).pc, k) {
      var d :| d in st.conds && st.conds[d].waiters != [] && st.conds[d].waiters[0] == k
               && CondAt(Apply(st, a), d).signals == st.conds[d].signals + 1;
      SameCond(st, d, c, k);
      BroadcastAlone(st, a, t, c);
    }
  }

  // A call waits on one condition variable.
  lemma SameCond(st: State, d: Cond, c: Cond, k: Ticket)
    requires CondsOk(st) && d in st.conds && c in st.conds && k in st.conds[c].arrivals
    requires st.conds[d].waiters != [] && st.conds[d].waiters[0] == k
    ensures d == c
  {
    assert C.CondOk(st.calls, c, st.conds[c]) && C.CondOk(st.calls, d, st.conds[d]);
    assert st.conds[d].arrivals[st.conds[d].signals] == k;
  }

  // ---------- the whole broadcast ----------

  // From any moment of the broadcast to any later one, or to its return.
  lemma {:induction false} BroadcastRun(st: State, acts: seq<Action>, t: Tid, c: Cond)
    requires Inv(st) && IsRun(st, acts) && Broadcasts(st, t, c) && c in st.conds && During(st, acts, t, c)
    ensures Inv(Final(st, acts)) && Onward(st, Final(st, acts), t, c)
    decreases |acts|
  {
    if acts != [] {
      var r := Apply(st, acts[0]);
      StepInv(st, acts[0]);
      BroadcastStep(st, acts[0], t, c);
      if Broadcasts(r, t, c) {
        BroadcastRun(r, acts[1..], t, c);
      } else {
        assert acts[1..] == [];
      }
    }
  }

  lemma {:induction false} SignallerRun(st: State, acts: seq<Action>, t: Tid, c: Cond, k: Ticket)
    requires Inv(st) && IsRun(st, acts) && Broadcasts(st, t, c) && c in st.conds && During(st, acts, t, c)
    requires k in st.conds[c].arrivals && OnlyBy(st.pc, k, t)
    ensures OnlyBy(Final(st, acts).pc, k, t)
    decreases |acts|
  {
    if acts != [] {
      var r := Apply(st, acts[0]);
      StepInv(st, acts[0]);
      BroadcastStep(st, acts[0], t, c);
      SignallerStep(st, acts[0], t, c, k);
      if Broadcasts(r, t, c) {
        SignallerRun(r, acts[1..], t, c, k);
      } else {
        assert acts[1..] == [];
      }
    }
  }

  // A broadcast, from any reachable state to its return, wakes exactly the calls that were waiting
  // when it began: their signals are the next ones, in the order of arrival, each has upped its
  // private semaphore once, and nobody has arrived in between.
  lemma BroadcastWakes(before: seq<Action>, acts: seq<Action>, c: Cond)
    requires IsRun(Boot(), before) && Enabled(Final(Boot(), before), OnCond(Broadcast(c)))
    requires var st := Apply(Final(Boot(), before), OnCond(Broadcast(c)));
      IsRun(st, acts) && During(st, acts, st.current, c) && !Broadcasts(Final(st, acts), st.current, c)
    ensures var st := Final(Boot(), before); var r := Final(Apply(st, OnCond(Broadcast(c))), acts);
      && c in r.conds && PcOf(r, st.current).Run?
      && r.conds[c] == CondVar([], st.conds[c].arrivals, st.conds[c].signals + |st.conds[c].waiters|)
      && forall k | k in st.conds[c].waiters :: OfWait(k) in r.semas && r.semas[OfWait(k)].ups == 1
  {
    Reached(before);
    var st0 := Final(Boot(), before);
    var st := Apply(st0, OnCond(Broadcast(c)));
    assert st == SetPc(st0, Broadcasting(c));
    StepInv(st0, OnCond(Broadcast(c)));
    BroadcastRun(st, acts, st.current, c);
    var r := Final(st, acts);
    assert C.CondOk(st0.calls, c, st0.conds[c]) && C.CondOk(r.calls, c, r.conds[c]);
    forall k | k in st0.conds[c].waiters ensures OfWait(k) in r.semas && r.semas[OfWait(k)].ups == 1 {
      Unsignalled(st, c, k);
      SignallerRun(st, acts, st.current, c, k);
      AllSignalled(r, st.current, c, k);
    }
  }

  // A call that still waits has no signaller.
  lemma Unsignalled(st: State, c: Cond, k: Ticket)
    requires CondsOk(st) && c in st.conds && k in st.conds[c].waiters
    ensures k in st.conds[c].arrivals && C.Signallers(st.pc, k) == {}
  {
    var v := st.conds[c];
    assert C.CondOk(st.calls, c, v);
    var i :| 0 <= i < |v.waiters| && v.waiters[i] == k;
    assert v.arrivals[v.signals + i] == k;
    assert C.TicketOk(st.conds, st.calls, st.semas, st.pc, k);
    assert !C.Popped(v, k);
  }

  // With no waiters left, a call without a signaller has been upped.
  lemma AllSignalled(st: State, t: Tid, c: Cond, k: Ticket)
    requires CondsOk(st) && c in st.conds && st.conds[c].waiters == [] && k in st.conds[c].arrivals
    requires OnlyBy(st.pc, k, t) && PcOf(st, t).Run? && t in st.pc
    ensures OfWait(k) in st.semas && st.semas[OfWait(k)].ups == 1
  {
    var v := st.conds[c];
    assert C.CondOk(st.calls, c, v);
    assert v.arrivals[..v.signals] == v.arrivals;
    assert C.TicketOk(st.conds, st.calls, st.semas, st.pc, k);
    assert C.Signallers(st.pc, k) == {};
  }

  // ---------- broadcasts are on condition variables that exist ----------

  function Target(p: Pc): (c: Option<Cond>) {
    match p
    case Broadcasting(c) => Some(c)
    case Signalling(_, rest) => rest
    case _ => None
  }

  predicate KnownAt(st: State, t: Tid) {
    t in st.pc && Target(st.pc[t]).Some? ==> Target(st.pc[t]).value in st.conds
  }

  ghost predicate Known(st: State) {
    forall t {:trigger KnownAt(st, t)} :: KnownAt(st, t)
  }

  // The current thread comes to a broadcast only by calling it.
  predicate StartsKnown(st: State, r: State) {
    var p := PcOf(r, st.current);
    Target(p).Some? ==> Target(p).value in st.conds || Target(p) == Target(PcOf(st, st.current))
  }

  lemma CpuStarts(st: State, a: CpuAction)
    requires CpuEnabled(st, a)
    ensures StartsKnown(st, CpuStep(st, a))
  {
    match a
    case TimerTick => TickPc(st);
    case ThreadYield => YieldPc(st);
    case ThreadExit => SchedulePc(SetStatus(st, Dying));
    case IdleBlocks => SchedulePc(SetStatus(st, Blocked));
    case _ =>
  }

  lemma SemaStarts(st: State, a: SemaAction)
    requires SemaEnabled(st, a)
    ensures StartsKnown(st, SemaStep(st, a))
  {
    var p := PcOf(st, st.current);
    match a
    case Down(n) => DownStarts(st, Plain(n), Return);
    case TryDown(n) => if SemaAt(st, Plain(n)).value > 0 {}
    case Retest => DownStarts(st, p.s, p.after);
    case _ =>
  }

  lemma DownStarts(st: State, s: SemaId, after: After)
    ensures Target(PcOf(SemaDown(st, s, after), st.current)) == None
  {
    if SemaAt(st, s).value == 0 { SchedulePc(Asleep(st, s, after)); }
  }

  lemma LockStarts(st: State, a: LockAction)
    requires LockEnabled(st, a)
    ensures StartsKnown(st, LockStep(st, a))
  {
    var p := PcOf(st, st.current);
    match a
    case AcquireDown => DownStarts(st, OfLock(p.l), Hold(p.l, p.wait));
    case AcquireTry => TryPc(st, st.current);
    case HandlerTry(l) => HandlerPc(st, l);
    case _ =>
  }

  lemma PopStarts(st: State, c: Cond, rest: Option<Cond>)
    requires rest == None || rest == Some(c)
    ensures StartsKnown(st, CondPop(st, c, rest))
  {
    if CondAt(st, c).waiters == [] {}
  }

  lemma CondStarts(st: State, a: CondAction)
    requires CondEnabled(st, a)
    ensures StartsKnown(st, CondStep(st, a))
  {
    var p := PcOf(st, st.current);
    match a
    case WaitDown => DownStarts(st, OfWait(p.k), Regain(p.l, p.k));
    case Signal(c) => PopStarts(st, c, None);
    case BroadcastNext => PopStarts(st, p.c, Some(p.c));
    case BroadcastNone(c) => PopStarts(st, c, Some(c));
    case _ =>
  }

  lemma StepKnown(st: State, a: Action)
    requires Inv(st) && Enabled(st, a) && Known(st)
    ensures Known(Apply(st, a))
  {
    var r := Apply(st, a);
    match a {
      case Cpu(b) => CpuStarts(st, b);
      case OnSema(b) => SemaStarts(st, b);
      case OnLock(b) => LockStarts(st, b);
      case OnCond(b) => CondStarts(st, b);
    }
    forall t ensures KnownAt(r, t) {
      StepPc(st, a, t);
      assert KnownAt(st, t);
      if t in r.pc && Target(r.pc[t]).Some? && Target(r.pc[t]).value in st.conds {
        CondsStay(st, a, Target(r.pc[t]).value);
      }
    }
  }
}
