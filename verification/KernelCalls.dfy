// threads/thread.c and threads/synch.c: what a call has done when it returns, whatever else runs
// between its beginning and its end.

module KernelCalls {
  import opened Options
  import opened KernelModel
  import opened KernelPlaces
  import opened KernelSteps
  import opened KernelRuns
  import opened KernelBroadcast
  import opened KernelTrace
  import L = KernelLocks
  import C = KernelConds

  // ---------- the way through the code ----------

  // Where the current thread is after an action.
  function NextPc(st: State, a: Action): (q: Pc) {
    match a
    case Cpu(b) => CpuNext(PcOf(st, st.current), b)
    case OnSema(b) => SemaNext(st, PcOf(st, st.current), b)
    case OnLock(b) => LockNext(st, PcOf(st, st.current), b)
    case OnCond(b) => CondNext(st, PcOf(st, st.current), b)
  }

  function CpuNext(p: Pc, a: CpuAction): (q: Pc) {
    match a
    case ThreadInit(ch) => Creating(ch)
    case ThreadLaunch => Run
    case IdleStart => IdleUp
    case IdleUps => IdleLoop
    case _ => p
  }

  // Past a test of semaphore S, or asleep on it.
  function Tested(st: State, s: SemaId, after: After): (q: Pc) {
    if SemaAt(st, s).value > 0 then Resume(after) else Downing(s, after)
  }

  function SemaNext(st: State, p: Pc, a: SemaAction): (q: Pc) {
    match a
    case Down(n) => Tested(st, Plain(n), Return)
    case Retest => if p.Downing? then Tested(st, p.s, p.after) else p
    case _ => p
  }

  function LockNext(st: State, p: Pc, a: LockAction): (q: Pc) {
    match a
    case Acquire(l) => Acquiring(l, None)
    case AcquireDown => if p.Acquiring? then Tested(st, OfLock(p.l), Hold(p.l, p.wait)) else p
    case TryAcquire(l) => Trying(l)
    case AcquireTry =>
      if !p.Trying? then p else if SemaAt(st, OfLock(p.l)).value > 0 then SetHolder(p.l, None) else Run
    case TakeHolder => Run
    case Release(l) => Unlocking(l, None)
    case ReleaseUp => if p.Unlocking? && p.wait.Some? then Waiting(p.l, p.wait.value) else Run
    case _ => p
  }

  // At the sema_up for the first waiter, or done.
  function Popped(st: State, c: Cond, rest: Option<Cond>): (q: Pc) {
    if CondAt(st, c).waiters == [] then Run else Signalling(CondAt(st, c).waiters[0], rest)
  }

  function CondNext(st: State, p: Pc, a: CondAction): (q: Pc) {
    match a
    case CondInit(_) => p
    case Wait(c) => Enqueued(c.lock, |st.calls|)
    case WaitRelease => if p.Enqueued? then Unlocking(p.l, Some(p.k)) else p
    case WaitDown => if p.Waiting? then Tested(st, OfWait(p.k), Regain(p.l, p.k)) else p
    case WaitRelock => if p.Relocking? then Acquiring(p.l, Some(p.k)) else p
    case Signal(c) => Popped(st, c, None)
    case SignalUp => if p.Signalling? && p.rest.Some? then Broadcasting(p.rest.value) else Run
    case Broadcast(c) => Broadcasting(c)
    case BroadcastNext => if p.Broadcasting? then Popped(st, p.c, Some(p.c)) else p
    case BroadcastNone(_) => Run
  }

  lemma DownNext(st: State, s: SemaId, after: After)
    ensures PcOf(SemaDown(st, s, after), st.current) == Tested(st, s, after)
  {
    if SemaAt(st, s).value == 0 { SchedulePc(Asleep(st, s, after)); }
  }

  lemma PopNext(st: State, c: Cond, rest: Option<Cond>)
    ensures PcOf(CondPop(st, c, rest), st.current) == Popped(st, c, rest)
  {
    if CondAt(st, c).waiters == [] {}
  }

  lemma TryNext(st: State, l: LockId)
    requires PcOf(st, st.current) == Trying(l)
    ensures PcOf(LockTry(st), st.current) == LockNext(st, Trying(l), AcquireTry)
  {
    if SemaAt(st, OfLock(l)).value > 0 {
      GotFrame(st, l);
      assert LockTry(st) == LockGot(st, l);
    }
  }

  lemma CpuGoesOn(st: State, a: CpuAction)
    requires CpuEnabled(st, a) && st.current in st.pc
    requires PcOf(st, st.current).Creating? ==> PcOf(st, st.current).child != st.current
    requires a.ThreadInit? ==> a.child != st.current
    ensures PcOf(CpuStep(st, a), st.current) == CpuNext(PcOf(st, st.current), a)
  {
    match a
    case TimerTick => TickPc(st);
    case ThreadYield => YieldPc(st);
    case ThreadExit => SchedulePc(SetStatus(st, Dying));
    case IdleBlocks => SchedulePc(SetStatus(st, Blocked));
    case _ =>
  }

  lemma SemaGoesOn(st: State, a: SemaAction)
    requires SemaEnabled(st, a)
    ensures PcOf(SemaStep(st, a), st.current) == SemaNext(st, PcOf(st, st.current), a)
  {
    var p := PcOf(st, st.current);
    match a
    case Down(n) => DownNext(st, Plain(n), Return);
    case Retest => DownNext(st, p.s, p.after);
    case TryDown(n) => if SemaAt(st, Plain(n)).value > 0 {}
    case _ =>
  }

  lemma LockGoesOn(st: State, a: LockAction)
    requires LockEnabled(st, a)
    ensures PcOf(LockStep(st, a), st.current) == LockNext(st, PcOf(st, st.current), a)
  {
    var p := PcOf(st, st.current);
    match a
    case AcquireDown => DownNext(st, OfLock(p.l), Hold(p.l, p.wait));
    case AcquireTry => TryNext(st, p.l);
    case HandlerTry(l) => HandlerPc(st, l);
    case _ =>
  }

  lemma CondGoesOn(st: State, a: CondAction)
    requires CondEnabled(st, a)
    ensures PcOf(CondStep(st, a), st.current) == CondNext(st, PcOf(st, st.current), a)
  {
    var p := PcOf(st, st.current);
    match a
    case WaitDown => DownNext(st, OfWait(p.k), Regain(p.l, p.k));
    case Signal(c) => PopNext(st, c, None);
    case BroadcastNext => PopNext(st, p.c, Some(p.c));
    case BroadcastNone(c) => PopNext(st, c, Some(c));
    case _ =>
  }

  lemma GoesOn(st: State, a: Action)
    requires Inv(st) && Enabled(st, a)
    ensures PcOf(Apply(st, a), st.current) == NextPc(st, a)
  {
    assert LifeOk(st.status, st.pc, st.freed, st.current, st.idleStarted, st.current);
    match a
    case Cpu(b) => CpuGoesOn(st, b);
    case OnSema(b) => SemaGoesOn(st, b);
    case OnLock(b) => LockGoesOn(st, b);
    case OnCond(b) => CondGoesOn(st, b);
  }

  // ---------- calls ----------

  datatype ApiCall =
    | SemaDownCall(n: int) | AcquireCall(l: LockId) | TryCall(l: LockId) | ReleaseCall(l: LockId)
    | WaitCall(l: LockId, k: Ticket) | SignalCall(k: Ticket) | CreateCall(child: Tid)

  // The call that an action begins.
  function CallBy(st: State, a: Action): (c: Option<ApiCall>) {
    match a
    case OnSema(Down(n)) => Some(SemaDownCall(n))
    case OnLock(Acquire(l)) => Some(AcquireCall(l))
    case OnLock(TryAcquire(l)) => Some(TryCall(l))
    case OnLock(Release(l)) => Some(ReleaseCall(l))
    case OnCond(Wait(c)) => Some(WaitCall(c.lock, |st.calls|))
    case OnCond(Signal(c)) => if CondAt(st, c).waiters == [] then None else Some(SignalCall(CondAt(st, c).waiters[0]))
    case Cpu(ThreadInit(ch)) => Some(CreateCall(ch))
    case _ => None
  }

  // The positions inside a call.
  predicate On(c: ApiCall, p: Pc) {
    match c
    case SemaDownCall(n) => p == Downing(Plain(n), Return)
    case AcquireCall(l) => p == Acquiring(l, None) || p == Downing(OfLock(l), Hold(l, None)) || p == SetHolder(l, None)
    case TryCall(l) => p == Trying(l) || p == SetHolder(l, None)
    case ReleaseCall(l) => p == Unlocking(l, None)
    case WaitCall(l, k) => InWait(l, k, p)
    case SignalCall(k) => p == Signalling(k, None)
    case CreateCall(ch) => p == Creating(ch)
  }

  predicate InWait(l: LockId, k: Ticket, p: Pc) {
    || p == Enqueued(l, k) || p == Unlocking(l, Some(k)) || p == Waiting(l, k)
    || p == Downing(OfWait(k), Regain(l, k)) || p == Relocking(l, k) || p == Acquiring(l, Some(k))
    || p == Downing(OfLock(l), Hold(l, Some(k))) || p == SetHolder(l, Some(k))
  }

  // What has happened when the call of thread T returns, from state R, with action A in state PRE.
  predicate Done(c: ApiCall, pre: State, a: Action, r: State, t: Tid) {
    match c
    case SemaDownCall(n) => Takes(pre, DeedOf(pre, a), Plain(n))
    case AcquireCall(l) => Holds(r, t, l)
    case TryCall(l) => Holds(r, t, l) <==> SemaAt(pre, OfLock(l)).value > 0 || PcOf(pre, t).SetHolder?
    case ReleaseCall(l) => !Holds(r, t, l) && l !in HeldBy(r, t) && DeedOf(pre, a) == Raise(OfLock(l))
    case WaitCall(l, k) => Holds(r, t, l) && r.finished == pre.finished + [k]
    case SignalCall(k) => DeedOf(pre, a) == Raise(OfWait(k))
    case CreateCall(ch) => StatusOf(r, ch) == Ready && r.ready == pre.ready + [ch]
  }

  // The action that leaves a call.
  predicate Last(c: ApiCall, st: State, a: Action) {
    var p := PcOf(st, st.current);
    match c
    case SemaDownCall(n) => Takes(st, DeedOf(st, a), Plain(n))
    case AcquireCall(l) => a == OnLock(TakeHolder) && p == SetHolder(l, None)
    case TryCall(l) =>
      || (a == OnLock(TakeHolder) && p == SetHolder(l, None))
      || (a == OnLock(AcquireTry) && p == Trying(l) && SemaAt(st, OfLock(l)).value == 0)
    case ReleaseCall(l) => a == OnLock(ReleaseUp) && p == Unlocking(l, None)
    case WaitCall(l, k) => a == OnLock(TakeHolder) && p == SetHolder(l, Some(k))
    case SignalCall(k) => a == OnCond(SignalUp) && p == Signalling(k, None)
    case CreateCall(ch) => a == Cpu(ThreadLaunch) && p == Creating(ch)
  }

  lemma StaysOrLeaves(st: State, a: Action, c: ApiCall)
    requires Enabled(st, a) && On(c, PcOf(st, st.current))
    ensures On(c, NextPc(st, a)) || (NextPc(st, a).Run? && Last(c, st, a))
  {}

  lemma BeginsOrLeaves(st: State, a: Action)
    requires Enabled(st, a) && CallBy(st, a).Some?
    ensures On(CallBy(st, a).value, NextPc(st, a))
         || (NextPc(st, a).Run? && CallBy(st, a).value.SemaDownCall? && Last(CallBy(st, a).value, st, a))
  {}

  lemma TakeHolderDone(st: State)
    requires PcOf(st, st.current).SetHolder?
    ensures var p, r := PcOf(st, st.current), LockTake(st);
      && Holds(r, st.current, p.l)
      && r.finished == st.finished + (if p.wait.Some? then [p.wait.value] else [])
  {}

  lemma TryFailed(st: State, l: LockId)
    requires Inv(st) && PcOf(st, st.current) == Trying(l) && SemaAt(st, OfLock(l)).value == 0
    ensures !Holds(LockTry(st), st.current, l)
  {
    assert L.PairOk(st.holders, st.held[st.current], st.pc[st.current], st.current, l);
    assert LockTry(st) == SetPc(st, Run);
  }

  lemma ReleaseDone(st: State, l: LockId)
    requires Inv(st) && PcOf(st, st.current) == Unlocking(l, None)
    ensures !Holds(LockUp(st), st.current, l) && l !in HeldBy(LockUp(st), st.current)
  {
    assert L.PairOk(st.holders, st.held[st.current], st.pc[st.current], st.current, l);
  }

  lemma LaunchDone(st: State, ch: Tid)
    requires PcOf(st, st.current) == Creating(ch)
    ensures StatusOf(Launch(st), ch) == Ready && Launch(st).ready == st.ready + [ch]
  {}

  lemma HolderDone(st: State, c: ApiCall)
    requires LockEnabled(st, TakeHolder) && Last(c, st, OnLock(TakeHolder))
    ensures Done(c, st, OnLock(TakeHolder), Apply(st, OnLock(TakeHolder)), st.current)
  {
    TakeHolderDone(st);
  }

  lemma LeftDone(st: State, a: Action, c: ApiCall)
    requires Inv(st) && Enabled(st, a) && Last(c, st, a)
    ensures Done(c, st, a, Apply(st, a), st.current)
  {
    if a == OnLock(TakeHolder) {
      HolderDone(st, c);
    } else if !c.SemaDownCall? {
      OtherDone(st, a, c);
    }
  }

  lemma OtherDone(st: State, a: Action, c: ApiCall)
    requires Inv(st) && Enabled(st, a) && Last(c, st, a) && a != OnLock(TakeHolder)
    requires c.TryCall? || c.ReleaseCall? || c.SignalCall? || c.CreateCall?
    ensures Done(c, st, a, Apply(st, a), st.current)
  {
    match c
    case TryCall(l) => TryDone(st, l);
    case ReleaseCall(l) => GaveUp(st, l);
    case SignalCall(k) => SignalDone(st, k);
    case CreateCall(ch) => CreateDone(st, ch);
  }

  lemma TryDone(st: State, l: LockId)
    requires Inv(st) && PcOf(st, st.current) == Trying(l) && SemaAt(st, OfLock(l)).value == 0
    ensures Done(TryCall(l), st, OnLock(AcquireTry), Apply(st, OnLock(AcquireTry)), st.current)
  {
    TryFailed(st, l);
  }

  lemma GaveUp(st: State, l: LockId)
    requires Inv(st) && PcOf(st, st.current) == Unlocking(l, None)
    ensures Done(ReleaseCall(l), st, OnLock(ReleaseUp), Apply(st, OnLock(ReleaseUp)), st.current)
  {
    ReleaseDone(st, l);
  }

  lemma SignalDone(st: State, k: Ticket)
    requires PcOf(st, st.current) == Signalling(k, None)
    ensures Done(SignalCall(k), st, OnCond(SignalUp), Apply(st, OnCond(SignalUp)), st.current)
  {}

  lemma CreateDone(st: State, ch: Tid)
    requires PcOf(st, st.current) == Creating(ch)
    ensures Done(CreateCall(ch), st, Cpu(ThreadLaunch), Apply(st, Cpu(ThreadLaunch)), st.current)
  {
    LaunchDone(st, ch);
  }

  // ---------- from the beginning of a call to its return ----------

  // Thread T comes back to its caller in the last state of the run and not before.
  ghost predicate Returns(st: State, acts: seq<Action>, t: Tid)
    requires IsRun(st, acts)
    decreases |acts|
  {
    if acts == [] then PcOf(st, t).Run?
    else !PcOf(st, t).Run? && Returns(Apply(st, acts[0]), acts[1..], t)
  }

  // Action A of thread T ended the call in state R.
  ghost predicate EndedBy(c: ApiCall, a: Action, r: State, t: Tid) {
    exists pre: State :: pre.current == t && Enabled(pre, a) && r == Apply(pre, a) && Done(c, pre, a, r, t)
  }

  lemma EndsHere(st: State, a: Action, c: ApiCall)
    requires Inv(st) && Enabled(st, a) && Last(c, st, a)
    ensures EndedBy(c, a, Apply(st, a), st.current)
  {
    LeftDone(st, a, c);
  }

  lemma CallStep(st: State, a: Action, t: Tid, c: ApiCall)
    requires Inv(st) && Enabled(st, a) && t in st.pc && On(c, st.pc[t])
    ensures t in Apply(st, a).pc
    ensures On(c, Apply(st, a).pc[t]) || (PcOf(Apply(st, a), t).Run? && st.current == t && Last(c, st, a))
  {
    StepPc(st, a, t);
    if t == st.current {
      GoesOn(st, a);
      StaysOrLeaves(st, a, c);
    }
  }

  // Thread T is inside the call, from which it returns at the end of the run.
  ghost predicate Calling(st: State, acts: seq<Action>, t: Tid, c: ApiCall) {
    Inv(st) && IsRun(st, acts) && t in st.pc && On(c, st.pc[t]) && Returns(st, acts, t)
  }

  lemma Unrolled(st: State, acts: seq<Action>, t: Tid)
    requires acts != [] && IsRun(st, acts) && Returns(st, acts, t)
    ensures Enabled(st, acts[0])
    ensures var r, rest := Apply(st, acts[0]), acts[1..];
      && IsRun(r, rest) && Returns(r, rest, t) && Final(r, rest) == Final(st, acts)
      && (PcOf(r, t).Run? <==> rest == []) && (rest == [] ==> Final(st, acts) == r)
  {}

  lemma CallLast(st: State, acts: seq<Action>, t: Tid, c: ApiCall)
    requires Calling(st, acts, t, c) && |acts| == 1
    ensures EndedBy(c, acts[0], Final(st, acts), t)
  {
    Unrolled(st, acts, t);
    CallStep(st, acts[0], t, c);
    OnNotRun(c);
    EndsHere(st, acts[0], c);
  }

  lemma OnNotRun(c: ApiCall)
    ensures !On(c, Run)
  {}

  lemma CallNext(st: State, acts: seq<Action>, t: Tid, c: ApiCall) returns (r: State, rest: seq<Action>)
    requires Calling(st, acts, t, c) && |acts| > 1
    ensures 0 < |rest| < |acts| && rest[|rest| - 1] == acts[|acts| - 1]
    ensures Calling(r, rest, t, c) && Final(r, rest) == Final(st, acts)
  {
    r, rest := Apply(st, acts[0]), acts[1..];
    Unrolled(st, acts, t);
    CallStep(st, acts[0], t, c);
    StepInv(st, acts[0]);
  }

  // The last action of the run and its last state are LAST and END.
  lemma {:induction false} CallRun(st: State, acts: seq<Action>, t: Tid, c: ApiCall, last: Action, end: State)
    requires Calling(st, acts, t, c) && acts != [] && last == acts[|acts| - 1] && end == Final(st, acts)
    ensures EndedBy(c, last, end, t)
    decreases |acts|
  {
    if |acts| == 1 {
      CallLast(st, acts, t, c);
    } else {
      var r, rest := CallNext(st, acts, t, c);
      CallRun(r, rest, t, c, last, end);
    }
  }

  // A call from any reachable state, whatever else runs meanwhile, has done when it returns what it is
  // for: sema_down has taken a unit, lock_acquire and cond_wait hold the lock, cond_wait has finished its
  // call, lock_try_acquire holds it exactly if it was free, lock_release has given it up, cond_signal has
  // upped the first waiter, thread_create has made the new thread READY.
  lemma CallsReturn(before: seq<Action>, a: Action, acts: seq<Action>)
    requires IsRun(Boot(), before) && Enabled(Final(Boot(), before), a) && CallBy(Final(Boot(), before), a).Some?
    requires IsRun(Apply(Final(Boot(), before), a), acts)
    requires Returns(Apply(Final(Boot(), before), a), acts, Final(Boot(), before).current)
    ensures var st := Final(Boot(), before);
      EndedBy(CallBy(st, a).value, ([a] + acts)[|acts|], Final(Apply(st, a), acts), st.current)
  {
    Reached(before);
    CallsReturnFrom(Final(Boot(), before), a, acts);
  }

  lemma CallBegins(st: State, a: Action)
    requires Inv(st) && Enabled(st, a) && CallBy(st, a).Some?
    ensures var r, c := Apply(st, a), CallBy(st, a).value;
      Inv(r) && st.current in r.pc && (if PcOf(r, st.current).Run? then Last(c, st, a) else On(c, r.pc[st.current]))
  {
    StepPc(st, a, st.current);
    GoesOn(st, a);
    BeginsOrLeaves(st, a);
    StepInv(st, a);
  }

  lemma CallGoesOn(st: State, a: Action, acts: seq<Action>)
    requires Inv(st) && Enabled(st, a) && CallBy(st, a).Some? && acts != []
    requires IsRun(Apply(st, a), acts) && Returns(Apply(st, a), acts, st.current)
    ensures Calling(Apply(st, a), acts, st.current, CallBy(st, a).value)
  {
    CallBegins(st, a);
    Unrolled(Apply(st, a), acts, st.current);
  }

  lemma CallReturnsAtOnce(st: State, a: Action)
    requires Inv(st) && Enabled(st, a) && CallBy(st, a).Some? && Returns(Apply(st, a), [], st.current)
    ensures EndedBy(CallBy(st, a).value, a, Apply(st, a), st.current)
  {
    CallBegins(st, a);
    EndsHere(st, a, CallBy(st, a).value);
  }

  lemma CallReturnsLater(st: State, a: Action, acts: seq<Action>)
    requires Inv(st) && Enabled(st, a) && CallBy(st, a).Some? && acts != []
    requires IsRun(Apply(st, a), acts) && Returns(Apply(st, a), acts, st.current)
    ensures EndedBy(CallBy(st, a).value, acts[|acts| - 1], Final(Apply(st, a), acts), st.current)
  {
    CallGoesOn(st, a, acts);
    CallReturned(Apply(st, a), acts, st.current, CallBy(st, a).value);
  }

  lemma CallReturned(st: State, acts: seq<Action>, t: Tid, c: ApiCall)
    requires Calling(st, acts, t, c) && acts != []
    ensures EndedBy(c, acts[|acts| - 1], Final(st, acts), t)
  {
    CallRun(st, acts, t, c, acts[|acts| - 1], Final(st, acts));
  }

  lemma CallsReturnFrom(st: State, a: Action, acts: seq<Action>)
    requires Inv(st) && Enabled(st, a) && CallBy(st, a).Some?
    requires IsRun(Apply(st, a), acts) && Returns(Apply(st, a), acts, st.current)
    ensures EndedBy(CallBy(st, a).value, ([a] + acts)[|acts|], Final(Apply(st, a), acts), st.current)
  {
    if acts == [] { CallReturnsAtOnce(st, a); } else { CallReturnsLater(st, a, acts); }
  }

  // ---------- releases, counted ----------

  // The action gives up lock L: lock_release, called or on behalf of cond_wait.
  predicate Releases(st: State, a: Action, l: LockId) {
    var p := PcOf(st, st.current);
    a == OnLock(Release(l)) || (a == OnCond(WaitRelease) && p.Enqueued? && p.l == l)
  }

  // Threads in lock_release on L, before its sema_up.
  predicate IsUnlocking(p: Pc, l: LockId) { p.Unlocking? && p.l == l }

  predicate Unlocks(pc: map<Tid, Pc>, t: Tid, l: LockId) { t in pc && IsUnlocking(pc[t], l) }

  ghost function Unlockers(pc: map<Tid, Pc>, l: LockId): (r: set<Tid>) {
    set t | t in pc && Unlocks(pc, t, l)
  }

  lemma UnlockNext(st: State, a: Action, l: LockId)
    requires Enabled(st, a)
    ensures One(IsUnlocking(NextPc(st, a), l)) + One(DeedOf(st, a) == Raise(OfLock(l)))
         == One(IsUnlocking(PcOf(st, st.current), l)) + One(Releases(st, a, l))
  {}

  lemma UnlockMoves(pc: map<Tid, Pc>, pc1: map<Tid, Pc>, t: Tid, l: LockId)
    requires t in pc && t in pc1
    requires forall u | u != t :: Unlocks(pc, u, l) <==> Unlocks(pc1, u, l)
    ensures |Unlockers(pc1, l)| + One(IsUnlocking(pc[t], l)) == |Unlockers(pc, l)| + One(IsUnlocking(pc1[t], l))
  {
    var rest := Unlockers(pc, l) - {t};
    assert Unlockers(pc, l) == rest + (if IsUnlocking(pc[t], l) then {t} else {});
    assert Unlockers(pc1, l) == rest + (if IsUnlocking(pc1[t], l) then {t} else {});
  }

  lemma UnlockStep(st: State, a: Action, l: LockId)
    requires Inv(st) && Enabled(st, a)
    ensures |Unlockers(Apply(st, a).pc, l)| + One(DeedOf(st, a) == Raise(OfLock(l)))
         == |Unlockers(st.pc, l)| + One(Releases(st, a, l))
  {
    var r, t := Apply(st, a), st.current;
    forall u | u != t ensures Unlocks(st.pc, u, l) <==> Unlocks(r.pc, u, l) {
      StepPc(st, a, u);
    }
    StepPc(st, a, t);
    GoesOn(st, a);
    UnlockNext(st, a, l);
    UnlockMoves(st.pc, r.pc, t, l);
  }

  ghost function ReleasesIn(st: State, acts: seq<Action>, l: LockId): (n: nat)
    requires IsRun(st, acts)
    decreases |acts|
  {
    if acts == [] then 0 else One(Releases(st, acts[0], l)) + ReleasesIn(Apply(st, acts[0]), acts[1..], l)
  }

  lemma {:induction false} ReleasesTrue(st: State, acts: seq<Action>, l: LockId)
    requires Inv(st) && IsRun(st, acts)
    ensures |Unlockers(Final(st, acts).pc, l)| + RaisesIn(st, acts, OfLock(l))
         == |Unlockers(st.pc, l)| + ReleasesIn(st, acts, l)
    decreases |acts|
  {
    if acts != [] {
      UnlockStep(st, acts[0], l);
      StepInv(st, acts[0]);
      ReleasesTrue(Apply(st, acts[0]), acts[1..], l);
    }
  }

  // On every run, a lock has been released as often as it has been taken, but for the thread that is
  // in its critical section or about to finish lock_release.
  lemma LocksCounted(acts: seq<Action>, l: LockId)
    requires IsRun(Boot(), acts)
    ensures var st := Final(Boot(), acts);
      BeginsIn(Boot(), acts, OfLock(l)) + ReleasesIn(Boot(), acts, l)
      == SemaAt(st, OfLock(l)).value + TakesIn(Boot(), acts, OfLock(l)) + |Unlockers(st.pc, l)|
  {
    UnitsCounted(acts, OfLock(l));
    BootInv();
    ReleasesTrue(Boot(), acts, l);
    assert Unlockers(Boot().pc, l) == {};
  }
}
