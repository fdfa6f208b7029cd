// threads/thread.c and threads/synch.c: what each action does to semaphores and to the line for the
// CPU, and what a run adds up to, counted from its actions.

module KernelTrace {
  import opened Options
  import opened KernelModel
  import opened KernelPlaces
  import opened KernelSteps
  import opened KernelRuns
  import C = KernelConds

  // What an action is, for the semaphores and for the scheduler.
  datatype Deed =
    | Start(s: SemaId, v: nat)     // sema_init
    | Raise(s: SemaId)             // sema_up
    | Test(s: SemaId)              // one test in the loop of sema_down
    | Try(s: SemaId)               // sema_try_down
    | Turn                         // thread_yield, called or forced
    | Stop                         // thread_exit, or idling
    | Spawn(child: Tid)            // the thread_unblock that ends thread_create
    | Other

  function DeedOf(st: State, a: Action): (d: Deed) {
    match a
    case Cpu(b) => CpuDeed(st, b)
    case OnSema(b) => SemaDeed(PcOf(st, st.current), b)
    case OnLock(b) => LockDeed(PcOf(st, st.current), b)
    case OnCond(b) => CondDeed(PcOf(st, st.current), b)
  }

  function CpuDeed(st: State, a: CpuAction): (d: Deed) {
    match a
    case TimerTick => if st.slice + 1 < TIME_SLICE then Other else Turn
    case ThreadYield => Turn
    case ThreadExit => Stop
    case ThreadInit(_) => Other
    case ThreadLaunch => if PcOf(st, st.current).Creating? then Spawn(PcOf(st, st.current).child) else Other
    case IdleStart => Stop
    case IdleUps => Raise(Plain(0))
    case IdleBlocks => Stop
  }

  function SemaDeed(p: Pc, a: SemaAction): (d: Deed) {
    match a
    case SemaInit(n, v) => Start(Plain(n), v)
    case Down(n) => Test(Plain(n))
    case TryDown(n) => Try(Plain(n))
    case Up(n) => Raise(Plain(n))
    case Retest => if p.Downing? then Test(p.s) else Other
  }

  function LockDeed(p: Pc, a: LockAction): (d: Deed) {
    match a
    case LockInit(l) => Start(OfLock(l), 1)
    case AcquireDown => if p.Acquiring? then Test(OfLock(p.l)) else Other
    case AcquireTry => if p.Trying? then Try(OfLock(p.l)) else Other
    case HandlerTry(l) => Try(OfLock(l))
    case ReleaseUp => if p.Unlocking? then Raise(OfLock(p.l)) else Other
    case _ => Other
  }

  function CondDeed(p: Pc, a: CondAction): (d: Deed) {
    match a
    case WaitDown => if p.Waiting? then Test(OfWait(p.k)) else Other
    case SignalUp => if p.Signalling? then Raise(OfWait(p.k)) else Other
    case _ => Other
  }

  // ---------- semaphores ----------

  function One(b: bool): (n: nat) { if b then 1 else 0 }

  // A test that finds a unit takes it; one in sema_down that finds none puts the thread to sleep.
  predicate Takes(st: State, d: Deed, s: SemaId) { (d == Test(s) || d == Try(s)) && SemaAt(st, s).value > 0 }

  predicate Sleeps(st: State, d: Deed) { d.Test? && SemaAt(st, d.s).value == 0 }

  function Begins(d: Deed, s: SemaId): (n: nat) { if d.Start? && d.s == s then d.v else 0 }

  // The first waiter comes off, or the current thread joins at the end.
  function WaitersAfter(st: State, d: Deed, s: SemaId): (w: seq<Tid>) {
    var w := SemaAt(st, s).waiters;
    if d == Raise(s) && w != [] then w[1..] else if d == Test(s) && Sleeps(st, d) then w + [st.current] else w
  }

  predicate SemaGoes(st: State, d: Deed, r: State, s: SemaId) {
    var m, m1 := SemaAt(st, s), SemaAt(r, s);
    && m1.init == m.init + Begins(d, s) && m1.ups == m.ups + One(d == Raise(s))
    && m1.downs == m.downs + One(Takes(st, d, s)) && m1.waiters == WaitersAfter(st, d, s)
    && (s in st.semas || (d.Start? && d.s == s) ==> s in r.semas)
  }

  // ---------- the CPU ----------

  // The threads that want the CPU, in the order in which they get it; not the idle thread.
  function Line(st: State): (s: seq<Tid>) {
    if IsIdle(st, st.current) then st.ready else [st.current] + st.ready
  }

  // Who joins at the end: the thread that yields, a new one, the first waiter of a semaphore that is upped.
  function Joins(st: State, d: Deed): (s: seq<Tid>) {
    match d
    case Turn => if IsIdle(st, st.current) then [] else [st.current]
    case Spawn(ch) => [ch]
    case Raise(s) => if SemaAt(st, s).waiters == [] then [] else [SemaAt(st, s).waiters[0]]
    case _ => []
  }

  // The current thread gives up its place in front, and the next one runs.
  predicate Leaves(st: State, d: Deed) { d == Turn || d == Stop || Sleeps(st, d) }

  predicate LineGoes(st: State, d: Deed, r: State) {
    && Line(r) == (if Leaves(st, d) then st.ready else Line(st)) + Joins(st, d)
    && (!Leaves(st, d) ==> r.current == st.current)
  }

  // ---------- one step ----------

  lemma OtherGoes(st: State, r: State, s: SemaId)
    requires SemaAt(r, s) == SemaAt(st, s) && (s in st.semas ==> s in r.semas) && Line(r) == Line(st)
      && r.current == st.current
    ensures SemaGoes(st, Other, r, s) && LineGoes(st, Other, r)
  {}

  lemma ScheduleLine(st: State)
    requires !Schedule(st).panic && (st.idleStarted ==> IDLE !in st.ready)
    ensures Line(Schedule(st)) == st.ready && Schedule(st).semas == st.semas
  {
    if st.ready != [] {
      assert st.ready[0] in st.ready;
      assert st.ready == [st.ready[0]] + st.ready[1..];
    }
  }

  lemma YieldLine(st: State)
    requires !Yield(st).panic && (st.idleStarted ==> IDLE !in st.ready)
    ensures Line(Yield(st)) == st.ready + Joins(st, Turn) && Yield(st).semas == st.semas
  {
    var ready := if IsIdle(st, st.current) then st.ready else st.ready + [st.current];
    ScheduleLine(SetStatus(st.(ready := ready), Ready));
  }

  lemma UpIs(st: State, u: SemaId, s: SemaId)
    ensures var r, m := SemaUp(st, u), SemaAt(st, u);
      && SemaAt(r, s) == (if s == u then Upped(m) else SemaAt(st, s))
      && Line(r) == Line(st) + (if m.waiters == [] then [] else [m.waiters[0]])
  {}

  lemma UpGoes(st: State, mid: State, u: SemaId, s: SemaId)
    requires mid.semas == st.semas && Line(mid) == Line(st) && mid.current == st.current
    ensures SemaGoes(st, Raise(u), SemaUp(mid, u), s) && LineGoes(st, Raise(u), SemaUp(mid, u))
  {
    UpIs(mid, u, s);
  }

  lemma SleepIs(st: State, u: SemaId, after: After, s: SemaId)
    requires SemaAt(st, u).value == 0 && !SemaDown(st, u, after).panic && (st.idleStarted ==> IDLE !in st.ready)
    ensures var r, m := SemaDown(st, u, after), SemaAt(st, u);
      && Line(r) == st.ready
      && SemaAt(r, s) == if s == u then m.(waiters := m.waiters + [st.current]) else SemaAt(st, s)
  {
    ScheduleLine(Asleep(st, u, after));
  }

  lemma TakeIs(st: State, u: SemaId, s: SemaId)
    requires SemaAt(st, u).value > 0
    ensures var r, m := Taken(st, u), SemaAt(st, u);
      && Line(r) == Line(st)
      && SemaAt(r, s) == if s == u then m.(value := m.value - 1, downs := m.downs + 1) else SemaAt(st, s)
  {}

  lemma SleepGoes(st: State, u: SemaId, after: After, s: SemaId)
    requires SemaAt(st, u).value == 0 && !SemaDown(st, u, after).panic && (st.idleStarted ==> IDLE !in st.ready)
    ensures SemaGoes(st, Test(u), SemaDown(st, u, after), s) && LineGoes(st, Test(u), SemaDown(st, u, after))
  {
    SleepIs(st, u, after, s);
  }

  lemma TakeGoes(st: State, d: Deed, mid: State, r: State, u: SemaId, s: SemaId)
    requires SemaAt(st, u).value > 0 && mid.semas == st.semas && Line(mid) == Line(st) && (d == Test(u) || d == Try(u))
    requires r.semas == Taken(mid, u).semas && Line(r) == Line(Taken(mid, u)) && r.current == st.current
    ensures SemaGoes(st, d, r, s) && LineGoes(st, d, r)
  {
    TakeIs(mid, u, s);
  }

  lemma DownGoes(st: State, u: SemaId, after: After, s: SemaId)
    requires !SemaDown(st, u, after).panic && (st.idleStarted ==> IDLE !in st.ready)
    ensures SemaGoes(st, Test(u), SemaDown(st, u, after), s) && LineGoes(st, Test(u), SemaDown(st, u, after))
  {
    if SemaAt(st, u).value == 0 {
      SleepGoes(st, u, after, s);
    } else {
      var mid := SetPc(st, Resume(after));
      TakeGoes(st, Test(u), mid, Taken(mid, u), u, s);
    }
  }

  // sema_try_down: MID is the state apart from what the unit changes.
  lemma TryGoes(st: State, u: SemaId, mid: State, r: State, s: SemaId)
    requires mid.semas == st.semas && Line(mid) == Line(st) && r.current == st.current
    requires SemaAt(st, u).value > 0 ==> r.semas == Taken(mid, u).semas && Line(r) == Line(Taken(mid, u))
    requires SemaAt(st, u).value == 0 ==> r.semas == st.semas && Line(r) == Line(st)
    ensures SemaGoes(st, Try(u), r, s) && LineGoes(st, Try(u), r)
  {
    if SemaAt(st, u).value > 0 { TakeGoes(st, Try(u), mid, r, u, s); }
  }

  lemma StartGoes(st: State, u: SemaId, v: nat, r: State, s: SemaId)
    requires u !in st.semas && r.semas == SemaNew(st, u, v).semas && Line(r) == Line(st) && r.current == st.current
    ensures SemaGoes(st, Start(u, v), r, s) && LineGoes(st, Start(u, v), r)
  {}

  lemma TurnGoes(st: State, mid: State, s: SemaId)
    requires !Yield(mid).panic && (st.idleStarted ==> IDLE !in st.ready)
    requires mid.semas == st.semas && mid.ready == st.ready && mid.current == st.current
      && mid.idleStarted == st.idleStarted
    ensures SemaGoes(st, Turn, Yield(mid), s) && LineGoes(st, Turn, Yield(mid))
  {
    YieldLine(mid);
  }

  lemma StopGoes(st: State, x: Status, s: SemaId)
    requires !Schedule(SetStatus(st, x)).panic && (st.idleStarted ==> IDLE !in st.ready)
    ensures SemaGoes(st, Stop, Schedule(SetStatus(st, x)), s) && LineGoes(st, Stop, Schedule(SetStatus(st, x)))
  {
    ScheduleLine(SetStatus(st, x));
  }

  lemma TickGoes(st: State, s: SemaId)
    requires !Tick(st).panic && (st.idleStarted ==> IDLE !in st.ready)
    ensures SemaGoes(st, CpuDeed(st, TimerTick), Tick(st), s) && LineGoes(st, CpuDeed(st, TimerTick), Tick(st))
  {
    if st.slice + 1 < TIME_SLICE {
      OtherGoes(st, Counted(st), s);
    } else {
      TurnGoes(st, Counted(st), s);
    }
  }

  lemma SpawnGoes(st: State, s: SemaId)
    requires PcOf(st, st.current).Creating?
    ensures var d := Spawn(PcOf(st, st.current).child); SemaGoes(st, d, Launch(st), s) && LineGoes(st, d, Launch(st))
  {
    assert Launch(st).semas == st.semas && Line(Launch(st)) == Line(st) + [PcOf(st, st.current).child];
  }

  lemma IdleGoes(st: State, s: SemaId)
    requires st.current == IDLE
    ensures SemaGoes(st, Stop, IdleBegin(st), s) && LineGoes(st, Stop, IdleBegin(st))
  {
    assert IdleBegin(st).semas == st.semas && Line(IdleBegin(st)) == st.ready;
  }

  lemma CpuGoes(st: State, a: CpuAction, s: SemaId)
    requires CpuEnabled(st, a) && !CpuStep(st, a).panic && (st.idleStarted ==> IDLE !in st.ready)
    requires PcOf(st, st.current).IdleEntry? ==> st.current == IDLE
    ensures SemaGoes(st, CpuDeed(st, a), CpuStep(st, a), s) && LineGoes(st, CpuDeed(st, a), CpuStep(st, a))
  {
    match a
    case TimerTick => TickGoes(st, s);
    case ThreadYield => TurnGoes(st, st, s);
    case ThreadExit => StopGoes(st, Dying, s);
    case ThreadInit(ch) => OtherGoes(st, Create(st, ch), s);
    case ThreadLaunch => SpawnGoes(st, s);
    case IdleStart => IdleGoes(st, s);
    case IdleUps => UpGoes(st, SetPc(st, IdleLoop), Plain(0), s);
    case IdleBlocks => StopGoes(st, Blocked, s);
  }

  lemma SemaStepGoes(st: State, a: SemaAction, s: SemaId)
    requires SemaEnabled(st, a) && !SemaStep(st, a).panic && (st.idleStarted ==> IDLE !in st.ready)
    ensures var d := SemaDeed(PcOf(st, st.current), a);
      SemaGoes(st, d, SemaStep(st, a), s) && LineGoes(st, d, SemaStep(st, a))
  {
    var p := PcOf(st, st.current);
    match a
    case SemaInit(n, v) => StartGoes(st, Plain(n), v, SemaNew(st, Plain(n), v), s);
    case Down(n) => DownGoes(st, Plain(n), Return, s);
    case TryDown(n) => TryGoes(st, Plain(n), st, SemaTryDown(st, Plain(n)), s);
    case Up(n) => UpGoes(st, st, Plain(n), s);
    case Retest => DownGoes(st, p.s, p.after, s);
  }

  lemma LockTryGoes(st: State, s: SemaId)
    requires PcOf(st, st.current).Trying?
    ensures var d := Try(OfLock(PcOf(st, st.current).l));
      SemaGoes(st, d, LockTry(st), s) && LineGoes(st, d, LockTry(st))
  {
    var l := PcOf(st, st.current).l;
    TryIs(st, l);
    TryGoes(st, OfLock(l), SetPc(st, SetHolder(l, None)), LockTry(st), s);
  }

  lemma TryIs(st: State, l: LockId)
    requires PcOf(st, st.current) == Trying(l)
    ensures SemaAt(st, OfLock(l)).value > 0 ==> LockTry(st) == Taken(SetPc(st, SetHolder(l, None)), OfLock(l))
    ensures SemaAt(st, OfLock(l)).value == 0 ==> LockTry(st) == SetPc(st, Run)
  {
    if SemaAt(st, OfLock(l)).value > 0 { assert LockTry(st) == LockGot(st, l); }
  }

  lemma HandlerGoes(st: State, l: LockId, s: SemaId)
    requires !Holds(st, st.current, l)
    ensures var d := Try(OfLock(l)); SemaGoes(st, d, HandlerTake(st, l), s) && LineGoes(st, d, HandlerTake(st, l))
  {
    HandlerIs(st, l);
    TryGoes(st, OfLock(l), st, HandlerTake(st, l), s);
  }

  lemma HandlerIs(st: State, l: LockId)
    requires !Holds(st, st.current, l)
    ensures var r := HandlerTake(st, l);
      && (SemaAt(st, OfLock(l)).value > 0 ==>
            r.semas == Taken(st, OfLock(l)).semas && Line(r) == Line(Taken(st, OfLock(l))))
      && (SemaAt(st, OfLock(l)).value == 0 ==> r == st) && r.current == st.current
  {
    if SemaAt(st, OfLock(l)).value > 0 { assert HandlerTake(st, l) == HandlerGot(st, l); }
  }

  lemma LockUpGoes(st: State, s: SemaId)
    requires PcOf(st, st.current).Unlocking?
    ensures var d := Raise(OfLock(PcOf(st, st.current).l));
      SemaGoes(st, d, LockUp(st), s) && LineGoes(st, d, LockUp(st))
  {
    var p := PcOf(st, st.current);
    LeftGoes(st, p.l, if p.wait.Some? then Waiting(p.l, p.wait.value) else Run, s);
  }

  lemma LeftGoes(st: State, l: LockId, p: Pc, s: SemaId)
    ensures var d, r := Raise(OfLock(l)), SemaUp(Left(st, l, p), OfLock(l)); SemaGoes(st, d, r, s) && LineGoes(st, d, r)
  {
    UpGoes(st, Left(st, l, p), OfLock(l), s);
  }

  lemma LockStepGoes(st: State, a: LockAction, s: SemaId)
    requires LockEnabled(st, a) && !LockStep(st, a).panic && (st.idleStarted ==> IDLE !in st.ready)
    requires a.LockInit? ==> OfLock(a.l) !in st.semas
    ensures var d := LockDeed(PcOf(st, st.current), a);
      SemaGoes(st, d, LockStep(st, a), s) && LineGoes(st, d, LockStep(st, a))
  {
    var p := PcOf(st, st.current);
    match a
    case LockInit(l) => StartGoes(st, OfLock(l), 1, LockNew(st, l), s);
    case Acquire(l) => OtherGoes(st, SetPc(st, Acquiring(l, None)), s);
    case AcquireDown => DownGoes(st, OfLock(p.l), Hold(p.l, p.wait), s);
    case TryAcquire(l) => OtherGoes(st, SetPc(st, Trying(l)), s);
    case AcquireTry => LockTryGoes(st, s);
    case HandlerTry(l) => HandlerGoes(st, l, s);
    case TakeHolder => OtherGoes(st, LockTake(st), s);
    case Release(l) => OtherGoes(st, LockDrop(st, l, None), s);
    case ReleaseUp => LockUpGoes(st, s);
  }

  lemma ArriveGoes(st: State, c: Cond, s: SemaId)
    requires OfWait(|st.calls|) !in st.semas
    ensures SemaGoes(st, Other, CondArrive(st, c), s) && LineGoes(st, Other, CondArrive(st, c))
  {
    OtherGoes(st, CondArrive(st, c), s);
  }

  lemma PopGoes(st: State, c: Cond, rest: Option<Cond>, s: SemaId)
    ensures SemaGoes(st, Other, CondPop(st, c, rest), s) && LineGoes(st, Other, CondPop(st, c, rest))
  {
    PopIs(st, c, rest);
    OtherGoes(st, CondPop(st, c, rest), s);
  }

  lemma PopIs(st: State, c: Cond, rest: Option<Cond>)
    ensures CondPop(st, c, rest).semas == st.semas && Line(CondPop(st, c, rest)) == Line(st)
  {
    if CondAt(st, c).waiters == [] {}
  }

  lemma CondUpGoes(st: State, s: SemaId)
    requires PcOf(st, st.current).Signalling?
    ensures var d := Raise(OfWait(PcOf(st, st.current).k));
      SemaGoes(st, d, CondUp(st), s) && LineGoes(st, d, CondUp(st))
  {
    var p := PcOf(st, st.current);
    MovedGoes(st, if p.rest.Some? then Broadcasting(p.rest.value) else Run, OfWait(p.k), s);
  }

  lemma MovedGoes(st: State, p: Pc, u: SemaId, s: SemaId)
    ensures SemaGoes(st, Raise(u), SemaUp(SetPc(st, p), u), s) && LineGoes(st, Raise(u), SemaUp(SetPc(st, p), u))
  {
    UpGoes(st, SetPc(st, p), u, s);
  }

  lemma CondStepGoes(st: State, a: CondAction, s: SemaId)
    requires CondEnabled(st, a) && !CondStep(st, a).panic && (st.idleStarted ==> IDLE !in st.ready)
    requires OfWait(|st.calls|) !in st.semas
    ensures var d := CondDeed(PcOf(st, st.current), a);
      SemaGoes(st, d, CondStep(st, a), s) && LineGoes(st, d, CondStep(st, a))
  {
    var p := PcOf(st, st.current);
    match a
    case CondInit(c) => OtherGoes(st, CondNew(st, c), s);
    case Wait(c) => ArriveGoes(st, c, s);
    case WaitRelease => OtherGoes(st, LockDrop(st, p.l, Some(p.k)), s);
    case WaitDown => DownGoes(st, OfWait(p.k), Regain(p.l, p.k), s);
    case WaitRelock => OtherGoes(st, CondRelock(st), s);
    case Signal(c) => PopGoes(st, c, None, s);
    case SignalUp => CondUpGoes(st, s);
    case Broadcast(c) => OtherGoes(st, SetPc(st, Broadcasting(c)), s);
    case BroadcastNext => PopGoes(st, p.c, Some(p.c), s);
    case BroadcastNone(c) => PopGoes(st, c, Some(c), s);
  }

  // What the invariant says that these need.
  lemma Known(st: State)
    requires Inv(st)
    ensures (st.idleStarted ==> IDLE !in st.ready) && (PcOf(st, st.current).IdleEntry? ==> st.current == IDLE)
    ensures OfWait(|st.calls|) !in st.semas && forall l | l !in st.holders :: OfLock(l) !in st.semas
  {
    assert LifeOk(st.status, st.pc, st.freed, st.current, st.idleStarted, st.current);
    assert |st.calls| !in st.calls;
  }

  // Every step does to every semaphore, and to the line for the CPU, what its action says.
  lemma StepGoes(st: State, a: Action, s: SemaId)
    requires Inv(st) && Enabled(st, a)
    ensures SemaGoes(st, DeedOf(st, a), Apply(st, a), s) && LineGoes(st, DeedOf(st, a), Apply(st, a))
  {
    StepInv(st, a);
    Known(st);
    match a
    case Cpu(b) => CpuGoes(st, b, s);
    case OnSema(b) => SemaStepGoes(st, b, s);
    case OnLock(b) => LockStepGoes(st, b, s);
    case OnCond(b) => CondStepGoes(st, b, s);
  }

  // ---------- one step of condition variables ----------

  // The condition variable that the action signals.
  function SignalOn(st: State, a: Action): (c: Option<Cond>) {
    var p := PcOf(st, st.current);
    match a
    case OnCond(Signal(c)) => Some(c)
    case OnCond(BroadcastNext) => if p.Broadcasting? then Some(p.c) else None
    case _ => None
  }

  predicate Pops(st: State, a: Action, c: Cond) { SignalOn(st, a) == Some(c) && CondAt(st, c).waiters != [] }

  predicate IsWait(a: Action) { a.OnCond? && a.cond.Wait? }

  predicate CondGoes(st: State, a: Action, r: State, c: Cond) {
    var v, v1 := CondAt(st, c), CondAt(r, c);
    && v1.arrivals == v.arrivals + (if a == OnCond(Wait(c)) then [|st.calls|] else [])
    && v1.signals == v.signals + One(Pops(st, a, c)) && |r.calls| == |st.calls| + One(IsWait(a))
    && (c in st.conds || a == OnCond(CondInit(c)) ==> c in r.conds)
  }

  lemma CpuCalls(st: State, a: CpuAction)
    requires CpuEnabled(st, a)
    ensures CpuStep(st, a).calls == st.calls
  {
    if a.TimerTick? && st.slice + 1 >= TIME_SLICE {}
  }

  lemma DownCalls(st: State, s: SemaId, after: After)
    ensures SemaDown(st, s, after).calls == st.calls
  {
    if SemaAt(st, s).value == 0 { assert SemaDown(st, s, after) == Schedule(Asleep(st, s, after)); }
  }

  lemma SemaCalls(st: State, a: SemaAction)
    requires SemaEnabled(st, a)
    ensures SemaStep(st, a).calls == st.calls
  {
    var p := PcOf(st, st.current);
    match a
    case Down(n) => DownCalls(st, Plain(n), Return);
    case TryDown(n) => if SemaAt(st, Plain(n)).value > 0 {}
    case Retest => DownCalls(st, p.s, p.after);
    case _ =>
  }

  lemma LockCalls(st: State, a: LockAction)
    requires LockEnabled(st, a)
    ensures LockStep(st, a).calls == st.calls
  {
    var p := PcOf(st, st.current);
    match a
    case AcquireDown => DownCalls(st, OfLock(p.l), Hold(p.l, p.wait));
    case AcquireTry => TryCalls(st);
    case HandlerTry(l) => HandlerCalls(st, l);
    case _ =>
  }

  lemma TryCalls(st: State)
    requires PcOf(st, st.current).Trying?
    ensures LockTry(st).calls == st.calls
  {
    TryIs(st, PcOf(st, st.current).l);
  }

  lemma HandlerCalls(st: State, l: LockId)
    ensures HandlerTake(st, l).calls == st.calls
  {
    if !Holds(st, st.current, l) && SemaAt(st, OfLock(l)).value > 0 {
      assert HandlerTake(st, l) == HandlerGot(st, l);
    }
  }

  lemma CondCalls(st: State, a: CondAction)
    requires CondEnabled(st, a)
    ensures a.Wait? ==> CondStep(st, a).calls == st.calls[|st.calls| := Call(a.c, st.current)]
    ensures !a.Wait? ==> CondStep(st, a).calls == st.calls
  {
    var p := PcOf(st, st.current);
    match a
    case WaitDown => DownCalls(st, OfWait(p.k), Regain(p.l, p.k));
    case Signal(c) => PopCalls(st, c, None);
    case BroadcastNext => PopCalls(st, p.c, Some(p.c));
    case BroadcastNone(c) => PopCalls(st, c, Some(c));
    case _ =>
  }

  lemma PopCalls(st: State, c: Cond, rest: Option<Cond>)
    ensures CondPop(st, c, rest).calls == st.calls
  {
    if CondAt(st, c).waiters == [] {}
  }

  lemma PopConds(st: State, c: Cond, rest: Option<Cond>, d: Cond)
    ensures var v, v1 := CondAt(st, d), CondAt(CondPop(st, c, rest), d);
      && v1.arrivals == v.arrivals && v1.signals == v.signals + One(d == c && v.waiters != [])
      && (d in st.conds ==> d in CondPop(st, c, rest).conds)
  {
    if CondAt(st, c).waiters == [] {}
  }

  lemma SameSignals(st: State, a: Action, r: State, c: Cond)
    requires !Pops(st, a, c) && a != OnCond(Wait(c)) && CondAt(r, c) == CondAt(st, c)
    requires c in st.conds || a == OnCond(CondInit(c)) ==> c in r.conds
    requires |r.calls| == |st.calls| + One(IsWait(a))
    ensures CondGoes(st, a, r, c)
  {}

  lemma PopSignals(st: State, a: Action, d: Cond, rest: Option<Cond>, c: Cond)
    requires SignalOn(st, a) == Some(d) && !IsWait(a)
    ensures CondGoes(st, a, CondPop(st, d, rest), c)
  {
    PopConds(st, d, rest, c);
    PopCalls(st, d, rest);
  }

  lemma ArriveSignals(st: State, d: Cond, c: Cond)
    requires |st.calls| !in st.calls
    ensures CondGoes(st, OnCond(Wait(d)), CondArrive(st, d), c)
  {}

  lemma CondSignals(st: State, a: CondAction, c: Cond)
    requires CondEnabled(st, a) && |st.calls| !in st.calls
    ensures CondGoes(st, OnCond(a), CondStep(st, a), c)
  {
    CondCalls(st, a);
    CondFrame(st, a);
    var p := PcOf(st, st.current);
    match a
    case Wait(d) => ArriveSignals(st, d, c);
    case Signal(d) => PopSignals(st, OnCond(a), d, None, c);
    case BroadcastNext => PopSignals(st, OnCond(a), p.c, Some(p.c), c);
    case _ => SameSignals(st, OnCond(a), CondStep(st, a), c);
  }

  lemma CpuSignals(st: State, a: CpuAction, c: Cond)
    requires CpuEnabled(st, a)
    ensures CondGoes(st, Cpu(a), CpuStep(st, a), c)
  {
    CpuFrame(st, a);
    CpuCalls(st, a);
    SameSignals(st, Cpu(a), CpuStep(st, a), c);
  }

  lemma SemaSignals(st: State, a: SemaAction, c: Cond)
    requires SemaEnabled(st, a)
    ensures CondGoes(st, OnSema(a), SemaStep(st, a), c)
  {
    SemaFrame(st, a);
    SemaCalls(st, a);
    SameSignals(st, OnSema(a), SemaStep(st, a), c);
  }

  lemma LockSignals(st: State, a: LockAction, c: Cond)
    requires LockEnabled(st, a)
    ensures CondGoes(st, OnLock(a), LockStep(st, a), c)
  {
    LockFrame(st, a);
    LockCalls(st, a);
    SameSignals(st, OnLock(a), LockStep(st, a), c);
  }

  // Every step does to every condition variable what its action says.
  lemma StepSignals(st: State, a: Action, c: Cond)
    requires Inv(st) && Enabled(st, a)
    ensures CondGoes(st, a, Apply(st, a), c)
  {
    assert |st.calls| !in st.calls;
    match a
    case Cpu(b) => CpuSignals(st, b, c);
    case OnSema(b) => SemaSignals(st, b, c);
    case OnLock(b) => LockSignals(st, b, c);
    case OnCond(b) => CondSignals(st, b, c);
  }

  // ---------- runs ----------

  ghost function RaisesIn(st: State, acts: seq<Action>, s: SemaId): (n: nat)
    requires IsRun(st, acts)
    decreases |acts|
  {
    if acts == [] then 0
    else One(DeedOf(st, acts[0]) == Raise(s)) + RaisesIn(Apply(st, acts[0]), acts[1..], s)
  }

  // Tests that found a unit.
  ghost function TakesIn(st: State, acts: seq<Action>, s: SemaId): (n: nat)
    requires IsRun(st, acts)
    decreases |acts|
  {
    if acts == [] then 0
    else One(Takes(st, DeedOf(st, acts[0]), s)) + TakesIn(Apply(st, acts[0]), acts[1..], s)
  }

  ghost function BeginsIn(st: State, acts: seq<Action>, s: SemaId): (n: nat)
    requires IsRun(st, acts)
    decreases |acts|
  {
    if acts == [] then 0
    else Begins(DeedOf(st, acts[0]), s) + BeginsIn(Apply(st, acts[0]), acts[1..], s)
  }

  // The fields that record the history are the counts of the actions.
  lemma {:induction false} HistoryTrue(st: State, acts: seq<Action>, s: SemaId)
    requires Inv(st) && IsRun(st, acts)
    ensures var m, m1 := SemaAt(st, s), SemaAt(Final(st, acts), s);
      && m1.init == m.init + BeginsIn(st, acts, s) && m1.ups == m.ups + RaisesIn(st, acts, s)
      && m1.downs == m.downs + TakesIn(st, acts, s)
    decreases |acts|
  {
    if acts != [] {
      StepGoes(st, acts[0], s);
      StepInv(st, acts[0]);
      HistoryTrue(Apply(st, acts[0]), acts[1..], s);
    }
  }

  // On every run the units that a semaphore was given, at its start and by the calls that up it, are
  // those it has and those that tests have taken.
  lemma UnitsCounted(acts: seq<Action>, s: SemaId)
    requires IsRun(Boot(), acts)
    ensures BeginsIn(Boot(), acts, s) + RaisesIn(Boot(), acts, s)
         == SemaAt(Final(Boot(), acts), s).value + TakesIn(Boot(), acts, s)
  {
    BootInv();
    HistoryTrue(Boot(), acts, s);
    if s in Final(Boot(), acts).semas { UnitsConserved(acts, s); }
  }

  // For a plain semaphore the ups are a matter of the actions alone.
  function UpCalls(acts: seq<Action>, n: int): (k: nat)
    decreases |acts|
  {
    if acts == [] then 0
    else One(acts[0] == OnSema(Up(n)) || (acts[0] == Cpu(IdleUps) && n == 0)) + UpCalls(acts[1..], n)
  }

  lemma {:induction false} UpsAreCalls(st: State, acts: seq<Action>, n: int)
    requires IsRun(st, acts)
    ensures RaisesIn(st, acts, Plain(n)) == UpCalls(acts, n)
    decreases |acts|
  {
    if acts != [] { UpsAreCalls(Apply(st, acts[0]), acts[1..], n); }
  }

  // sema_up, whoever calls it and in every reachable state: one unit more, and the first waiter, if
  // there is one, is READY, last on the ready list and no longer a waiter.
  lemma RaiseWakes(acts: seq<Action>, a: Action, s: SemaId)
    requires IsRun(Boot(), acts) && Enabled(Final(Boot(), acts), a)
    requires DeedOf(Final(Boot(), acts), a) == Raise(s) && s in Final(Boot(), acts).semas
    ensures var st := Final(Boot(), acts); var r := Apply(st, a); var w := st.semas[s].waiters;
      && s in r.semas && r.semas[s].value == st.semas[s].value + 1 && r.current == st.current
      && (w == [] ==> r.semas[s].waiters == [] && r.ready == st.ready)
      && (w != [] ==> r.semas[s].waiters == w[1..] && r.ready == st.ready + [w[0]] && StatusOf(r, w[0]) == Ready)
  {
    Reached(acts);
    RaiseWakesIn(Final(Boot(), acts), a, s);
  }

  lemma RaiseWakesIn(st: State, a: Action, s: SemaId)
    requires Inv(st) && Enabled(st, a) && DeedOf(st, a) == Raise(s) && s in st.semas
    ensures var r := Apply(st, a); var w := st.semas[s].waiters;
      && s in r.semas && r.semas[s].value == st.semas[s].value + 1 && r.current == st.current
      && (w == [] ==> r.semas[s].waiters == [] && r.ready == st.ready)
      && (w != [] ==> r.semas[s].waiters == w[1..] && r.ready == st.ready + [w[0]] && StatusOf(r, w[0]) == Ready)
  {
    StepGoes(st, a, s);
    StepInv(st, a);
    RaiseKnown(st, a, s);
    Woke(st, Apply(st, a), s);
  }

  lemma Woke(st: State, r: State, s: SemaId)
    requires Inv(st) && Inv(r) && s in st.semas && s in r.semas && r.idleStarted == st.idleStarted
    requires SemaGoes(st, Raise(s), r, s) && LineGoes(st, Raise(s), r)
    ensures var w := st.semas[s].waiters;
      && r.semas[s].value == st.semas[s].value + 1
      && (w == [] ==> r.semas[s].waiters == [] && r.ready == st.ready)
      && (w != [] ==> r.semas[s].waiters == w[1..] && r.ready == st.ready + [w[0]] && StatusOf(r, w[0]) == Ready)
  {
    assert Line(st) == (if IsIdle(st, st.current) then [] else [st.current]) + st.ready;
    assert st.ready == Line(st)[|Line(st)| - |st.ready|..] && r.ready == Line(r)[|Line(st)| - |st.ready|..];
    if st.semas[s].waiters != [] {
      assert r.ready == st.ready + [st.semas[s].waiters[0]];
      assert r.ready[|st.ready|] in r.ready;
    }
  }

  lemma RaiseKnown(st: State, a: Action, s: SemaId)
    requires Enabled(st, a) && DeedOf(st, a) == Raise(s)
    ensures s in Apply(st, a).semas && Apply(st, a).idleStarted == st.idleStarted
  {}

  // ---------- condition variables over runs ----------

  // The tickets of the calls of cond_wait on C, the K-th call of a run being ticket K.
  function ArrivalsIn(acts: seq<Action>, c: Cond, k: Ticket): (s: seq<Ticket>)
    decreases |acts|
  {
    if acts == [] then []
    else (if acts[0] == OnCond(Wait(c)) then [k] else []) + ArrivalsIn(acts[1..], c, k + One(IsWait(acts[0])))
  }

  // Signals that found somebody waiting.
  ghost function SignalsIn(st: State, acts: seq<Action>, c: Cond): (n: nat)
    requires IsRun(st, acts)
    decreases |acts|
  {
    if acts == [] then 0 else One(Pops(st, acts[0], c)) + SignalsIn(Apply(st, acts[0]), acts[1..], c)
  }

  lemma {:induction false} ArrivalsTrue(st: State, acts: seq<Action>, c: Cond)
    requires Inv(st) && IsRun(st, acts)
    ensures CondAt(Final(st, acts), c).arrivals == CondAt(st, c).arrivals + ArrivalsIn(acts, c, |st.calls|)
    decreases |acts|
  {
    if acts != [] {
      var r := Apply(st, acts[0]);
      StepArrivals(st, acts[0], c);
      StepInv(st, acts[0]);
      ArrivalsTrue(r, acts[1..], c);
      ArrivalsFirst(acts, c, |st.calls|, |r.calls|, CondAt(st, c).arrivals, CondAt(r, c).arrivals);
    }
  }

  lemma StepArrivals(st: State, a: Action, c: Cond)
    requires Inv(st) && Enabled(st, a)
    ensures CondAt(Apply(st, a), c).arrivals
      == CondAt(st, c).arrivals + (if a == OnCond(Wait(c)) then [|st.calls|] else [])
    ensures |Apply(st, a).calls| == |st.calls| + One(IsWait(a))
  {
    StepSignals(st, a, c);
  }

  lemma {:induction false} PopsTrue(st: State, acts: seq<Action>, c: Cond)
    requires Inv(st) && IsRun(st, acts)
    ensures CondAt(Final(st, acts), c).signals == CondAt(st, c).signals + SignalsIn(st, acts, c)
    decreases |acts|
  {
    if acts != [] {
      StepSignals(st, acts[0], c);
      StepInv(st, acts[0]);
      PopsTrue(Apply(st, acts[0]), acts[1..], c);
    }
  }

  lemma ArrivalsFirst(acts: seq<Action>, c: Cond, k: Ticket, k1: Ticket, before: seq<Ticket>, after: seq<Ticket>)
    requires acts != [] && after == before + (if acts[0] == OnCond(Wait(c)) then [k] else [])
    requires k1 == k + One(IsWait(acts[0]))
    ensures before + ArrivalsIn(acts, c, k) == after + ArrivalsIn(acts[1..], c, k1)
  {}

  // On every run, signals take the calls of cond_wait off in the order of arrival, each signal one.
  lemma SignalsCounted(acts: seq<Action>, c: Cond)
    requires IsRun(Boot(), acts)
    ensures var came, n := ArrivalsIn(acts, c, 0), SignalsIn(Boot(), acts, c);
      n <= |came| && CondAt(Final(Boot(), acts), c).waiters == came[n..]
  {
    var st := Final(Boot(), acts);
    BootInv();
    Reached(acts);
    ArrivalsTrue(Boot(), acts, c);
    PopsTrue(Boot(), acts, c);
    if c in st.conds { assert C.CondOk(st.calls, c, st.conds[c]); }
  }

  lemma BootInv()
    ensures Inv(Boot())
  {
    Reached([]);
    assert Final(Boot(), []) == Boot();
  }

  // A call's private semaphore is upped once by the signal that took it off, or will be by the thread
  // that is about to, and not otherwise.
  lemma SignalUpsCounted(acts: seq<Action>, c: Cond, k: Ticket)
    requires IsRun(Boot(), acts) && k in ArrivalsIn(acts, c, 0)
    ensures SignalsIn(Boot(), acts, c) <= |ArrivalsIn(acts, c, 0)|
    ensures RaisesIn(Boot(), acts, OfWait(k)) + |C.Signallers(Final(Boot(), acts).pc, k)|
         == One(k in ArrivalsIn(acts, c, 0)[..SignalsIn(Boot(), acts, c)])
  {
    BootInv();
    SignalUpsFrom(Boot(), acts, c, k);
  }

  lemma SignalUpsFrom(st: State, acts: seq<Action>, c: Cond, k: Ticket)
    requires Inv(st) && IsRun(st, acts) && |st.calls| == 0 && CondAt(st, c) == CondVar([], [], 0)
    requires SemaAt(st, OfWait(k)).ups == 0 && k in ArrivalsIn(acts, c, 0)
    ensures SignalsIn(st, acts, c) <= |ArrivalsIn(acts, c, 0)|
    ensures RaisesIn(st, acts, OfWait(k)) + |C.Signallers(Final(st, acts).pc, k)|
         == One(k in ArrivalsIn(acts, c, 0)[..SignalsIn(st, acts, c)])
  {
    RunInv(st, acts);
    ArrivalsTrue(st, acts, c);
    PopsTrue(st, acts, c);
    HistoryTrue(st, acts, OfWait(k));
    assert CondAt(Final(st, acts), c).arrivals == ArrivalsIn(acts, c, 0);
    CallUpped(Final(st, acts), c, k);
  }

  lemma CallUpped(st: State, c: Cond, k: Ticket)
    requires CondsOk(st) && k in CondAt(st, c).arrivals
    ensures CondAt(st, c).signals <= |CondAt(st, c).arrivals|
    ensures SemaAt(st, OfWait(k)).ups + |C.Signallers(st.pc, k)|
         == One(k in CondAt(st, c).arrivals[..CondAt(st, c).signals])
  {
    assert C.CondOk(st.calls, c, st.conds[c]);
    assert C.TicketOk(st.conds, st.calls, st.semas, st.pc, k);
  }
}
