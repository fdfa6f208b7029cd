// The uniprocessor scheduler (threads/thread.c) and the synchronisation
// primitives built on it (threads/synch.c), as a state machine.  A step is one
// region of kernel code that runs with interrupts off, or one access that the
// code makes with interrupts on.  Between two steps any interrupt may arrive.

module KernelModel {
  import opened Options

  type Tid = int
  type LockId = int
  type Ticket = int

  const MAIN: Tid := 0
  const IDLE: Tid := 1
  const TIME_SLICE: nat := 4

  // A condition variable belongs to one lock; a lock may have many.
  datatype Cond = Cond(lock: LockId, n: int)

  // A semaphore is free-standing, part of a lock, or the private semaphore that
  // one call of cond_wait keeps on its stack, named by the call's ticket.
  datatype SemaId = Plain(n: int) | OfLock(l: LockId) | OfWait(k: Ticket)

  // init, ups and downs record the history; the code keeps only value and waiters.
  datatype Sema = Sema(value: nat, waiters: seq<Tid>, init: nat, ups: nat, downs: nat)

  // arrivals and signals record the history; the code keeps only waiters.
  datatype CondVar = CondVar(waiters: seq<Ticket>, arrivals: seq<Ticket>, signals: nat)

  datatype Call = Call(cond: Cond, owner: Tid)

  datatype Status = Running | Ready | Blocked | Dying

  // What follows the return of sema_down.
  datatype After =
    | Return
    | Hold(l: LockId, wait: Option<Ticket>)      // lock_acquire sets the holder
    | Regain(l: LockId, k: Ticket)               // cond_wait calls lock_acquire

  // Where a thread is in the code of thread.c and synch.c.
  datatype Pc =
    | Newborn(creator: Tid)                      // created, not yet unblocked
    | Run                                        // outside the two files
    | Creating(child: Tid)                       // thread_create, before thread_unblock
    | Downing(s: SemaId, after: After)           // inside the loop of sema_down
    | Acquiring(l: LockId, wait: Option<Ticket>) // lock_acquire, past its ASSERT, before sema_down
    | Trying(l: LockId)                          // lock_try_acquire, past its ASSERT, before sema_try_down
    | SetHolder(l: LockId, wait: Option<Ticket>) // lock_acquire, after sema_down
    | Unlocking(l: LockId, wait: Option<Ticket>) // lock_release, before sema_up
    | Enqueued(l: LockId, k: Ticket)             // cond_wait, before lock_release
    | Waiting(l: LockId, k: Ticket)              // cond_wait, before sema_down
    | Relocking(l: LockId, k: Ticket)            // cond_wait, before lock_acquire
    | Signalling(k: Ticket, rest: Option<Cond>)  // cond_signal, before sema_up
    | Broadcasting(c: Cond)                      // head of the loop of cond_broadcast
    | IdleEntry | IdleUp | IdleLoop              // the idle thread

  datatype State = State(
    status: map<Tid, Status>,
    pc: map<Tid, Pc>,
    held: map<Tid, set<LockId>>,     // locks between a successful down and the matching up
    ready: seq<Tid>,                 // ready_list
    current: Tid,
    idleStarted: bool,               // idle_thread is set
    slice: nat,                      // thread_ticks
    semas: map<SemaId, Sema>,
    holders: map<LockId, Option<Tid>>,
    conds: map<Cond, CondVar>,
    calls: map<Ticket, Call>,        // every call of cond_wait so far
    finished: seq<Ticket>,            // calls of cond_wait that have returned, in order
    freed: set<Tid>,                 // thread pages given back
    schedules: nat,                  // calls of schedule() so far
    ticks: nat,                      // timer ticks delivered so far
    panic: bool)                     // an ASSERT inside the two files has failed

  // The state thread_start leaves behind: the main thread runs, the idle thread
  // is on the ready list and has not set idle_thread yet.
  function Boot(): (st: State) {
    State(map[MAIN := Running, IDLE := Ready], map[MAIN := Run, IDLE := IdleEntry],
          map[MAIN := {}, IDLE := {}], [IDLE], MAIN, false, 0,
          map[Plain(0) := Sema(0, [], 0, 0, 0)], map[], map[], map[], [], {}, 0, 0, false)
  }

  predicate IsIdle(st: State, t: Tid) {
    st.idleStarted && t == IDLE
  }

  function StatusOf(st: State, t: Tid): (r: Status) {
    if t in st.status then st.status[t] else Blocked
  }

  function PcOf(st: State, t: Tid): (p: Pc) {
    if t in st.pc then st.pc[t] else Run
  }

  function HeldBy(st: State, t: Tid): (ls: set<LockId>) {
    if t in st.held then st.held[t] else {}
  }

  function SemaAt(st: State, s: SemaId): (m: Sema) {
    if s in st.semas then st.semas[s] else Sema(0, [], 0, 0, 0)
  }

  function CondAt(st: State, c: Cond): (v: CondVar) {
    if c in st.conds then st.conds[c] else CondVar([], [], 0)
  }

  predicate Holds(st: State, t: Tid, l: LockId) {
    l in st.holders && st.holders[l] == Some(t)
  }

  // ---------- thread.c ----------

  function NextThread(st: State): (t: Tid) {
    if st.ready == [] then IDLE else st.ready[0]
  }

  // schedule() up to the switch; switch_threads is "current := next".
  function SwitchTo(st: State): (r: State) {
    st.(ready := if st.ready == [] then st.ready else st.ready[1..],
        current := NextThread(st),
        schedules := st.schedules + 1,
        panic := st.panic || StatusOf(st, st.current) == Running || (st.ready == [] && !st.idleStarted))
  }

  // thread_schedule_tail(): start a time slice, and free the page of a dead predecessor.
  function ScheduleTail(st: State, prev: Tid): (r: State) {
    st.(status := st.status[st.current := Running],
        slice := 0,
        freed := if prev != st.current && StatusOf(st, prev) == Dying && prev != MAIN
                 then st.freed + {prev} else st.freed)
  }

  function Schedule(st: State): (r: State) {
    ScheduleTail(SwitchTo(st), st.current)
  }

  function SetStatus(st: State, s: Status): (r: State) {
    st.(status := st.status[st.current := s])
  }

  function SetPc(st: State, p: Pc): (r: State) {
    st.(pc := st.pc[st.current := p])
  }

  function Unblock(st: State, t: Tid): (r: State) {
    st.(ready := st.ready + [t],
        status := st.status[t := Ready],
        panic := st.panic || StatusOf(st, t) != Blocked)
  }

  function Yield(st: State): (r: State) {
    Schedule(SetStatus(st.(ready := if IsIdle(st, st.current) then st.ready
                                    else st.ready + [st.current]), Ready))
  }

  // The timer interrupt: thread_tick(), then thread_yield() on return if it asked.
  function Tick(st: State): (r: State) {
    if st.slice + 1 >= TIME_SLICE then Yield(Counted(st)) else Counted(st)
  }

  function Counted(st: State): (r: State) {
    st.(ticks := st.ticks + 1, slice := st.slice + 1)
  }

  function Exit(st: State): (r: State) {
    Schedule(SetStatus(st, Dying))
  }

  // thread_create as far as init_thread, and the thread_unblock that ends it.
  function Create(st: State, ch: Tid): (r: State) {
    SetPc(st.(status := st.status[ch := Blocked], pc := st.pc[ch := Newborn(st.current)],
              held := st.held[ch := {}]), Creating(ch))
  }

  function Launch(st: State): (r: State)
    requires PcOf(st, st.current).Creating?
  {
    var ch := PcOf(st, st.current).child;
    Unblock(SetPc(st.(pc := st.pc[ch := Run]), Run), ch)
  }

  // idle(): set idle_thread, up the semaphore thread_start waits for, then block forever.
  function IdleBegin(st: State): (r: State) {
    SetPc(st, IdleUp).(idleStarted := true)
  }

  function IdleSignal(st: State): (r: State) {
    SemaUp(SetPc(st, IdleLoop), Plain(0))
  }

  function IdleBlock(st: State): (r: State) {
    Schedule(SetStatus(st, Blocked))
  }

  // ---------- synch.c ----------

  function PutSema(st: State, s: SemaId, m: Sema): (r: State) {
    st.(semas := st.semas[s := m])
  }

  function Resume(after: After): (p: Pc) {
    match after
    case Return => Run
    case Hold(l, w) => SetHolder(l, w)
    case Regain(l, k) => Relocking(l, k)
  }

  // list_push_back on the waiters and the first half of thread_block.
  function Asleep(st: State, s: SemaId, after: After): (r: State) {
    var m := SemaAt(st, s);
    SetStatus(SetPc(PutSema(st, s, m.(waiters := m.waiters + [st.current])),
                    Downing(s, after)), Blocked)
  }

  // One test of the loop in sema_down: sleep if the value is zero, else take a unit.
  function SemaDown(st: State, s: SemaId, after: After): (r: State) {
    if SemaAt(st, s).value == 0 then Schedule(Asleep(st, s, after))
    else Taken(SetPc(st, Resume(after)), s)
  }

  // The decrement that sema_down and sema_try_down share.
  function Taken(st: State, s: SemaId): (r: State)
    requires SemaAt(st, s).value > 0
  {
    var m := SemaAt(st, s);
    PutSema(st, s, m.(value := m.value - 1, downs := m.downs + 1))
    .(held := if s.OfLock? then st.held[st.current := HeldBy(st, st.current) + {s.l}] else st.held)
  }

  function Upped(m: Sema): (r: Sema) {
    m.(waiters := if m.waiters == [] then [] else m.waiters[1..], value := m.value + 1, ups := m.ups + 1)
  }

  // thread_unblock on the first waiter, if there is one, then the increment.
  function SemaUp(st: State, s: SemaId): (r: State) {
    var m := SemaAt(st, s);
    var wake := m.waiters != [];
    st.(semas := st.semas[s := Upped(m)],
        ready := if wake then st.ready + [m.waiters[0]] else st.ready,
        status := if wake then st.status[m.waiters[0] := Ready] else st.status,
        panic := st.panic || (wake && StatusOf(st, m.waiters[0]) != Blocked))
  }

  function SemaNew(st: State, s: SemaId, v: nat): (r: State) {
    PutSema(st, s, Sema(v, [], v, 0, 0))
  }

  function SemaTryDown(st: State, s: SemaId): (r: State) {
    if SemaAt(st, s).value > 0 then Taken(st, s) else st
  }

  function LockNew(st: State, l: LockId): (r: State) {
    SemaNew(st, OfLock(l), 1).(holders := st.holders[l := None])
  }

  // The sema_down of lock_acquire, and the sema_try_down of lock_try_acquire.
  function LockDown(st: State): (r: State)
    requires PcOf(st, st.current).Acquiring?
  {
    var p := PcOf(st, st.current);
    SemaDown(st, OfLock(p.l), Hold(p.l, p.wait))
  }

  function LockTry(st: State): (r: State)
    requires PcOf(st, st.current).Trying?
  {
    var l := PcOf(st, st.current).l;
    if SemaAt(st, OfLock(l)).value > 0 then LockGot(st, l) else SetPc(st, Run)
  }

  function LockGot(st: State, l: LockId): (r: State)
    requires SemaAt(st, OfLock(l)).value > 0
  {
    Taken(SetPc(st, SetHolder(l, None)), OfLock(l))
  }

  // lock_try_acquire called by an interrupt handler, which nothing interrupts.  Its ASSERT, like
  // its result, is about the thread that was interrupted.
  function HandlerTake(st: State, l: LockId): (r: State) {
    if Holds(st, st.current, l) then st.(panic := true)
    else if SemaAt(st, OfLock(l)).value > 0 then HandlerGot(st, l) else st
  }

  function HandlerGot(st: State, l: LockId): (r: State)
    requires SemaAt(st, OfLock(l)).value > 0
  {
    Taken(st, OfLock(l)).(holders := st.holders[l := Some(st.current)])
  }

  // The position is one from which the thread goes on to take lock l without asking again whether
  // it holds it: past the ASSERT of lock_acquire or lock_try_acquire, or in cond_wait between its
  // lock_release and its lock_acquire.
  predicate Committed(p: Pc, l: LockId) {
    (p.Waiting? || p.Relocking? || p.Acquiring? || p.Trying?) && p.l == l
  }

  // lock->holder = thread_current (); when cond_wait made the call, it now returns.
  function LockTake(st: State): (r: State)
    requires PcOf(st, st.current).SetHolder?
  {
    var p := PcOf(st, st.current);
    SetPc(st, Run).(holders := st.holders[p.l := Some(st.current)],
                    finished := if p.wait.Some? then st.finished + [p.wait.value] else st.finished)
  }

  // lock->holder = NULL, on behalf of cond_wait or not.
  function LockDrop(st: State, l: LockId, w: Option<Ticket>): (r: State) {
    SetPc(st, Unlocking(l, w))
    .(holders := st.holders[l := None], panic := st.panic || !Holds(st, st.current, l))
  }

  function LockUp(st: State): (r: State)
    requires PcOf(st, st.current).Unlocking?
  {
    var p := PcOf(st, st.current);
    SemaUp(Left(st, p.l, if p.wait.Some? then Waiting(p.l, p.wait.value) else Run), OfLock(p.l))
  }

  // The current thread leaves the critical section of lock l for position p.
  function Left(st: State, l: LockId, p: Pc): (r: State) {
    SetPc(st, p).(held := st.held[st.current := HeldBy(st, st.current) - {l}])
  }

  function CondNew(st: State, c: Cond): (r: State) {
    st.(conds := st.conds[c := CondVar([], [], 0)])
  }

  // cond_wait as far as list_push_back.
  function CondArrive(st: State, c: Cond): (r: State) {
    var k, v := |st.calls|, CondAt(st, c);
    SetPc(SemaNew(st, OfWait(k), 0), Enqueued(c.lock, k))
    .(conds := st.conds[c := v.(waiters := v.waiters + [k], arrivals := v.arrivals + [k])],
      calls := st.calls[k := Call(c, st.current)])
  }

  // The ASSERT of the lock_acquire that ends cond_wait.
  function CondRelock(st: State): (r: State)
    requires PcOf(st, st.current).Relocking?
  {
    var p := PcOf(st, st.current);
    SetPc(st, Acquiring(p.l, Some(p.k))).(panic := st.panic || Holds(st, st.current, p.l))
  }

  // cond_signal as far as list_pop_front.
  function CondPop(st: State, c: Cond, rest: Option<Cond>): (r: State) {
    var v := CondAt(st, c);
    if v.waiters == [] then SetPc(st, Run)
    else SetPc(st.(conds := st.conds[c := v.(waiters := v.waiters[1..], signals := v.signals + 1)],
                   panic := st.panic || !Holds(st, st.current, c.lock)),
               Signalling(v.waiters[0], rest))
  }

  function CondUp(st: State): (r: State)
    requires PcOf(st, st.current).Signalling?
  {
    var p := PcOf(st, st.current);
    SemaUp(SetPc(st, if p.rest.Some? then Broadcasting(p.rest.value) else Run), OfWait(p.k))
  }

  // ---------- steps and runs ----------

  datatype CpuAction =
    | TimerTick | ThreadYield | ThreadExit | ThreadInit(child: Tid) | ThreadLaunch
    | IdleStart | IdleUps | IdleBlocks

  datatype SemaAction = SemaInit(n: int, v: nat) | Down(n: int) | TryDown(n: int) | Up(n: int) | Retest

  datatype LockAction =
    | LockInit(l: LockId) | Acquire(l: LockId) | AcquireDown | TryAcquire(l: LockId) | AcquireTry
    | HandlerTry(l: LockId) | TakeHolder | Release(l: LockId) | ReleaseUp

  datatype CondAction =
    | CondInit(c: Cond) | Wait(c: Cond) | WaitRelease | WaitDown | WaitRelock
    | Signal(c: Cond) | SignalUp | Broadcast(c: Cond) | BroadcastNext | BroadcastNone(c: Cond)

  datatype Action =
    | Cpu(cpu: CpuAction) | OnSema(sema: SemaAction) | OnLock(lock: LockAction) | OnCond(cond: CondAction)

  // A thread woken inside sema_down tests again before interrupts come back on.
  predicate InterruptsOn(st: State) {
    !PcOf(st, st.current).Downing?
  }

  // When the current thread, or an interrupt, may take an action.  The ASSERTs
  // that are obligations of the caller are here; the others set panic.
  predicate CpuEnabled(st: State, a: CpuAction) {
    var p := PcOf(st, st.current);
    match a
    case TimerTick => InterruptsOn(st)
    case ThreadYield => p.Run?
    case ThreadExit => p.Run?
    case ThreadInit(ch) => p.Run? && ch !in st.status
    case ThreadLaunch => p.Creating?
    case IdleStart => p.IdleEntry?
    case IdleUps => p.IdleUp?
    case IdleBlocks => p.IdleLoop?
  }

  function CpuStep(st: State, a: CpuAction): (r: State)
    requires CpuEnabled(st, a)
  {
    match a
    case TimerTick => Tick(st)
    case ThreadYield => Yield(st)
    case ThreadExit => Exit(st)
    case ThreadInit(ch) => Create(st, ch)
    case ThreadLaunch => Launch(st)
    case IdleStart => IdleBegin(st)
    case IdleUps => IdleSignal(st)
    case IdleBlocks => IdleBlock(st)
  }

  // sema_up and sema_try_down may also be called by an interrupt handler.
  predicate SemaEnabled(st: State, a: SemaAction) {
    var p := PcOf(st, st.current);
    match a
    case SemaInit(n, _) => InterruptsOn(st) && Plain(n) !in st.semas
    case Down(n) => p.Run? && Plain(n) in st.semas
    case TryDown(n) => InterruptsOn(st) && Plain(n) in st.semas
    case Up(n) => InterruptsOn(st) && Plain(n) in st.semas
    case Retest => p.Downing?
  }

  function SemaStep(st: State, a: SemaAction): (r: State)
    requires SemaEnabled(st, a)
  {
    var p := PcOf(st, st.current);
    match a
    case SemaInit(n, v) => SemaNew(st, Plain(n), v)
    case Down(n) => SemaDown(st, Plain(n), Return)
    case TryDown(n) => SemaTryDown(st, Plain(n))
    case Up(n) => SemaUp(st, Plain(n))
    case Retest => SemaDown(st, p.s, p.after)
  }

  predicate LockEnabled(st: State, a: LockAction) {
    var me := st.current;
    var p := PcOf(st, me);
    match a
    case LockInit(l) => InterruptsOn(st) && l !in st.holders
    case Acquire(l) => p.Run? && l in st.holders && !Holds(st, me, l)
    case AcquireDown => p.Acquiring?
    case TryAcquire(l) => p.Run? && l in st.holders && !Holds(st, me, l)
    case AcquireTry => p.Trying?
    // A handler must not try a lock that the interrupted thread holds, nor one that it goes on to take.
    case HandlerTry(l) => InterruptsOn(st) && l in st.holders && !Holds(st, me, l) && !Committed(p, l)
    case TakeHolder => p.SetHolder?
    case Release(l) => p.Run? && Holds(st, me, l)
    case ReleaseUp => p.Unlocking?
  }

  function LockStep(st: State, a: LockAction): (r: State)
    requires LockEnabled(st, a)
  {
    match a
    case LockInit(l) => LockNew(st, l)
    case Acquire(l) => SetPc(st, Acquiring(l, None))
    case AcquireDown => LockDown(st)
    case TryAcquire(l) => SetPc(st, Trying(l))
    case AcquireTry => LockTry(st)
    case HandlerTry(l) => HandlerTake(st, l)
    case TakeHolder => LockTake(st)
    case Release(l) => LockDrop(st, l, None)
    case ReleaseUp => LockUp(st)
  }

  predicate CondEnabled(st: State, a: CondAction) {
    var me := st.current;
    var p := PcOf(st, me);
    match a
    case CondInit(c) => InterruptsOn(st) && c !in st.conds
    case Wait(c) => p.Run? && c in st.conds && Holds(st, me, c.lock)
    case WaitRelease => p.Enqueued?
    case WaitDown => p.Waiting?
    case WaitRelock => p.Relocking?
    case Signal(c) => p.Run? && c in st.conds && Holds(st, me, c.lock)
    case SignalUp => p.Signalling?
    case Broadcast(c) => p.Run? && c in st.conds && Holds(st, me, c.lock)
    case BroadcastNext => p.Broadcasting?
    // With no waiters the loop of cond_broadcast does not come to cond_signal, so no lock is needed.
    case BroadcastNone(c) => p.Run? && c in st.conds && CondAt(st, c).waiters == []
  }

  function CondStep(st: State, a: CondAction): (r: State)
    requires CondEnabled(st, a)
  {
    var p := PcOf(st, st.current);
    match a
    case CondInit(c) => CondNew(st, c)
    case Wait(c) => CondArrive(st, c)
    case WaitRelease => LockDrop(st, p.l, Some(p.k))
    case WaitDown => SemaDown(st, OfWait(p.k), Regain(p.l, p.k))
    case WaitRelock => CondRelock(st)
    case Signal(c) => CondPop(st, c, None)
    case SignalUp => CondUp(st)
    case Broadcast(c) => SetPc(st, Broadcasting(c))
    case BroadcastNext => CondPop(st, p.c, Some(p.c))
    case BroadcastNone(c) => CondPop(st, c, Some(c))
  }

  predicate Enabled(st: State, a: Action) {
    match a
    case Cpu(c) => CpuEnabled(st, c)
    case OnSema(c) => SemaEnabled(st, c)
    case OnLock(c) => LockEnabled(st, c)
    case OnCond(c) => CondEnabled(st, c)
  }

  function Apply(st: State, a: Action): (r: State)
    requires Enabled(st, a)
  {
    match a
    case Cpu(c) => CpuStep(st, c)
    case OnSema(c) => SemaStep(st, c)
    case OnLock(c) => LockStep(st, c)
    case OnCond(c) => CondStep(st, c)
  }

  // A run is a sequence of actions, each enabled where it is taken.
  ghost predicate IsRun(st: State, acts: seq<Action>)
    decreases |acts|
  {
    acts == [] || (Enabled(st, acts[0]) && IsRun(Apply(st, acts[0]), acts[1..]))
  }

  ghost function Final(st: State, acts: seq<Action>): (r: State)
    requires IsRun(st, acts)
    decreases |acts|
  {
    if acts == [] then st else Final(Apply(st, acts[0]), acts[1..])
  }
}
