// The code of thread.c and synch.c on linked lists: the ready list, the waiters of
// every semaphore and the waiters of every condition variable are lists on the
// heap that share the threads' elements.  Every action of the model is a method,
// which keeps the lists well formed, never links an element that is on a list, and
// takes the step that the model takes.

module KernelCode {
  import opened Options
  import opened KernelModel
  import opened KernelPlaces
  import opened KernelSteps
  import opened KernelRuns
  import B = KernelBroadcast
  import opened KernelQueues
  import opened KernelLinks

  // The ready list with the idle thread on it, and the semaphore that thread_start waits for.
  method BootLists() returns (q: Queues)
    ensures q.Valid() && fresh(q) && fresh(q.all) && fresh(q.nodes)
    ensures q.y.content == map[WaitersOf(Plain(0)) := [], ReadyList := [ThreadNode(IDLE)]]
    ensures q.y.elems.Keys == {ThreadNode(MAIN), ThreadNode(IDLE)}
  {
    q := EmptyLists();
    q.NewNode(ThreadNode(MAIN));
    q.NewNode(ThreadNode(IDLE));
    q.Push(ReadyList, ThreadNode(IDLE));
    assert [] + [ThreadNode(IDLE)] == [ThreadNode(IDLE)];
    assert q.y.content == map[WaitersOf(Plain(0)) := [], ReadyList := [ThreadNode(IDLE)]];
  }

  method EmptyLists() returns (q: Queues)
    ensures q.Valid() && fresh(q) && fresh(q.all) && fresh(q.nodes)
    ensures q.y.content == map[WaitersOf(Plain(0)) := [], ReadyList := []] && q.y.elems == map[]
  {
    q := new Queues();
    q.NewList(WaitersOf(Plain(0)));
    q.NewList(ReadyList);
  }

  lemma BootMatches(content: map<Queue, seq<Node>>, keys: set<Node>)
    requires content == map[WaitersOf(Plain(0)) := [], ReadyList := [ThreadNode(IDLE)]]
    requires keys == {ThreadNode(MAIN), ThreadNode(IDLE)}
    ensures Matches(content, Boot().ready, Boot().semas, Boot().conds) && NodesOk(keys, Boot().status, Boot().calls)
  {
    var st := Boot();
    assert Threads(st.ready) == [ThreadNode(IDLE)] && Threads([]) == [];
    forall q ensures QueueOk(content, st.ready, st.semas, st.conds, q) {}
    forall n ensures NodeOk(keys, st.status, st.calls, n) {}
  }

  // The part of the state that is not in semaphores and lists.
  datatype Registers = Registers(status: map<Tid, Status>, pc: map<Tid, Pc>, current: Tid, idleStarted: bool,
                                 slice: nat, holders: map<LockId, Option<Tid>>, freed: set<Tid>, tickets: nat)

  ghost function RegistersOf(st: State): (r: Registers) {
    Registers(st.status, st.pc, st.current, st.idleStarted, st.slice, st.holders, st.freed, |st.calls|)
  }

  lemma BootInv()
    ensures Inv(Boot()) && B.Known(Boot())
  {
    Reached([]);
    forall t ensures B.KnownAt(Boot(), t) {}
  }

  // The ASSERTs of schedule(): the current thread is not RUNNING, and there is a thread to run.
  ghost predicate CanSwitch(st: State) {
    && st.current in st.status && st.status[st.current] != Running
    && (st.ready != [] || st.idleStarted) && NextThread(st) in st.status
  }

  // They hold wherever the switch leads to a consistent state.
  lemma MaySwitch(st: State)
    requires st.current in st.status && st.status.Keys == st.pc.Keys && Consistent(Schedule(st))
    ensures CanSwitch(st)
  {}

  class Kernel {
    var status: map<Tid, Status>          // struct thread
    var pc: map<Tid, Pc>                  // a thread's saved position and local variables
    var current: Tid
    var idleStarted: bool
    var slice: nat
    var values: map<SemaId, nat>          // struct semaphore
    var holders: map<LockId, Option<Tid>> // struct lock
    var freed: set<Tid>                   // pages given back
    var tickets: nat                      // calls of cond_wait so far
    const queues: Queues
    ghost var st: State

    ghost function Kept(): (r: Registers)
      reads this
    {
      Registers(status, pc, current, idleStarted, slice, holders, freed, tickets)
    }

    // The fields and lists are those of the state st of the model.
    ghost predicate Repr()
      reads this, queues, queues.all, queues.nodes
    {
      Linked() && NodesOk(queues.y.elems.Keys, st.status, st.calls)
    }

    ghost predicate Linked()
      reads this, queues, queues.all, queues.nodes
    {
      Upright() && Matches(queues.y.content, st.ready, st.semas, st.conds)
    }

    ghost predicate Upright()
      reads this, queues, queues.all, queues.nodes
    {
      Kept() == RegistersOf(st) && ValuesOk(values, st.semas) && queues.Valid()
    }

    ghost predicate Valid()
      reads this, queues, queues.all, queues.nodes
    {
      Repr() && Inv(st) && B.Known(st)
    }

    // What thread_start leaves behind.
    constructor ()
      ensures Valid() && st == Boot() && fresh(queues) && fresh(queues.all) && fresh(queues.nodes)
    {
      var q := BootLists();
      status, pc := map[MAIN := Running, IDLE := Ready], map[MAIN := Run, IDLE := IdleEntry];
      current, idleStarted, slice, values := MAIN, false, 0, map[Plain(0) := 0];
      holders, freed, tickets, queues, st := map[], {}, 0, q, Boot();
      new;
      BootMatches(queues.y.content, queues.y.elems.Keys);
      BootInv();
    }

    // ---------- list operations ----------

    method PushReady(t: Tid)
      requires Repr() && t in st.status && Unlisted(st.ready, st.semas, t)
      modifies this`st, queues, queues.all, queues.nodes
      ensures Repr() && st == old(st).(ready := old(st).ready + [t])
      ensures queues.all == old(queues.all) && queues.nodes == old(queues.nodes)
    {
      UnlistedLoose(queues.y.content, st.ready, st.semas, st.conds, t);
      assert QueueOk(queues.y.content, st.ready, st.semas, st.conds, ReadyList);
      assert NodeOk(queues.y.elems.Keys, st.status, st.calls, ThreadNode(t));
      MatchReady(queues.y.content, st.ready, st.semas, st.conds, st.ready + [t]);
      ThreadsMove(st.ready, t);
      queues.Push(ReadyList, ThreadNode(t));
      st := st.(ready := st.ready + [t]);
    }

    method PopReady() returns (t: Tid)
      requires Repr() && st.ready != []
      modifies this`st, queues, queues.all, queues.nodes
      ensures Repr() && t == old(st).ready[0] && st == old(st).(ready := old(st).ready[1..])
      ensures queues.all == old(queues.all) && queues.nodes == old(queues.nodes)
    {
      assert QueueOk(queues.y.content, st.ready, st.semas, st.conds, ReadyList);
      MatchReady(queues.y.content, st.ready, st.semas, st.conds, st.ready[1..]);
      ThreadsMove(st.ready, 0);
      var n := queues.Pop(ReadyList);
      t := n.t;
      st := st.(ready := st.ready[1..]);
    }

    method PushWaiter(s: SemaId, t: Tid)
      requires Repr() && s in st.semas && t in st.status && Unlisted(st.ready, st.semas, t)
      modifies this`st, queues, queues.all, queues.nodes
      ensures Repr() && st == PutSema(old(st), s, old(st).semas[s].(waiters := old(st).semas[s].waiters + [t]))
      ensures queues.all == old(queues.all) && queues.nodes == old(queues.nodes)
    {
      ghost var m := st.semas[s].(waiters := st.semas[s].waiters + [t]);
      UnlistedLoose(queues.y.content, st.ready, st.semas, st.conds, t);
      assert QueueOk(queues.y.content, st.ready, st.semas, st.conds, WaitersOf(s));
      assert NodeOk(queues.y.elems.Keys, st.status, st.calls, ThreadNode(t));
      MatchSema(queues.y.content, st.ready, st.semas, st.conds, s, m);
      ThreadsMove(st.semas[s].waiters, t);
      queues.Push(WaitersOf(s), ThreadNode(t));
      st := PutSema(st, s, m);
    }

    method PopWaiter(s: SemaId) returns (t: Tid)
      requires Repr() && s in st.semas && st.semas[s].waiters != []
      modifies this`st, queues, queues.all, queues.nodes
      ensures Repr() && t == old(st).semas[s].waiters[0]
      ensures st == PutSema(old(st), s, old(st).semas[s].(waiters := old(st).semas[s].waiters[1..]))
      ensures queues.all == old(queues.all) && queues.nodes == old(queues.nodes)
    {
      ghost var m := st.semas[s].(waiters := st.semas[s].waiters[1..]);
      assert QueueOk(queues.y.content, st.ready, st.semas, st.conds, WaitersOf(s));
      MatchSema(queues.y.content, st.ready, st.semas, st.conds, s, m);
      ThreadsMove(st.semas[s].waiters, 0);
      var n := queues.Pop(WaitersOf(s));
      t := n.t;
      st := PutSema(st, s, m);
    }

    method SetValue(s: SemaId, v: nat, ghost m: Sema)
      requires Repr() && s in st.semas && m.waiters == st.semas[s].waiters && m.value == v
      modifies this`st, this`values
      ensures Repr() && st == PutSema(old(st), s, m)
    {
      MatchValue(queues.y.content, st.ready, st.semas, st.conds, s, m);
      values := values[s := v];
      st := PutSema(st, s, m);
    }

    // ---------- thread.c ----------

    method NextThreadToRun() returns (next: Tid)
      requires Repr()
      modifies this`st, queues, queues.all, queues.nodes
      ensures Repr() && next == NextThread(old(st))
      ensures st == old(st).(ready := if old(st).ready == [] then [] else old(st).ready[1..])
      ensures queues.all == old(queues.all) && queues.nodes == old(queues.nodes)
    {
      assert QueueOk(queues.y.content, st.ready, st.semas, st.conds, ReadyList);
      var none := queues.IsEmpty(ReadyList);
      if none {
        next := IDLE;
      } else {
        next := PopReady();
      }
    }

    // switch_threads() is "current := next".
    method DoSchedule()
      requires Repr() && CanSwitch(st)
      modifies this, queues, queues.all, queues.nodes
      ensures Repr() && st == Schedule(old(st))
      ensures queues.all == old(queues.all) && queues.nodes == old(queues.nodes)
    {
      var prev := current;
      var next := NextThreadToRun();
      current := next;
      st := SwitchTo(old(st));
      ThreadScheduleTail(prev);
    }

    method ThreadScheduleTail(prev: Tid)
      requires Repr() && current in st.status
      modifies this`st, this`status, this`slice, this`freed
      ensures Repr() && st == ScheduleTail(old(st), prev)
    {
      StartSlice(prev);
      PutStatus(current, Running);
    }

    // A new time slice, and palloc_free_page() if the thread before is dead.
    method StartSlice(prev: Tid)
      requires Repr()
      modifies this`st, this`slice, this`freed
      ensures Repr() && st == old(st).(slice := 0, freed := ScheduleTail(old(st), prev).freed)
    {
      slice := 0;
      if prev != current && prev in status && status[prev] == Dying && prev != MAIN {
        freed := freed + {prev};
      }
      st := st.(slice := 0, freed := freed);
    }

    // The status of a thread.
    method PutStatus(t: Tid, x: Status)
      requires Repr() && t in st.status
      modifies this`st, this`status
      ensures Repr() && st == old(st).(status := old(st).status[t := x])
    {
      NodesStatus(queues.y.elems.Keys, st.status, st.calls, t, x);
      status := status[t := x];
      st := st.(status := st.status[t := x]);
    }

    // thread_unblock(), with its ASSERT.
    method ThreadUnblock(t: Tid)
      requires Repr() && t in st.status && st.status[t] == Blocked && Unlisted(st.ready, st.semas, t)
      modifies this`st, this`status, queues, queues.all, queues.nodes
      ensures Repr() && st == Unblock(old(st), t)
      ensures queues.all == old(queues.all) && queues.nodes == old(queues.nodes)
    {
      PushReady(t);
      PutStatus(t, Ready);
    }

    method ThreadYield()
      requires Repr() && current in st.status && (IsIdle(st, current) || Unlisted(st.ready, st.semas, current))
      requires CanSwitch(YieldUpTo(st))
      modifies this, queues, queues.all, queues.nodes
      ensures Repr() && st == Yield(old(st))
      ensures queues.all == old(queues.all) && queues.nodes == old(queues.nodes)
    {
      if !(idleStarted && current == IDLE) {
        PushReady(current);
      }
      PutStatus(current, Ready);
      DoSchedule();
    }

    // thread_block() and thread_exit() from the change of status on.
    method GiveUp(x: Status)
      requires Repr() && current in st.status && CanSwitch(SetStatus(st, x))
      modifies this, queues, queues.all, queues.nodes
      ensures Repr() && st == Schedule(SetStatus(old(st), x))
      ensures queues.all == old(queues.all) && queues.nodes == old(queues.nodes)
    {
      PutStatus(current, x);
      DoSchedule();
    }

    // A thread's position in the code.
    method PutPc(t: Tid, p: Pc)
      requires Repr()
      modifies this`st, this`pc
      ensures Repr() && st == old(st).(pc := old(st).pc[t := p])
    {
      pc := pc[t := p];
      st := st.(pc := st.pc[t := p]);
    }

    // thread_create() as far as init_thread(), and the thread_unblock() that ends it.
    method ThreadInit(child: Tid)
      requires Repr() && child !in st.status
      modifies this`st, this`status, this`pc, queues
      ensures Repr() && st == Create(old(st), child)
      ensures queues.all == old(queues.all) && fresh(queues.nodes - old(queues.nodes))
    {
      AddThread(child);
      PutPc(child, Newborn(current));
      SetHeld(child, {});
      PutPc(current, Creating(child));
    }

    // A thread with its list element.
    method AddThread(child: Tid)
      requires Repr() && child !in st.status
      modifies this`st, this`status, queues
      ensures Repr() && st == old(st).(status := old(st).status[child := Blocked])
      ensures queues.all == old(queues.all) && fresh(queues.nodes - old(queues.nodes))
    {
      assert NodeOk(queues.y.elems.Keys, st.status, st.calls, ThreadNode(child));
      NodesThread(queues.y.elems.Keys, st.status, st.calls, child, Blocked);
      AddStatus(child);
      queues.NewNode(ThreadNode(child));
    }

    method AddStatus(child: Tid)
      requires Linked()
      modifies this`st, this`status
      ensures Linked() && st == old(st).(status := old(st).status[child := Blocked])
    {
      status := status[child := Blocked];
      st := st.(status := st.status[child := Blocked]);
    }

    // The records that the code does not keep.
    ghost method SetHeld(t: Tid, ls: set<LockId>)
      requires Repr()
      modifies this`st
      ensures Repr() && st == old(st).(held := old(st).held[t := ls])
    {
      st := st.(held := st.held[t := ls]);
    }

    method ThreadLaunch()
      requires Repr() && current in st.pc && st.pc[current].Creating?
      requires var ch := st.pc[current].child;
        ch in st.status && st.status[ch] == Blocked && Unlisted(st.ready, st.semas, ch)
      modifies this, queues, queues.all, queues.nodes
      ensures Repr() && st == Launch(old(st))
      ensures queues.all == old(queues.all) && queues.nodes == old(queues.nodes)
    {
      var child := pc[current].child;
      PutPc(child, Run);
      PutPc(current, Run);
      ThreadUnblock(child);
    }

    // idle() as far as the store to idle_thread.
    method IdleStart()
      requires Repr()
      modifies this`st, this`pc, this`idleStarted
      ensures Repr() && st == IdleBegin(old(st))
    {
      idleStarted := true;
      pc := pc[current := IdleUp];
      st := IdleBegin(st);
    }

    // ---------- synch.c ----------

    method SemaInit(s: SemaId, v: nat)
      requires Repr() && s !in st.semas
      modifies this`st, this`values, queues
      ensures Repr() && st == SemaNew(old(st), s, v)
      ensures fresh(queues.all - old(queues.all)) && fresh(queues.nodes - old(queues.nodes))
    {
      assert QueueOk(queues.y.content, st.ready, st.semas, st.conds, WaitersOf(s));
      MatchSema(queues.y.content, st.ready, st.semas, st.conds, s, Sema(v, [], v, 0, 0));
      assert Threads([]) == [];
      NewValue(s, v);
      queues.NewList(WaitersOf(s));
    }

    method NewValue(s: SemaId, v: nat)
      requires Upright()
      modifies this`st, this`values
      ensures Upright() && st == SemaNew(old(st), s, v)
    {
      values := values[s := v];
      st := SemaNew(st, s, v);
    }

    // The decrement.
    method TakeUnit(s: SemaId)
      requires Repr() && s in st.semas && st.semas[s].value > 0
      modifies this`st, this`values
      ensures Repr() && st == Taken(old(st), s)
    {
      ghost var m := st.semas[s];
      SetValue(s, values[s] - 1, m.(value := m.value - 1, downs := m.downs + 1));
      st := Taken(old(st), s);
    }

    // One turn of the loop of sema_down(): from the test to the next thread switch or the return.
    method SemaDownTest(s: SemaId, after: After)
      requires Repr() && s in st.semas && current in st.status
      requires st.semas[s].value == 0 ==> Unlisted(st.ready, st.semas, current) && CanSwitch(Asleep(st, s, after))
      modifies this, queues, queues.all, queues.nodes
      ensures Repr() && st == SemaDown(old(st), s, after)
      ensures queues.all == old(queues.all) && queues.nodes == old(queues.nodes)
    {
      if values[s] == 0 {
        PushWaiter(s, current);
        PutPc(current, Downing(s, after));
        GiveUp(Blocked);
      } else {
        PutPc(current, Resume(after));
        TakeUnit(s);
      }
    }

    method SemaTry(s: SemaId) returns (success: bool)
      requires Repr() && s in st.semas
      modifies this`st, this`values
      ensures Repr() && st == SemaTryDown(old(st), s) && (success <==> old(st).semas[s].value > 0)
    {
      success := values[s] > 0;
      if success {
        TakeUnit(s);
      }
    }

    method SemaRaise(s: SemaId)
      requires Repr() && s in st.semas && SoleWaiter(st.ready, st.semas, s)
      requires var w := st.semas[s].waiters; w != [] ==> w[0] in st.status && st.status[w[0]] == Blocked
      modifies this, queues, queues.all, queues.nodes
      ensures Repr() && st == SemaUp(old(st), s)
      ensures queues.all == old(queues.all) && queues.nodes == old(queues.nodes)
    {
      ghost var m := Upped(st.semas[s]);
      RaisedIs(st, s);
      WakeFirst(s);
      SetValue(s, values[s] + 1, m);
    }

    // thread_unblock() of the first waiter, if there is one.
    method WakeFirst(s: SemaId)
      requires Repr() && s in st.semas && SoleWaiter(st.ready, st.semas, s)
      requires var w := st.semas[s].waiters; w != [] ==> w[0] in st.status && st.status[w[0]] == Blocked
      modifies this, queues, queues.all, queues.nodes
      ensures Repr() && st == Woken(old(st), s)
      ensures queues.all == old(queues.all) && queues.nodes == old(queues.nodes)
    {
      assert QueueOk(queues.y.content, st.ready, st.semas, st.conds, WaitersOf(s));
      var none := queues.IsEmpty(WaitersOf(s));
      if !none {
        PoppedUnlisted(st.ready, st.semas, s, st.semas[s].(waiters := st.semas[s].waiters[1..]));
        var t := PopWaiter(s);
        ThreadUnblock(t);
      } else {
        assert st.semas == st.semas[s := st.semas[s].(waiters := [])];
      }
    }

    method LockInit(l: LockId)
      requires Repr() && OfLock(l) !in st.semas
      modifies this`st, this`values, this`holders, queues
      ensures Repr() && st == LockNew(old(st), l)
      ensures fresh(queues.all - old(queues.all)) && fresh(queues.nodes - old(queues.nodes))
    {
      SemaInit(OfLock(l), 1);
      PutHolder(l, None);
    }

    // lock->holder.
    method PutHolder(l: LockId, h: Option<Tid>)
      requires Repr()
      modifies this`st, this`holders
      ensures Repr() && st == old(st).(holders := old(st).holders[l := h])
    {
      holders := holders[l := h];
      st := st.(holders := st.holders[l := h]);
    }

    // The ASSERT of lock_acquire() or lock_try_acquire(), and on to position p.
    method LockAsk(l: LockId, p: Pc)
      requires Repr() && !Holds(st, current, l)
      modifies this`st, this`pc
      ensures Repr() && st == SetPc(old(st), p)
    {
      PutPc(current, p);
    }

    // The sema_try_down() of lock_try_acquire(), and all of lock_try_acquire() in an interrupt handler.
    method LockTryDown(l: LockId) returns (success: bool)
      requires Repr() && PcOf(st, current) == Trying(l) && OfLock(l) in st.semas
      modifies this`st, this`values, this`pc
      ensures Repr() && st == LockTry(old(st)) && (success <==> SemaAt(old(st), OfLock(l)).value > 0)
    {
      LockTryIs(st, l);
      success := values[OfLock(l)] > 0;
      if success {
        LockGetUnit(l);
      } else {
        PutPc(current, Run);
      }
    }

    method LockGetUnit(l: LockId)
      requires Repr() && OfLock(l) in st.semas && st.semas[OfLock(l)].value > 0
      modifies this`st, this`values, this`pc
      ensures Repr() && st == LockGot(old(st), l)
    {
      PutPc(current, SetHolder(l, None));
      TakeUnit(OfLock(l));
    }

    method LockTryInHandler(l: LockId) returns (success: bool)
      requires Repr() && OfLock(l) in st.semas && !Holds(st, current, l)
      modifies this`st, this`values, this`holders
      ensures Repr() && st == HandlerTake(old(st), l) && (success <==> old(st).semas[OfLock(l)].value > 0)
    {
      success := SemaTry(OfLock(l));
      if success {
        PutHolder(l, Some(current));
      }
    }

    // The last statement of lock_acquire() and lock_try_acquire(); the lock_acquire() of cond_wait() ends that too.
    method LockTakeHolder()
      requires Repr() && current in st.pc && st.pc[current].SetHolder?
      modifies this`st, this`holders, this`pc
      ensures Repr() && st == LockTake(old(st))
    {
      var p := pc[current];
      Report(p.wait);
      PutHolder(p.l, Some(current));
      PutPc(current, Run);
    }

    ghost method Report(w: Option<Ticket>)
      requires Repr()
      modifies this`st
      ensures Repr() && st == old(st).(finished := if w.Some? then old(st).finished + [w.value] else old(st).finished)
    {
      if w.Some? {
        st := st.(finished := st.finished + [w.value]);
      }
    }

    // lock_release() up to its sema_up(), with its ASSERT.
    method LockDropHolder(l: LockId, w: Option<Ticket>)
      requires Repr() && Holds(st, current, l)
      modifies this`st, this`holders, this`pc
      ensures Repr() && st == LockDrop(old(st), l, w)
    {
      PutHolder(l, None);
      PutPc(current, Unlocking(l, w));
    }

    method LockReleaseUp()
      requires Repr() && current in st.pc && st.pc[current].Unlocking? && OfLock(st.pc[current].l) in st.semas
      requires var s := OfLock(st.pc[current].l); var w := st.semas[s].waiters;
        SoleWaiter(st.ready, st.semas, s) && (w != [] ==> w[0] in st.status && st.status[w[0]] == Blocked)
      modifies this, queues, queues.all, queues.nodes
      ensures Repr() && st == LockUp(old(st))
      ensures queues.all == old(queues.all) && queues.nodes == old(queues.nodes)
    {
      var p := pc[current];
      LeaveSection(p.l, p.wait);
      SemaRaise(OfLock(p.l));
    }

    method LeaveSection(l: LockId, w: Option<Ticket>)
      requires Repr()
      modifies this`st, this`pc
      ensures Repr() && st == Left(old(st), l, if w.Some? then Waiting(l, w.value) else Run)
    {
      if w.Some? {
        PutPc(current, Waiting(l, w.value));
      } else {
        PutPc(current, Run);
      }
      SetHeld(current, HeldBy(st, current) - {l});
    }

    method CondInit(c: Cond)
      requires Repr() && c !in st.conds
      modifies this`st, queues
      ensures Repr() && st == CondNew(old(st), c)
      ensures fresh(queues.all - old(queues.all)) && fresh(queues.nodes - old(queues.nodes))
    {
      assert QueueOk(queues.y.content, st.ready, st.semas, st.conds, CondList(c));
      MatchCond(queues.y.content, st.ready, st.semas, st.conds, c, CondVar([], [], 0));
      assert Calls([]) == [];
      queues.NewList(CondList(c));
      st := CondNew(st, c);
    }

    // cond_wait() as far as list_push_back().
    method CondWaitEnqueue(c: Cond)
      requires Repr() && c in st.conds && tickets !in st.calls && Unqueued(st.conds, tickets)
        && OfWait(tickets) !in st.semas
      modifies this, queues, queues.all, queues.nodes
      ensures Repr() && st == CondArrive(old(st), c)
      ensures fresh(queues.all - old(queues.all)) && fresh(queues.nodes - old(queues.nodes))
    {
      var k := tickets;
      SemaInit(OfWait(k), 0);
      AddCall(c);
      PushCall(c, k);
      PutPc(current, Enqueued(c.lock, k));
    }

    // The waiter on the stack of cond_wait(), with its list element.
    method AddCall(c: Cond)
      requires Repr() && tickets !in st.calls
      modifies this`st, this`tickets, queues
      ensures Repr() && st == old(st).(calls := old(st).calls[old(tickets) := Call(c, current)])
      ensures queues.all == old(queues.all) && fresh(queues.nodes - old(queues.nodes))
    {
      assert NodeOk(queues.y.elems.Keys, st.status, st.calls, CallNode(tickets));
      NodesCall(queues.y.elems.Keys, st.status, st.calls, tickets, Call(c, current));
      var k := tickets;
      CountCall(c);
      queues.NewNode(CallNode(k));
    }

    method CountCall(c: Cond)
      requires Linked() && tickets !in st.calls
      modifies this`st, this`tickets
      ensures Linked() && st == old(st).(calls := old(st).calls[old(tickets) := Call(c, current)])
    {
      st := st.(calls := st.calls[tickets := Call(c, current)]);
      tickets := tickets + 1;
    }

    method PushCall(c: Cond, k: Ticket)
      requires Repr() && c in st.conds && k in st.calls && Unqueued(st.conds, k)
      modifies this`st, queues, queues.all, queues.nodes
      ensures Repr()
      ensures var v := old(st).conds[c];
        st == old(st).(conds := old(st).conds[c := v.(waiters := v.waiters + [k], arrivals := v.arrivals + [k])])
      ensures queues.all == old(queues.all) && queues.nodes == old(queues.nodes)
    {
      ghost var v := st.conds[c];
      ghost var v1 := v.(waiters := v.waiters + [k], arrivals := v.arrivals + [k]);
      UnqueuedLoose(queues.y.content, st.ready, st.semas, st.conds, k);
      assert QueueOk(queues.y.content, st.ready, st.semas, st.conds, CondList(c));
      assert NodeOk(queues.y.elems.Keys, st.status, st.calls, CallNode(k));
      MatchCond(queues.y.content, st.ready, st.semas, st.conds, c, v1);
      CallsMove(v.waiters, k);
      queues.Push(CondList(c), CallNode(k));
      st := st.(conds := st.conds[c := v1]);
    }

    method PopCall(c: Cond) returns (k: Ticket)
      requires Repr() && c in st.conds && st.conds[c].waiters != []
      modifies this`st, queues, queues.all, queues.nodes
      ensures Repr() && k == old(st).conds[c].waiters[0]
      ensures var v := old(st).conds[c];
        st == old(st).(conds := old(st).conds[c := v.(waiters := v.waiters[1..], signals := v.signals + 1)])
      ensures queues.all == old(queues.all) && queues.nodes == old(queues.nodes)
    {
      ghost var v := st.conds[c];
      ghost var v1 := v.(waiters := v.waiters[1..], signals := v.signals + 1);
      assert QueueOk(queues.y.content, st.ready, st.semas, st.conds, CondList(c));
      MatchCond(queues.y.content, st.ready, st.semas, st.conds, c, v1);
      CallsMove(v.waiters, 0);
      var n := queues.Pop(CondList(c));
      k := n.k;
      st := st.(conds := st.conds[c := v1]);
    }

    // cond_signal(), or one turn of cond_broadcast(), as far as list_pop_front(), with its ASSERT.
    method CondSignalPop(c: Cond, rest: Option<Cond>)
      requires Repr() && c in st.conds && (st.conds[c].waiters != [] ==> Holds(st, current, c.lock))
      modifies this, queues, queues.all, queues.nodes
      ensures Repr() && st == CondPop(old(st), c, rest)
      ensures queues.all == old(queues.all) && queues.nodes == old(queues.nodes)
    {
      assert QueueOk(queues.y.content, st.ready, st.semas, st.conds, CondList(c));
      var none := queues.IsEmpty(CondList(c));
      if none {
        PutPc(current, Run);
      } else {
        var k := PopCall(c);
        PutPc(current, Signalling(k, rest));
      }
    }

    // The sema_up() of cond_signal().
    method CondSignalUp()
      requires Repr() && current in st.pc && st.pc[current].Signalling? && OfWait(st.pc[current].k) in st.semas
      requires var s := OfWait(st.pc[current].k); var w := st.semas[s].waiters;
        SoleWaiter(st.ready, st.semas, s) && (w != [] ==> w[0] in st.status && st.status[w[0]] == Blocked)
      modifies this, queues, queues.all, queues.nodes
      ensures Repr() && st == CondUp(old(st))
      ensures queues.all == old(queues.all) && queues.nodes == old(queues.nodes)
    {
      var p := pc[current];
      AfterSignal(p.rest);
      SemaRaise(OfWait(p.k));
    }

    method AfterSignal(rest: Option<Cond>)
      requires Repr()
      modifies this`st, this`pc
      ensures Repr() && st == SetPc(old(st), if rest.Some? then Broadcasting(rest.value) else Run)
    {
      if rest.Some? {
        PutPc(current, Broadcasting(rest.value));
      } else {
        PutPc(current, Run);
      }
    }

    // ---------- every action ----------

    // thread_tick(), and the end of intr_handler().
    method TimerInterrupt()
      requires Repr() && (slice + 1 >= TIME_SLICE ==> YieldReady(Counted(st)))
      modifies this, queues, queues.all, queues.nodes
      ensures Repr() && st == Tick(old(st))
      ensures queues.all == old(queues.all) && queues.nodes == old(queues.nodes)
    {
      CountTick();
      if slice >= TIME_SLICE {
        ThreadYield();
      }
    }

    method CountTick()
      requires Repr()
      modifies this`st, this`slice
      ensures Repr() && st == Counted(old(st))
    {
      slice := slice + 1;
      st := Counted(st);
    }

    method CpuAct(a: CpuAction)
      requires Valid() && CpuEnabled(st, a)
      modifies this, queues, queues.all, queues.nodes
      ensures Valid() && st == CpuStep(old(st), a)
      ensures fresh(queues.all - old(queues.all)) && fresh(queues.nodes - old(queues.nodes))
    {
      CpuFacts(st, a);
      match a
      case TimerTick => TimerInterrupt();
      case ThreadYield => ThreadYield();
      case ThreadExit => GiveUp(Dying);
      case ThreadInit(child) => ThreadInit(child);
      case ThreadLaunch => ThreadLaunch();
      case IdleStart => IdleStart();
      case IdleUps => PutPc(current, IdleLoop); SemaRaise(Plain(0));
      case IdleBlocks => GiveUp(Blocked);
    }

    method SemaAct(a: SemaAction)
      requires Valid() && SemaEnabled(st, a)
      modifies this, queues, queues.all, queues.nodes
      ensures Valid() && st == SemaStep(old(st), a)
      ensures fresh(queues.all - old(queues.all)) && fresh(queues.nodes - old(queues.nodes))
    {
      SemaFacts(st, a);
      match a
      case SemaInit(n, v) => SemaInit(Plain(n), v);
      case Down(n) => SemaDownTest(Plain(n), Return);
      case TryDown(n) => var _ := SemaTry(Plain(n));
      case Up(n) => SemaRaise(Plain(n));
      case Retest => SemaDownTest(pc[current].s, pc[current].after);
    }

    method LockAct(a: LockAction)
      requires Valid() && LockEnabled(st, a)
      modifies this, queues, queues.all, queues.nodes
      ensures Valid() && st == LockStep(old(st), a)
      ensures fresh(queues.all - old(queues.all)) && fresh(queues.nodes - old(queues.nodes))
    {
      if a.LockInit? || a.TakeHolder? || a.Release? || a.ReleaseUp? {
        HolderAct(a);
      } else {
        AcquireAct(a);
      }
    }

    method HolderAct(a: LockAction)
      requires Valid() && LockEnabled(st, a) && (a.LockInit? || a.TakeHolder? || a.Release? || a.ReleaseUp?)
      modifies this, queues, queues.all, queues.nodes
      ensures Valid() && st == LockStep(old(st), a)
      ensures fresh(queues.all - old(queues.all)) && fresh(queues.nodes - old(queues.nodes))
    {
      LockFacts(st, a);
      match a
      case LockInit(l) => LockInit(l);
      case TakeHolder => LockTakeHolder();
      case Release(l) => LockDropHolder(l, None);
      case ReleaseUp => LockReleaseUp();
    }

    // The steps of lock_acquire() and lock_try_acquire() up to the unit.
    method AcquireAct(a: LockAction)
      requires Valid() && LockEnabled(st, a) && !(a.LockInit? || a.TakeHolder? || a.Release? || a.ReleaseUp?)
      modifies this, queues, queues.all, queues.nodes
      ensures Valid() && st == LockStep(old(st), a)
      ensures fresh(queues.all - old(queues.all)) && fresh(queues.nodes - old(queues.nodes))
    {
      LockFacts(st, a);
      match a
      case Acquire(l) => LockAsk(l, Acquiring(l, None));
      case AcquireDown => SemaDownTest(OfLock(pc[current].l), Hold(pc[current].l, pc[current].wait));
      case TryAcquire(l) => LockAsk(l, Trying(l));
      case AcquireTry => var _ := LockTryDown(pc[current].l);
      case HandlerTry(l) => var _ := LockTryInHandler(l);
    }

    method CondAct(a: CondAction)
      requires Valid() && CondEnabled(st, a)
      modifies this, queues, queues.all, queues.nodes
      ensures Valid() && st == CondStep(old(st), a)
      ensures fresh(queues.all - old(queues.all)) && fresh(queues.nodes - old(queues.nodes))
    {
      if a.Wait? || a.WaitRelease? || a.WaitDown? || a.WaitRelock? {
        WaitAct(a);
      } else {
        SignalAct(a);
      }
    }

    // The four steps of cond_wait() that come before its last sema_down().
    method WaitAct(a: CondAction)
      requires Valid() && CondEnabled(st, a) && (a.Wait? || a.WaitRelease? || a.WaitDown? || a.WaitRelock?)
      modifies this, queues, queues.all, queues.nodes
      ensures Valid() && st == CondStep(old(st), a)
      ensures fresh(queues.all - old(queues.all)) && fresh(queues.nodes - old(queues.nodes))
    {
      CondFacts(st, a);
      match a
      case Wait(c) => CondWaitEnqueue(c);
      case WaitRelease => LockDropHolder(pc[current].l, Some(pc[current].k));
      case WaitDown => SemaDownTest(OfWait(pc[current].k), Regain(pc[current].l, pc[current].k));
      case WaitRelock => LockAsk(pc[current].l, Acquiring(pc[current].l, Some(pc[current].k)));
    }

    method SignalAct(a: CondAction)
      requires Valid() && CondEnabled(st, a) && !a.Wait? && !a.WaitRelease? && !a.WaitDown? && !a.WaitRelock?
      modifies this, queues, queues.all, queues.nodes
      ensures Valid() && st == CondStep(old(st), a)
      ensures fresh(queues.all - old(queues.all)) && fresh(queues.nodes - old(queues.nodes))
    {
      CondFacts(st, a);
      match a
      case CondInit(c) => CondInit(c);
      case Signal(c) => CondSignalPop(c, None);
      case SignalUp => CondSignalUp();
      case Broadcast(c) => PutPc(current, Broadcasting(c));
      case BroadcastNext => CondSignalPop(pc[current].c, Some(pc[current].c));
      case BroadcastNone(c) => CondSignalPop(c, Some(c));
    }

    method Act(a: Action)
      requires Valid() && Enabled(st, a)
      modifies this, queues, queues.all, queues.nodes
      ensures Valid() && st == Apply(old(st), a)
      ensures fresh(queues.all - old(queues.all)) && fresh(queues.nodes - old(queues.nodes))
    {
      match a
      case Cpu(b) => CpuAct(b);
      case OnSema(b) => SemaAct(b);
      case OnLock(b) => LockAct(b);
      case OnCond(b) => CondAct(b);
    }

    // Any run of the model is a run of the code on its lists.
    method Execute(acts: seq<Action>)
      requires Valid() && IsRun(st, acts)
      modifies this, queues, queues.all, queues.nodes
      ensures Valid() && st == Final(old(st), acts)
      decreases |acts|
    {
      if acts != [] {
        Act(acts[0]);
        Execute(acts[1..]);
      }
    }

  }

  // ---------- what each action finds ----------

  ghost predicate YieldReady(st: State) {
    && st.current in st.status && (IsIdle(st, st.current) || Unlisted(st.ready, st.semas, st.current))
    && CanSwitch(YieldUpTo(st))
  }

  ghost predicate DownReady(st: State, s: SemaId, after: After) {
    && s in st.semas && st.current in st.status
    && (st.semas[s].value == 0 ==> Unlisted(st.ready, st.semas, st.current) && CanSwitch(Asleep(st, s, after)))
  }

  ghost predicate UpReady(st: State, s: SemaId) {
    && s in st.semas && SoleWaiter(st.ready, st.semas, s)
    && var w := st.semas[s].waiters; w != [] ==> w[0] in st.status && st.status[w[0]] == Blocked
  }

  lemma YieldFacts(st: State)
    requires Placed(st) && Consistent(Yield(st))
    ensures YieldReady(st)
  {
    RunsUnlisted(st, st.current);
    MaySwitch(YieldUpTo(st));
  }

  lemma GoFacts(st: State, x: Status)
    requires Placed(st) && Consistent(Schedule(SetStatus(st, x)))
    ensures CanSwitch(SetStatus(st, x))
  {
    MaySwitch(SetStatus(st, x));
  }

  lemma DownFacts(st: State, s: SemaId, after: After)
    requires Placed(st) && s in st.semas && Consistent(SemaDown(st, s, after))
    ensures DownReady(st, s, after)
  {
    RunsUnlisted(st, st.current);
    if st.semas[s].value == 0 { MaySwitch(Asleep(st, s, after)); }
  }

  lemma UpFacts(st: State, s: SemaId)
    requires Placed(st) && s in st.semas
    ensures UpReady(st, s)
  {
    FirstIsSole(st, s);
  }

  ghost predicate CpuReady(st: State, a: CpuAction)
    requires CpuEnabled(st, a)
  {
    match a
    case TimerTick => st.slice + 1 >= TIME_SLICE ==> YieldReady(Counted(st))
    case ThreadYield => YieldReady(st)
    case ThreadExit => st.current in st.status && CanSwitch(SetStatus(st, Dying))
    case ThreadLaunch =>
      var ch := PcOf(st, st.current).child;
      ch in st.status && st.status[ch] == Blocked && Unlisted(st.ready, st.semas, ch)
    case IdleUps => UpReady(st, Plain(0))
    case IdleBlocks => st.current in st.status && CanSwitch(SetStatus(st, Blocked))
    case _ => true
  }

  lemma CpuFacts(st: State, a: CpuAction)
    requires Inv(st) && B.Known(st) && CpuEnabled(st, a)
    ensures st.current in st.pc && CpuReady(st, a) && Inv(CpuStep(st, a)) && B.Known(CpuStep(st, a))
  {
    B.StepKnown(st, Cpu(a));
    CpuInv(st, a);
    assert LifeOk(st.status, st.pc, st.freed, st.current, st.idleStarted, st.current);
    match a
    case TimerTick => if st.slice + 1 >= TIME_SLICE { CountedPlaces(st); YieldFacts(Counted(st)); }
    case ThreadYield => YieldFacts(st);
    case ThreadExit => GoFacts(st, Dying);
    case ThreadLaunch => LaunchFacts(st);
    case IdleUps => UpFacts(st, Plain(0));
    case IdleBlocks => GoFacts(st, Blocked);
    case _ =>
  }

  lemma LaunchFacts(st: State)
    requires Placed(st) && st.pc[st.current].Creating?
    ensures CpuReady(st, ThreadLaunch)
  {
    var ch := st.pc[st.current].child;
    assert LifeOk(st.status, st.pc, st.freed, st.current, st.idleStarted, st.current);
    assert LifeOk(st.status, st.pc, st.freed, st.current, st.idleStarted, ch);
    RunsUnlisted(st, ch);
  }

  ghost predicate SemaReady(st: State, a: SemaAction)
    requires SemaEnabled(st, a)
  {
    match a
    case Down(n) => DownReady(st, Plain(n), Return)
    case Up(n) => UpReady(st, Plain(n))
    case Retest => DownReady(st, PcOf(st, st.current).s, PcOf(st, st.current).after)
    case _ => true
  }

  lemma SemaFacts(st: State, a: SemaAction)
    requires Inv(st) && B.Known(st) && SemaEnabled(st, a)
    ensures st.current in st.pc && SemaReady(st, a) && Inv(SemaStep(st, a)) && B.Known(SemaStep(st, a))
  {
    B.StepKnown(st, OnSema(a));
    SemaInv(st, a);
    var p := PcOf(st, st.current);
    match a
    case Down(n) => DownFacts(st, Plain(n), Return);
    case Up(n) => UpFacts(st, Plain(n));
    case Retest => DownFacts(st, p.s, p.after);
    case _ =>
  }

  ghost predicate LockReady(st: State, a: LockAction)
    requires LockEnabled(st, a)
  {
    match a
    case LockInit(l) => OfLock(l) !in st.semas
    case AcquireDown =>
      DownReady(st, OfLock(PcOf(st, st.current).l), Hold(PcOf(st, st.current).l, PcOf(st, st.current).wait))
    case AcquireTry => OfLock(PcOf(st, st.current).l) in st.semas
    case HandlerTry(l) => OfLock(l) in st.semas
    case ReleaseUp => UpReady(st, OfLock(PcOf(st, st.current).l))
    case _ => true
  }

  lemma LockFacts(st: State, a: LockAction)
    requires Inv(st) && B.Known(st) && LockEnabled(st, a)
    ensures st.current in st.pc && LockReady(st, a) && Inv(LockStep(st, a)) && B.Known(LockStep(st, a))
  {
    B.StepKnown(st, OnLock(a));
    LockInv(st, a);
    var p := PcOf(st, st.current);
    match a
    case AcquireDown => LockKnown(st); DownFacts(st, OfLock(p.l), Hold(p.l, p.wait));
    case AcquireTry => LockKnown(st);
    case ReleaseUp => LockKnown(st); UpFacts(st, OfLock(p.l));
    case _ =>
  }

  lemma LockTryIs(st: State, l: LockId)
    requires PcOf(st, st.current) == Trying(l)
    ensures SemaAt(st, OfLock(l)).value > 0 ==> LockTry(st) == LockGot(st, l)
    ensures SemaAt(st, OfLock(l)).value == 0 ==> LockTry(st) == SetPc(st, Run)
  {}

  lemma LockKnown(st: State)
    requires LocksOk(st) && st.current in st.pc
    requires var p := st.pc[st.current]; p.Acquiring? || p.Trying? || p.Unlocking?
    ensures OfLock(st.pc[st.current].l) in st.semas
  {
    var t, p := st.current, st.pc[st.current];
    assert L.PairOk(st.holders, st.held[t], p, t, p.l);
  }

  ghost predicate CondReady(st: State, a: CondAction)
    requires CondEnabled(st, a)
  {
    var p := PcOf(st, st.current);
    match a
    case Wait(c) => |st.calls| !in st.calls && Unqueued(st.conds, |st.calls|) && OfWait(|st.calls|) !in st.semas
    case WaitRelease => Holds(st, st.current, p.l)
    case WaitDown => DownReady(st, OfWait(p.k), Regain(p.l, p.k))
    case WaitRelock => !Holds(st, st.current, p.l)
    case SignalUp => UpReady(st, OfWait(p.k))
    case BroadcastNext => p.c in st.conds && Holds(st, st.current, p.c.lock)
    case _ => true
  }

  lemma CondFacts(st: State, a: CondAction)
    requires Inv(st) && B.Known(st) && CondEnabled(st, a)
    ensures st.current in st.pc && CondReady(st, a) && Inv(CondStep(st, a)) && B.Known(CondStep(st, a))
  {
    B.StepKnown(st, OnCond(a));
    CondInv(st, a);
    CondReadyFacts(st, a);
  }

  lemma CondReadyFacts(st: State, a: CondAction)
    requires Inv(st) && B.Known(st) && CondEnabled(st, a) && Consistent(CondStep(st, a))
    ensures CondReady(st, a)
  {
    var p := PcOf(st, st.current);
    match a
    case Wait(c) => NewUnqueued(st);
    case WaitRelease => HeldFacts(st, p.l);
    case WaitDown => CallFacts(st); DownFacts(st, OfWait(p.k), Regain(p.l, p.k));
    case WaitRelock => NotHeld(st);
    case SignalUp => CallFacts(st); UpFacts(st, OfWait(p.k));
    case BroadcastNext => HeldFacts(st, p.c.lock); assert B.KnownAt(st, st.current);
    case _ =>
  }

  lemma HeldFacts(st: State, l: LockId)
    requires LocksOk(st) && st.current in st.pc && L.Inside(st.pc[st.current], l)
    ensures Holds(st, st.current, l)
  {
    var t := st.current;
    assert L.PairOk(st.holders, st.held[t], st.pc[t], t, l);
  }

  lemma CallFacts(st: State)
    requires CondsOk(st) && st.current in st.pc && (st.pc[st.current].Waiting? || st.pc[st.current].Signalling?)
    ensures OfWait(st.pc[st.current].k) in st.semas
  {
    var p := st.pc[st.current];
    assert C.ThreadOk(st.calls, st.semas, p, st.current) && C.TicketOk(st.conds, st.calls, st.semas, st.pc, p.k);
  }

  // ASSERT (!lock_held_by_current_thread (lock)) in the lock_acquire() of cond_wait() holds.
  lemma NotHeld(st: State)
    requires LocksOk(st) && st.current in st.pc && st.pc[st.current].Relocking?
    ensures !Holds(st, st.current, st.pc[st.current].l)
  {
    var t, p := st.current, st.pc[st.current];
    assert L.PairOk(st.holders, st.held[t], p, t, p.l);
  }

  // sema_up() up to its increment.
  ghost function Woken(st: State, s: SemaId): (r: State)
    requires s in st.semas
  {
    var m := st.semas[s];
    var wake := m.waiters != [];
    st.(semas := st.semas[s := m.(waiters := if wake then m.waiters[1..] else [])],
        ready := if wake then st.ready + [m.waiters[0]] else st.ready,
        status := if wake then st.status[m.waiters[0] := Ready] else st.status,
        panic := st.panic || (wake && StatusOf(st, m.waiters[0]) != Blocked))
  }

  lemma RaisedIs(st: State, s: SemaId)
    requires s in st.semas
    ensures PutSema(Woken(st, s), s, Upped(st.semas[s])) == SemaUp(st, s)
  {
    assert Woken(st, s).semas[s := Upped(st.semas[s])] == st.semas[s := Upped(st.semas[s])];
  }

  // thread_yield() up to its schedule().
  ghost function YieldUpTo(st: State): (r: State) {
    SetStatus(st.(ready := if IsIdle(st, st.current) then st.ready else st.ready + [st.current]), Ready)
  }
}
