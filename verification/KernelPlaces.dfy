// Where threads are: every step keeps the ready list, the semaphore waiter
// lists and the status fields in agreement, and no internal ASSERT fails.

module KernelPlaces {
  import opened Seqs
  import opened KernelModel

  predicate IdlePc(p: Pc) {
    p.IdleEntry? || p.IdleUp? || p.IdleLoop?
  }

  ghost predicate Keys(st: State) {
    && st.status.Keys == st.pc.Keys == st.held.Keys
    && MAIN in st.status && IDLE in st.status && st.current in st.status
  }

  // The ready list holds exactly the threads whose status is READY, each once;
  // the idle thread stays off it.
  ghost predicate ReadyOk(ready: seq<Tid>, status: map<Tid, Status>, idleStarted: bool) {
    && NoDup(ready)
    && (forall t :: t in ready <==>
          t in status && status[t] == Ready && !(idleStarted && t == IDLE))
  }

  predicate Sleeps(status: map<Tid, Status>, pc: map<Tid, Pc>, t: Tid, s: SemaId)
    requires status.Keys == pc.Keys
  {
    t in status && status[t] == Blocked && pc[t].Downing? && pc[t].s == s
  }

  // A waiter list holds exactly the threads asleep on its semaphore, each once.
  ghost predicate WaitersOk(semas: map<SemaId, Sema>, status: map<Tid, Status>, pc: map<Tid, Pc>)
    requires status.Keys == pc.Keys
  {
    && (forall s | s in semas :: NoDup(semas[s].waiters))
    && (forall s, t | s in semas :: t in semas[s].waiters <==> Sleeps(status, pc, t, s))
    && (forall t {:trigger pc[t].s} | t in status && pc[t].Downing? :: pc[t].s in semas)
  }

  // The life of a thread, apart from the lists it is on.
  predicate LifeOk(status: map<Tid, Status>, pc: map<Tid, Pc>, freed: set<Tid>,
                   current: Tid, idleStarted: bool, t: Tid)
    requires status.Keys == pc.Keys
  {
    && (t in freed ==> t in status)
    && (t in status ==>
      // A blocked thread sleeps on a semaphore, is not launched yet, or is the idle thread.
      && (status[t] == Blocked ==> pc[t].Newborn? || pc[t].Downing? || (idleStarted && t == IDLE))
      // A thread being created is blocked, and only its creator will launch it.
      && (pc[t].Newborn? ==> status[t] == Blocked)
      && (pc[t].Creating? ==> pc[t].child in status && pc[pc[t].child] == Newborn(t))
      // The page of a dead thread is freed once another runs, except the first thread's.
      && (t in freed <==> status[t] == Dying && t != MAIN && t != current)
      && (status[t] == Dying ==> pc[t].Run?)
      && (IdlePc(pc[t]) <==> t == IDLE)
      && (t == IDLE ==> status[t] != Dying && (idleStarted <==> !pc[t].IdleEntry?)
                        && (!idleStarted ==> status[t] != Blocked)))
  }

  ghost predicate LivesOk(status: map<Tid, Status>, pc: map<Tid, Pc>, freed: set<Tid>,
                          current: Tid, idleStarted: bool)
    requires status.Keys == pc.Keys
  {
    forall t {:trigger LifeOk(status, pc, freed, current, idleStarted, t)} ::
      LifeOk(status, pc, freed, current, idleStarted, t)
  }

  ghost predicate Consistent(st: State) {
    && Keys(st) && !st.panic && Plain(0) in st.semas
    && ReadyOk(st.ready, st.status, st.idleStarted)
    && WaitersOk(st.semas, st.status, st.pc)
    && LivesOk(st.status, st.pc, st.freed, st.current, st.idleStarted)
  }

  // Between steps, exactly the current thread runs.
  ghost predicate Placed(st: State) {
    Consistent(st) && forall t | t in st.status :: st.status[t] == Running <==> t == st.current
  }

  // Inside a step, once the current thread has given up the CPU, none does.
  ghost predicate PlacedOff(st: State) {
    Consistent(st) && forall t | t in st.status :: st.status[t] != Running
  }

  // ---------- the lists, one at a time ----------

  lemma ReadyPush(ready: seq<Tid>, status: map<Tid, Status>, idle: bool, t: Tid)
    requires ReadyOk(ready, status, idle) && t in status && status[t] != Ready
    requires !(idle && t == IDLE)
    ensures ReadyOk(ready + [t], status[t := Ready], idle)
  {
    PushBack(ready, t);
  }

  lemma ReadyPop(ready: seq<Tid>, status: map<Tid, Status>, idle: bool)
    requires ReadyOk(ready, status, idle) && ready != []
    ensures ready[0] in status && status[ready[0]] == Ready
    ensures ReadyOk(ready[1..], status[ready[0] := Running], idle)
  {
    PopFront(ready);
    var t := ready[0];
    assert t in ready;
  }

  lemma WaitersPush(semas: map<SemaId, Sema>, status: map<Tid, Status>, pc: map<Tid, Pc>,
                    s: SemaId, t: Tid, after: After)
    requires status.Keys == pc.Keys && WaitersOk(semas, status, pc)
    requires s in semas && t in status && status[t] != Blocked
    ensures WaitersOk(semas[s := semas[s].(waiters := semas[s].waiters + [t])],
                      status[t := Blocked], pc[t := Downing(s, after)])
  {
    PushBack(semas[s].waiters, t);
  }

  lemma WaitersPop(semas: map<SemaId, Sema>, status: map<Tid, Status>, pc: map<Tid, Pc>,
                   s: SemaId, m: Sema)
    requires status.Keys == pc.Keys && WaitersOk(semas, status, pc)
    requires s in semas && semas[s].waiters != [] && m.waiters == semas[s].waiters[1..]
    ensures var t := semas[s].waiters[0];
            && t in status && status[t] == Blocked && pc[t].Downing? && pc[t].s == s
            && WaitersOk(semas[s := m], status[t := Ready], pc)
  {
    PopFront(semas[s].waiters);
    assert semas[s].waiters[0] in semas[s].waiters;
    assert Sleeps(status, pc, semas[s].waiters[0], s);
  }

  lemma WaitersAwake(semas: map<SemaId, Sema>, status: map<Tid, Status>, pc: map<Tid, Pc>,
                     t: Tid, x: Status)
    requires status.Keys == pc.Keys && WaitersOk(semas, status, pc)
    requires t in status && (status[t] != Blocked || !pc[t].Downing?)
    requires x != Blocked || !pc[t].Downing?
    ensures WaitersOk(semas, status[t := x], pc)
  {
  }

  lemma WaitersSetPc(semas: map<SemaId, Sema>, status: map<Tid, Status>, pc: map<Tid, Pc>,
                     t: Tid, p: Pc)
    requires status.Keys == pc.Keys && WaitersOk(semas, status, pc)
    requires t in status && (status[t] != Blocked || !pc[t].Downing?) && !p.Downing?
    ensures WaitersOk(semas, status, pc[t := p])
  {
  }

  lemma WaitersSameList(semas: map<SemaId, Sema>, status: map<Tid, Status>, pc: map<Tid, Pc>,
                        s: SemaId, m: Sema)
    requires status.Keys == pc.Keys && WaitersOk(semas, status, pc)
    requires s in semas && m.waiters == semas[s].waiters
    ensures WaitersOk(semas[s := m], status, pc)
  {
  }

  // ---------- lives, one change at a time ----------

  lemma LivesStatus(status: map<Tid, Status>, pc: map<Tid, Pc>, freed: set<Tid>,
                    current: Tid, idle: bool, t: Tid, x: Status)
    requires status.Keys == pc.Keys && LivesOk(status, pc, freed, current, idle)
    requires t in status && !pc[t].Newborn? && t !in freed
    requires x == Blocked ==> pc[t].Downing? || (idle && t == IDLE)
    requires x == Dying ==> t == current && pc[t].Run?
    ensures LivesOk(status[t := x], pc, freed, current, idle)
  {
    var status1 := status[t := x];
    forall u ensures LifeOk(status1, pc, freed, current, idle, u) {
      assert LifeOk(status, pc, freed, current, idle, u);
    }
  }

  lemma LivesSwitch(status: map<Tid, Status>, pc: map<Tid, Pc>, freed: set<Tid>,
                    current: Tid, idle: bool, next: Tid)
    requires status.Keys == pc.Keys && LivesOk(status, pc, freed, current, idle)
    requires next in status && status[next] != Dying && current in status
    ensures LivesOk(status, pc,
                    if current != next && status[current] == Dying && current != MAIN
                    then freed + {current} else freed, next, idle)
  {
    var freed1 := if current != next && status[current] == Dying && current != MAIN
                  then freed + {current} else freed;
    forall u ensures LifeOk(status, pc, freed1, next, idle, u) {
      assert LifeOk(status, pc, freed, current, idle, u);
    }
  }

  lemma LivesPc(status: map<Tid, Status>, pc: map<Tid, Pc>, freed: set<Tid>,
                current: Tid, idle: bool, t: Tid, p: Pc)
    requires status.Keys == pc.Keys && LivesOk(status, pc, freed, current, idle)
    requires t in status && status[t] == Running && !p.Newborn? && !p.Creating?
    requires IdlePc(p) <==> t == IDLE
    requires t == IDLE ==> (idle <==> !p.IdleEntry?)
    ensures LivesOk(status, pc[t := p], freed, current, idle)
  {
    assert LifeOk(status, pc, freed, current, idle, t);
    var pc1 := pc[t := p];
    forall u ensures LifeOk(status, pc1, freed, current, idle, u) {
      assert LifeOk(status, pc, freed, current, idle, u);
    }
  }

  lemma LivesLaunch(status: map<Tid, Status>, pc: map<Tid, Pc>, freed: set<Tid>,
                    current: Tid, idle: bool, ch: Tid)
    requires status.Keys == pc.Keys && LivesOk(status, pc, freed, current, idle)
    requires current in status && pc[current] == Creating(ch) && status[current] == Running
    ensures ch in status && pc[ch].Newborn? && ch != current && ch != IDLE && status[ch] == Blocked
    ensures LivesOk(status[ch := Ready], pc[ch := Run][current := Run], freed, current, idle)
  {
    var status1, pc1 := status[ch := Ready], pc[ch := Run][current := Run];
    assert LifeOk(status, pc, freed, current, idle, current);
    assert LifeOk(status, pc, freed, current, idle, ch);
    forall u ensures LifeOk(status1, pc1, freed, current, idle, u) {
      assert LifeOk(status, pc, freed, current, idle, u);
    }
  }

  lemma LivesInit(status: map<Tid, Status>, pc: map<Tid, Pc>, freed: set<Tid>,
                  current: Tid, idle: bool, ch: Tid)
    requires status.Keys == pc.Keys && LivesOk(status, pc, freed, current, idle)
    requires current in status && status[current] == Running && pc[current].Run?
    requires ch !in status && ch !in freed && ch != IDLE
    ensures LivesOk(status[ch := Blocked], pc[ch := Newborn(current)][current := Creating(ch)],
                    freed, current, idle)
  {
    var status1, pc1 := status[ch := Blocked], pc[ch := Newborn(current)][current := Creating(ch)];
    assert LifeOk(status, pc, freed, current, idle, current);
    forall u ensures LifeOk(status1, pc1, freed, current, idle, u) {
      assert LifeOk(status, pc, freed, current, idle, u);
    }
  }

  // ---------- the steps ----------

  // ASSERT (is_thread (next)) in schedule holds: the ready list is not empty,
  // or the idle thread has introduced itself.
  lemma NextThreadOk(st: State)
    requires PlacedOff(st)
    ensures var next := NextThread(st);
            && (st.ready == [] ==> st.idleStarted)
            && next in st.status && st.status[next] != Dying && !st.pc[next].Newborn?
            && (st.status[next] == Blocked ==> !st.pc[next].Downing?)
            && ReadyOk(Schedule(st).ready, st.status[next := Running], st.idleStarted)
  {
    assert LifeOk(st.status, st.pc, st.freed, st.current, st.idleStarted, IDLE);
    if st.ready != [] {
      ReadyPop(st.ready, st.status, st.idleStarted);
      assert LifeOk(st.status, st.pc, st.freed, st.current, st.idleStarted, st.ready[0]);
    } else {
      assert IDLE !in st.ready;
    }
  }

  lemma SchedulePlaces(st: State)
    requires PlacedOff(st)
    ensures Placed(Schedule(st))
  {
    NextThreadOk(st);
    var next := NextThread(st);
    WaitersAwake(st.semas, st.status, st.pc, next, Running);
    LivesSwitch(st.status, st.pc, st.freed, st.current, st.idleStarted, next);
    var freed := Schedule(st).freed;
    assert LifeOk(st.status, st.pc, freed, next, st.idleStarted, next);
    LivesStatus(st.status, st.pc, freed, next, st.idleStarted, next, Running);
  }

  lemma SetPcPlaces(st: State, p: Pc)
    requires Placed(st) && !p.Downing? && !p.Newborn? && !p.Creating?
    requires IdlePc(p) <==> st.current == IDLE
    requires st.current == IDLE ==> (st.idleStarted <==> !p.IdleEntry?)
    ensures Placed(SetPc(st, p))
  {
    WaitersSetPc(st.semas, st.status, st.pc, st.current, p);
    LivesPc(st.status, st.pc, st.freed, st.current, st.idleStarted, st.current, p);
  }

  lemma OffPlaces(st: State, x: Status)
    requires Placed(st) && x != Running
    requires x == Ready ==> IsIdle(st, st.current)
    requires x == Blocked ==> IsIdle(st, st.current)
    requires x == Dying ==> st.pc[st.current].Run?
    ensures PlacedOff(SetStatus(st, x))
  {
    assert LifeOk(st.status, st.pc, st.freed, st.current, st.idleStarted, st.current);
    WaitersAwake(st.semas, st.status, st.pc, st.current, x);
    LivesStatus(st.status, st.pc, st.freed, st.current, st.idleStarted, st.current, x);
  }

  lemma RequeuePlaces(st: State)
    requires Placed(st) && !IsIdle(st, st.current)
    ensures PlacedOff(SetStatus(st.(ready := st.ready + [st.current]), Ready))
  {
    assert LifeOk(st.status, st.pc, st.freed, st.current, st.idleStarted, st.current);
    WaitersAwake(st.semas, st.status, st.pc, st.current, Ready);
    ReadyPush(st.ready, st.status, st.idleStarted, st.current);
    LivesStatus(st.status, st.pc, st.freed, st.current, st.idleStarted, st.current, Ready);
  }

  lemma YieldPlaces(st: State)
    requires Placed(st)
    ensures Placed(Yield(st))
  {
    if IsIdle(st, st.current) {
      OffPlaces(st, Ready);
      SchedulePlaces(SetStatus(st, Ready));
    } else {
      RequeuePlaces(st);
      SchedulePlaces(SetStatus(st.(ready := st.ready + [st.current]), Ready));
    }
  }

  lemma AsleepPlaces(st: State, s: SemaId, after: After)
    requires Placed(st) && s in st.semas && st.current != IDLE
    ensures PlacedOff(Asleep(st, s, after))
  {
    var t, p := st.current, Downing(s, after);
    assert LifeOk(st.status, st.pc, st.freed, t, st.idleStarted, t);
    WaitersPush(st.semas, st.status, st.pc, s, t, after);
    LivesPc(st.status, st.pc, st.freed, t, st.idleStarted, t, p);
    LivesStatus(st.status, st.pc[t := p], st.freed, t, st.idleStarted, t, Blocked);
  }

  lemma TakenPlaces(st: State, s: SemaId)
    requires Placed(st) && s in st.semas && st.semas[s].value > 0
    ensures Placed(Taken(st, s))
  {
    var m := st.semas[s];
    WaitersSameList(st.semas, st.status, st.pc, s,
                    m.(value := m.value - 1, downs := m.downs + 1));
  }

  lemma SemaDownPlaces(st: State, s: SemaId, after: After)
    requires Placed(st) && s in st.semas && st.current != IDLE
    ensures Placed(SemaDown(st, s, after))
  {
    if st.semas[s].value == 0 {
      AsleepPlaces(st, s, after);
      SchedulePlaces(Asleep(st, s, after));
    } else {
      SetPcPlaces(st, Resume(after));
      TakenPlaces(SetPc(st, Resume(after)), s);
    }
  }

  // ASSERT (t->status == THREAD_BLOCKED) in thread_unblock holds.
  lemma SemaUpPlaces(st: State, s: SemaId)
    requires Placed(st) && s in st.semas
    ensures Placed(SemaUp(st, s))
  {
    var m := st.semas[s];
    if m.waiters == [] {
      WaitersSameList(st.semas, st.status, st.pc, s, Upped(m));
    } else {
      var t := m.waiters[0];
      WaitersPop(st.semas, st.status, st.pc, s, Upped(m));
      assert LifeOk(st.status, st.pc, st.freed, st.current, st.idleStarted, t);
      ReadyPush(st.ready, st.status, st.idleStarted, t);
      LivesStatus(st.status, st.pc, st.freed, st.current, st.idleStarted, t, Ready);
    }
  }

  lemma LaunchPlaces(st: State)
    requires Placed(st) && st.pc[st.current].Creating?
    ensures Placed(Launch(st))
  {
    var t, ch := st.current, st.pc[st.current].child;
    LivesLaunch(st.status, st.pc, st.freed, t, st.idleStarted, ch);
    ReadyPush(st.ready, st.status, st.idleStarted, ch);
    WaitersSetPc(st.semas, st.status, st.pc, ch, Run);
    WaitersSetPc(st.semas, st.status, st.pc[ch := Run], t, Run);
    WaitersAwake(st.semas, st.status, st.pc[ch := Run][t := Run], ch, Ready);
  }

  lemma CreatePlaces(st: State, ch: Tid)
    requires Placed(st) && st.pc[st.current].Run? && ch !in st.status
    ensures Placed(Create(st, ch))
  {
    assert LifeOk(st.status, st.pc, st.freed, st.current, st.idleStarted, ch);
    LivesInit(st.status, st.pc, st.freed, st.current, st.idleStarted, ch);
    WaitersSetPc(st.semas, st.status, st.pc, st.current, Creating(ch));
    assert st.pc[ch := Newborn(st.current)][st.current := Creating(ch)]
           == st.pc[st.current := Creating(ch)][ch := Newborn(st.current)];
    WaitersInit(st.semas, st.status, st.pc[st.current := Creating(ch)], ch, st.current);
  }

  lemma WaitersInit(semas: map<SemaId, Sema>, status: map<Tid, Status>, pc: map<Tid, Pc>,
                    ch: Tid, t: Tid)
    requires status.Keys == pc.Keys && WaitersOk(semas, status, pc) && ch !in status
    ensures WaitersOk(semas, status[ch := Blocked], pc[ch := Newborn(t)])
  {
  }

  lemma NewSemaPlaces(st: State, s: SemaId, v: nat)
    requires Placed(st) && s !in st.semas
    ensures Placed(SemaNew(st, s, v))
  {
    assert forall t | t in st.status && st.pc[t].Downing? :: st.pc[t].s in st.semas;
  }
}
