// threads/thread.c and threads/synch.c: every step keeps every invariant.

module KernelSteps {
  import opened Options
  import opened KernelModel
  import opened KernelPlaces
  import S = KernelSemas
  import L = KernelLocks
  import C = KernelConds

  ghost predicate SemasOk(st: State) {
    S.SemasOk(st.semas, st.status, st.pc)
  }

  ghost predicate LocksOk(st: State) {
    st.held.Keys == st.pc.Keys && L.LocksOk(st.holders, st.held, st.pc, st.semas)
  }

  ghost predicate CondsOk(st: State) {
    C.CondsOk(st.conds, st.calls, st.semas, st.pc, st.finished)
  }

  ghost predicate Inv(st: State) {
    Placed(st) && SemasOk(st) && LocksOk(st) && CondsOk(st)
  }

  // ---------- giving up the CPU ----------

  lemma SemasSchedule(st: State)
    requires PlacedOff(st) && SemasOk(st)
    ensures SemasOk(Schedule(st))
  {
    NextThreadOk(st);
    S.SemasStatus(st.semas, st.status, st.pc, NextThread(st), Running);
  }

  lemma SemasYield(st: State)
    requires Placed(st) && SemasOk(st) && InterruptsOn(st)
    ensures SemasOk(Yield(st))
  {
    var mid := SetStatus(if IsIdle(st, st.current) then st
                         else st.(ready := st.ready + [st.current]), Ready);
    S.SemasStatus(st.semas, st.status, st.pc, st.current, Ready);
    if IsIdle(st, st.current) { OffPlaces(st, Ready); } else { RequeuePlaces(st); }
    SemasSchedule(mid);
  }

  lemma SemasOff(st: State, x: Status)
    requires Placed(st) && SemasOk(st) && InterruptsOn(st)
    requires (x == Dying && st.pc[st.current].Run?) || (x == Blocked && IsIdle(st, st.current))
    ensures SemasOk(Schedule(SetStatus(st, x)))
  {
    S.SemasStatus(st.semas, st.status, st.pc, st.current, x);
    OffPlaces(st, x);
    SemasSchedule(SetStatus(st, x));
  }

  lemma CountedPlaces(st: State)
    requires Placed(st)
    ensures Placed(Counted(st))
  {
  }

  lemma GoPlaces(st: State, x: Status)
    requires Placed(st)
    requires (x == Dying && st.pc[st.current].Run?) || (x == Blocked && IsIdle(st, st.current))
    ensures Placed(Schedule(SetStatus(st, x)))
  {
    OffPlaces(st, x);
    SchedulePlaces(SetStatus(st, x));
  }

  // ---------- sema_down ----------

  // What the code at a call of sema_down has established about locks.
  ghost predicate LocksAllow(st: State, p: Pc) {
    && st.current in st.pc && st.current in st.held
    && forall l {:trigger L.PairOk(st.holders, st.held[st.current], p, st.current, l)} ::
         L.PairOk(st.holders, st.held[st.current], p, st.current, l)
  }

  // ... and about calls of cond_wait.
  ghost predicate CondsAllow(st: State, p: Pc) {
    && st.current in st.pc && !st.pc[st.current].Signalling?
    && C.ThreadOk(st.calls, st.semas, p, st.current)
    && C.CallOf(p) == C.CallOf(st.pc[st.current])
  }

  predicate Fits(s: SemaId, after: After) {
    (s.OfLock? <==> after.Hold?) && (s.OfWait? <==> after.Regain?)
  }

  lemma DownSemas(st: State, s: SemaId, after: After)
    requires Placed(st) && SemasOk(st) && s in st.semas && st.current != IDLE
    requires st.pc[st.current].Downing? ==> st.pc[st.current].s == s
    ensures SemasOk(SemaDown(st, s, after))
  {
    if st.semas[s].value == 0 {
      SleepSemas(st, s, after);
    } else {
      S.SemasTake(st.semas, st.status, st.pc, st.current, s, Resume(after));
    }
  }

  lemma SleepSemas(st: State, s: SemaId, after: After)
    requires Placed(st) && SemasOk(st) && s in st.semas && st.current != IDLE
    requires st.pc[st.current].Downing? ==> st.pc[st.current].s == s
    requires st.semas[s].value == 0
    ensures SemasOk(Schedule(Asleep(st, s, after)))
  {
    S.SemasSleep(st.semas, st.status, st.pc, st.current, s, after);
    AsleepPlaces(st, s, after);
    SemasSchedule(Asleep(st, s, after));
  }

  lemma DownLocks(st: State, s: SemaId, after: After)
    requires LocksOk(st) && LocksAllow(st, Downing(s, after)) && s in st.semas && Fits(s, after)
    ensures LocksOk(SemaDown(st, s, after))
  {
    if st.semas[s].value == 0 {
      SleepLocks(st, s, after);
    } else if s.OfLock? {
      assert L.PairOk(st.holders, st.held[st.current], Downing(s, after), st.current, s.l);
      TakeLock(st, s.l, after.wait);
    } else {
      TakeOther(st, s, after);
    }
  }

  lemma SleepLocks(st: State, s: SemaId, after: After)
    requires LocksOk(st) && LocksAllow(st, Downing(s, after)) && s in st.semas
    ensures LocksOk(Schedule(Asleep(st, s, after)))
  {
    var t, p, m := st.current, Downing(s, after), st.semas[s];
    L.LocksPc(st.holders, st.held, st.pc, st.semas, t, p);
    L.LocksSema(st.holders, st.held, st.pc[t := p], st.semas, s, m.(waiters := m.waiters + [t]));
  }

  // A successful down of a lock's semaphore.
  lemma TakeLock(st: State, l: LockId, w: Option<Ticket>)
    requires LocksOk(st) && LocksAllow(st, Downing(OfLock(l), Hold(l, w)))
    requires OfLock(l) in st.semas && st.semas[OfLock(l)].value > 0
    ensures LocksOk(Taken(SetPc(st, SetHolder(l, w)), OfLock(l)))
  {
    var t, m, p := st.current, st.semas[OfLock(l)], Downing(OfLock(l), Hold(l, w));
    assert L.PairOk(st.holders, st.held[t], p, t, l);
    Free(st, l);
    forall k ensures L.PairOk(st.holders, st.held[t] + {l}, SetHolder(l, w), t, k) {
      assert L.PairOk(st.holders, st.held[t], p, t, k);
    }
    assert st.holders[l := None] == st.holders;
    L.LocksMove(st.holders, st.held, st.pc, st.semas, t, SetHolder(l, w), l, st.holders,
                st.held[t] + {l}, m.(value := m.value - 1, downs := m.downs + 1));
  }

  // A lock whose semaphore has a unit has no holder.
  lemma Free(st: State, l: LockId)
    requires LocksOk(st) && OfLock(l) in st.semas && st.semas[OfLock(l)].value > 0
    ensures l in st.holders && st.holders[l] == None
  {
    var h := if st.holders[l].Some? then st.holders[l].value else st.current;
    assert st.holders[l].Some? ==>
        L.PairOk(st.holders, st.held[h], st.pc[h], h, l) && h in L.Section(st.held, l);
  }

  lemma TakeOther(st: State, s: SemaId, after: After)
    requires LocksOk(st) && LocksAllow(st, Downing(s, after)) && s in st.semas
    requires !s.OfLock? && !after.Hold? && st.semas[s].value > 0
    ensures LocksOk(Taken(SetPc(st, Resume(after)), s))
  {
    var t, m := st.current, st.semas[s];
    forall l ensures L.PairOk(st.holders, st.held[t], Resume(after), t, l) {
      assert L.PairOk(st.holders, st.held[t], Downing(s, after), t, l);
    }
    L.LocksPc(st.holders, st.held, st.pc, st.semas, t, Resume(after));
    L.LocksSema(st.holders, st.held, st.pc[t := Resume(after)], st.semas, s,
                m.(value := m.value - 1, downs := m.downs + 1));
  }

  lemma DownConds(st: State, s: SemaId, after: After)
    requires CondsOk(st) && CondsAllow(st, Downing(s, after)) && s in st.semas && Fits(s, after)
    ensures CondsOk(SemaDown(st, s, after))
  {
    if st.semas[s].value == 0 { SleepConds(st, s, after); } else { TakeConds(st, s, after, Resume(after)); }
  }

  lemma SleepConds(st: State, s: SemaId, after: After)
    requires CondsOk(st) && CondsAllow(st, Downing(s, after)) && s in st.semas
    ensures CondsOk(Schedule(Asleep(st, s, after)))
  {
    var t, m := st.current, st.semas[s];
    C.CondsPc(st.conds, st.calls, st.semas, st.pc, st.finished, t, Downing(s, after));
    C.CondsSema(st.conds, st.calls, st.semas, st.pc[t := Downing(s, after)], st.finished,
                s, m.(waiters := m.waiters + [t]));
  }

  lemma TakeConds(st: State, s: SemaId, after: After, p: Pc)
    requires CondsOk(st) && CondsAllow(st, Downing(s, after)) && s in st.semas && Fits(s, after)
    requires st.semas[s].value > 0 && p == Resume(after)
    ensures CondsOk(Taken(SetPc(st, p), s))
  {
    var t, m := st.current, st.semas[s];
    var m1 := m.(value := m.value - 1, downs := m.downs + 1);
    C.CondsResume(st.calls, st.semas, s, after, t, m1);
    TakenConds(st.conds, st.calls, st.semas, st.pc, st.finished, s, m1, t, p);
  }

  lemma TakenConds(conds: map<Cond, CondVar>, calls: map<Ticket, Call>, semas: map<SemaId, Sema>,
                   pc: map<Tid, Pc>, finished: seq<Ticket>, s: SemaId, m: Sema, t: Tid, p: Pc)
    requires C.CondsOk(conds, calls, semas, pc, finished) && s in semas && t in pc
    requires m.init == semas[s].init && m.ups == semas[s].ups && m.downs >= semas[s].downs
    requires !pc[t].Signalling? && !p.Signalling? && C.CallOf(p) == C.CallOf(pc[t])
    requires C.ThreadOk(calls, semas[s := m], p, t)
    ensures C.CondsOk(conds, calls, semas[s := m], pc[t := p], finished)
  {
    C.CondsSema(conds, calls, semas, pc, finished, s, m);
    C.CondsPc(conds, calls, semas[s := m], pc, finished, t, p);
  }

  // ---------- sema_up ----------

  lemma UpSemas(st: State, s: SemaId)
    requires Placed(st) && SemasOk(st) && s in st.semas
    ensures SemasOk(SemaUp(st, s))
  {
    if st.semas[s].waiters != [] { FirstWaiter(st, s); }
    S.SemasUp(st.semas, st.status, st.pc, s);
  }

  lemma FirstWaiter(st: State, s: SemaId)
    requires Placed(st) && s in st.semas && st.semas[s].waiters != []
    ensures Sleeps(st.status, st.pc, st.semas[s].waiters[0], s)
  {
    assert st.semas[s].waiters[0] in st.semas[s].waiters;
  }

  // The matching up of a lock's semaphore.
  lemma GiveLock(st: State, l: LockId, p: Pc)
    requires LocksOk(st) && st.current in st.pc && OfLock(l) in st.semas
    requires st.pc[st.current].Unlocking? && st.pc[st.current].l == l
    requires p.Run? || (p.Waiting? && p.l == l)
    ensures L.LocksOk(st.holders, st.held[st.current := st.held[st.current] - {l}],
                      st.pc[st.current := p], st.semas[OfLock(l) := Upped(st.semas[OfLock(l)])])
  {
    var t := st.current;
    assert L.PairOk(st.holders, st.held[t], st.pc[t], t, l);
    Vacant(st, l, t);
    forall k ensures L.PairOk(st.holders, st.held[t] - {l}, p, t, k) {
      assert L.PairOk(st.holders, st.held[t], st.pc[t], t, k);
    }
    assert st.holders[l := None] == st.holders;
    L.LocksMove(st.holders, st.held, st.pc, st.semas, t, p, l, st.holders, st.held[t] - {l},
                Upped(st.semas[OfLock(l)]));
  }

  // A thread in the critical section that is not the holder is alone there.
  lemma Vacant(st: State, l: LockId, t: Tid)
    requires LocksOk(st) && t in st.pc && L.Edge(st.pc[t], l)
    ensures l in st.holders && st.holders[l] == None
  {
    assert L.PairOk(st.holders, st.held[t], st.pc[t], t, l);
    var h := if st.holders[l].Some? then st.holders[l].value else t;
    assert st.holders[l].Some? ==> L.PairOk(st.holders, st.held[h], st.pc[h], h, l);
    if st.holders[l].Some? { L.Alone(st.held, l, t, h); }
  }

  // ---------- the steps of thread.c ----------

  lemma YieldInv(st: State)
    requires Inv(st) && InterruptsOn(st)
    ensures Inv(Yield(st))
  {
    YieldPlaces(st);
    SemasYield(st);
  }

  lemma TickInv(st: State)
    requires Inv(st) && InterruptsOn(st)
    ensures Inv(Tick(st))
  {
    CountedPlaces(st);
    if st.slice + 1 >= TIME_SLICE { YieldInv(Counted(st)); }
  }

  lemma GoInv(st: State, x: Status)
    requires Inv(st) && InterruptsOn(st)
    requires (x == Dying && st.pc[st.current].Run?) || (x == Blocked && IsIdle(st, st.current))
    ensures Inv(Schedule(SetStatus(st, x)))
  {
    GoPlaces(st, x);
    SemasOff(st, x);
  }

  lemma CreateInv(st: State, ch: Tid)
    requires Inv(st) && st.pc[st.current].Run? && ch !in st.status
    ensures Inv(Create(st, ch))
  {
    CreatePlaces(st, ch);
    S.SemasOther(st.semas, st.status, st.pc, ch, Blocked, Newborn(st.current));
    S.SemasOther(st.semas, st.status[ch := Blocked], st.pc[ch := Newborn(st.current)],
                 st.current, Running, Creating(ch));
    assert st.status[ch := Blocked][st.current := Running] == st.status[ch := Blocked];
    CreateLocks(st, ch);
    C.CondsPc(st.conds, st.calls, st.semas, st.pc, st.finished, ch, Newborn(st.current));
    C.CondsPc(st.conds, st.calls, st.semas, st.pc[ch := Newborn(st.current)], st.finished,
              st.current, Creating(ch));
  }

  lemma CreateLocks(st: State, ch: Tid)
    requires LocksOk(st) && st.current in st.pc && st.pc[st.current].Run? && ch !in st.pc
    ensures L.LocksOk(st.holders, st.held[ch := {}],
                      st.pc[ch := Newborn(st.current)][st.current := Creating(ch)], st.semas)
  {
    L.LocksNewThread(st.holders, st.held, st.pc, st.semas, ch, Newborn(st.current));
    var t := st.current;
    forall l ensures L.PairOk(st.holders, st.held[t], Creating(ch), t, l) {
      assert L.PairOk(st.holders, st.held[t], st.pc[t], t, l);
    }
    L.LocksPc(st.holders, st.held[ch := {}], st.pc[ch := Newborn(t)], st.semas, t, Creating(ch));
  }

  lemma LaunchInv(st: State)
    requires Inv(st) && st.pc[st.current].Creating?
    ensures Inv(Launch(st))
  {
    var t, ch := st.current, st.pc[st.current].child;
    LaunchPlaces(st);
    LivesLaunch(st.status, st.pc, st.freed, t, st.idleStarted, ch);
    LaunchSemas(st.semas, st.status, st.pc, t, ch);
    LaunchSync(st, ch);
  }

  lemma LaunchSemas(semas: map<SemaId, Sema>, status: map<Tid, Status>, pc: map<Tid, Pc>,
                    t: Tid, ch: Tid)
    requires S.SemasOk(semas, status, pc)
    requires t in status && t in pc && status[t] == Running && pc[t].Creating?
    requires ch in status && ch in pc && pc[ch].Newborn? && ch != t
    ensures S.SemasOk(semas, status[ch := Ready], pc[ch := Run][t := Run])
  {
    S.SemasOther(semas, status, pc, ch, Ready, Run);
    S.SemasOther(semas, status[ch := Ready], pc[ch := Run], t, Running, Run);
    assert status[ch := Ready][t := Running] == status[ch := Ready];
  }

  lemma LaunchSync(st: State, ch: Tid)
    requires LocksOk(st) && CondsOk(st) && st.current in st.pc && st.pc[st.current].Creating?
    requires ch in st.pc && st.pc[ch].Newborn?
    ensures L.LocksOk(st.holders, st.held, st.pc[ch := Run][st.current := Run], st.semas)
    ensures C.CondsOk(st.conds, st.calls, st.semas, st.pc[ch := Run][st.current := Run], st.finished)
  {
    var t := st.current;
    QuietLocks(st, ch, Run);
    QuietLocks(st.(pc := st.pc[ch := Run]), t, Run);
    C.CondsPc(st.conds, st.calls, st.semas, st.pc, st.finished, ch, Run);
    C.CondsPc(st.conds, st.calls, st.semas, st.pc[ch := Run], st.finished, t, Run);
  }

  // A code position that says nothing about locks.
  predicate Quiet(p: Pc) {
    || p.Newborn? || p.Run? || p.Creating? || p.IdleEntry? || p.IdleUp? || p.IdleLoop?
    || (p.Signalling? && p.rest.None?)
  }

  lemma QuietLocks(st: State, t: Tid, p: Pc)
    requires LocksOk(st) && t in st.pc && Quiet(p)
    requires Quiet(st.pc[t]) || st.pc[t].Broadcasting? || st.pc[t].Signalling?
    ensures L.LocksOk(st.holders, st.held, st.pc[t := p], st.semas)
  {
    forall l ensures L.PairOk(st.holders, st.held[t], p, t, l) {
      assert L.PairOk(st.holders, st.held[t], st.pc[t], t, l);
    }
    L.LocksPc(st.holders, st.held, st.pc, st.semas, t, p);
  }

  lemma IdleBeginInv(st: State)
    requires Inv(st) && st.pc[st.current].IdleEntry?
    ensures Inv(IdleBegin(st))
  {
    IdleBeginPlaces(st);
    S.SemasOther(st.semas, st.status, st.pc, st.current, Running, IdleUp);
    assert st.status[st.current := Running] == st.status;
    QuietLocks(st, st.current, IdleUp);
    C.CondsPc(st.conds, st.calls, st.semas, st.pc, st.finished, st.current, IdleUp);
  }

  lemma IdleBeginPlaces(st: State)
    requires Placed(st) && st.pc[st.current].IdleEntry?
    ensures Placed(IdleBegin(st))
  {
    var t, pc1 := st.current, st.pc[st.current := IdleUp];
    assert LifeOk(st.status, st.pc, st.freed, t, st.idleStarted, t);
    WaitersSetPc(st.semas, st.status, st.pc, t, IdleUp);
    forall u ensures LifeOk(st.status, pc1, st.freed, t, true, u) {
      assert LifeOk(st.status, st.pc, st.freed, t, st.idleStarted, u);
    }
  }

  // ---------- the steps of synch.c ----------

  lemma DownInv(st: State, s: SemaId, after: After)
    requires Inv(st) && s in st.semas && st.current != IDLE && Fits(s, after)
    requires st.pc[st.current].Downing? ==> st.pc[st.current].s == s
    requires LocksAllow(st, Downing(s, after)) && CondsAllow(st, Downing(s, after))
    ensures Inv(SemaDown(st, s, after))
  {
    SemaDownPlaces(st, s, after);
    DownSemas(st, s, after);
    DownLocks(st, s, after);
    DownConds(st, s, after);
  }

  lemma NotIdle(st: State)
    requires Placed(st) && !IdlePc(st.pc[st.current])
    ensures st.current != IDLE
    ensures st.pc[st.current].Downing? ==> st.pc[st.current].s in st.semas
  {
    assert LifeOk(st.status, st.pc, st.freed, st.current, st.idleStarted, st.current);
  }

  lemma LocksAllowed(st: State, p: Pc)
    requires LocksOk(st) && st.current in st.pc
    requires forall l :: L.PairOk(st.holders, st.held[st.current], st.pc[st.current], st.current, l)
                         ==> L.PairOk(st.holders, st.held[st.current], p, st.current, l)
    ensures LocksAllow(st, p)
  {
    var t := st.current;
    forall l ensures L.PairOk(st.holders, st.held[t], p, t, l) {
      assert L.PairOk(st.holders, st.held[t], st.pc[t], t, l);
    }
  }

  lemma PlainDownInv(st: State, n: int)
    requires Inv(st) && st.pc[st.current].Run? && Plain(n) in st.semas
    ensures Inv(SemaDown(st, Plain(n), Return))
  {
    NotIdle(st);
    LocksAllowed(st, Downing(Plain(n), Return));
    DownInv(st, Plain(n), Return);
  }

  lemma RetestInv(st: State)
    requires Inv(st) && st.pc[st.current].Downing?
    ensures var p := st.pc[st.current]; Inv(SemaDown(st, p.s, p.after))
  {
    var t, p := st.current, st.pc[st.current];
    NotIdle(st);
    LocksAllowed(st, p);
    assert C.ThreadOk(st.calls, st.semas, p, t);
    if p.s.OfLock? { assert L.PairOk(st.holders, st.held[t], p, t, p.s.l); }
    if p.after.Hold? { assert L.PairOk(st.holders, st.held[t], p, t, p.after.l); }
    DownInv(st, p.s, p.after);
  }

  // Past the ASSERT of lock_acquire or lock_try_acquire.
  lemma AskInv(st: State, l: LockId, p: Pc)
    requires Inv(st) && st.pc[st.current].Run? && l in st.holders && !Holds(st, st.current, l)
    requires p == Acquiring(l, None) || p == Trying(l)
    ensures Inv(SetPc(st, p))
  {
    var t := st.current;
    forall k ensures L.PairOk(st.holders, st.held[t], p, t, k) {
      assert L.PairOk(st.holders, st.held[t], st.pc[t], t, k);
    }
    L.LocksPc(st.holders, st.held, st.pc, st.semas, t, p);
    C.CondsPc(st.conds, st.calls, st.semas, st.pc, st.finished, t, p);
    MoveInv(st, p, st.holders, st.conds, st.finished);
  }

  lemma LockDownInv(st: State)
    requires Inv(st) && st.pc[st.current].Acquiring?
    ensures Inv(LockDown(st))
  {
    var t, p := st.current, st.pc[st.current];
    NotIdle(st);
    LocksAllowed(st, Downing(OfLock(p.l), Hold(p.l, p.wait)));
    assert L.PairOk(st.holders, st.held[t], p, t, p.l);
    assert C.ThreadOk(st.calls, st.semas, p, t);
    DownInv(st, OfLock(p.l), Hold(p.l, p.wait));
  }

  lemma WaitDownInv(st: State)
    requires Inv(st) && st.pc[st.current].Waiting?
    ensures var p := st.pc[st.current]; Inv(SemaDown(st, OfWait(p.k), Regain(p.l, p.k)))
  {
    var p := st.pc[st.current];
    NotIdle(st);
    LocksAllowed(st, Downing(OfWait(p.k), Regain(p.l, p.k)));
    assert C.ThreadOk(st.calls, st.semas, p, st.current);
    assert C.TicketOk(st.conds, st.calls, st.semas, st.pc, p.k);
    DownInv(st, OfWait(p.k), Regain(p.l, p.k));
  }

  // ASSERT (!lock_held_by_current_thread (lock)) in the lock_acquire of cond_wait holds.
  lemma RelockInv(st: State)
    requires Inv(st) && st.pc[st.current].Relocking?
    ensures Inv(CondRelock(st))
  {
    var t, p := st.current, st.pc[st.current];
    var q := Acquiring(p.l, Some(p.k));
    assert L.PairOk(st.holders, st.held[t], p, t, p.l);
    assert C.ThreadOk(st.calls, st.semas, p, t);
    forall k ensures L.PairOk(st.holders, st.held[t], q, t, k) {
      assert L.PairOk(st.holders, st.held[t], p, t, k);
    }
    L.LocksPc(st.holders, st.held, st.pc, st.semas, t, q);
    C.CondsPc(st.conds, st.calls, st.semas, st.pc, st.finished, t, q);
    MoveInv(st, q, st.holders, st.conds, st.finished);
  }

  lemma TakenInv(st: State, n: int)
    requires Inv(st) && InterruptsOn(st) && Plain(n) in st.semas && st.semas[Plain(n)].value > 0
    ensures Inv(Taken(st, Plain(n)))
  {
    var s, m := Plain(n), st.semas[Plain(n)];
    var m1 := m.(value := m.value - 1, downs := m.downs + 1);
    TakenPlaces(st, s);
    S.SemasTake(st.semas, st.status, st.pc, st.current, s, st.pc[st.current]);
    assert st.pc[st.current := st.pc[st.current]] == st.pc;
    L.LocksSema(st.holders, st.held, st.pc, st.semas, s, m1);
    C.CondsSema(st.conds, st.calls, st.semas, st.pc, st.finished, s, m1);
  }

  lemma LockTryInv(st: State)
    requires Inv(st) && st.pc[st.current].Trying?
    ensures Inv(LockTry(st))
  {
    var t, l := st.current, st.pc[st.current].l;
    assert L.PairOk(st.holders, st.held[t], st.pc[t], t, l);
    if st.semas[OfLock(l)].value > 0 {
      NotIdle(st);
      LocksAllowed(st, Downing(OfLock(l), Hold(l, None)));
      DownInv(st, OfLock(l), Hold(l, None));
    } else {
      forall k ensures L.PairOk(st.holders, st.held[t], Run, t, k) {
        assert L.PairOk(st.holders, st.held[t], st.pc[t], t, k);
      }
      L.LocksPc(st.holders, st.held, st.pc, st.semas, t, Run);
      C.CondsPc(st.conds, st.calls, st.semas, st.pc, st.finished, t, Run);
      MoveInv(st, Run, st.holders, st.conds, st.finished);
    }
  }

  // lock_try_acquire in a handler: the lock goes to the interrupted thread, wherever it is.
  lemma HandlerLocks(st: State, l: LockId)
    requires LocksOk(st) && st.current in st.pc && l in st.holders && st.semas[OfLock(l)].value > 0
    requires InterruptsOn(st) && !Committed(st.pc[st.current], l)
    ensures LocksOk(HandlerGot(st, l))
  {
    var t, m := st.current, st.semas[OfLock(l)];
    var holders1 := st.holders[l := Some(t)];
    Free(st, l);
    assert l in st.held[t] ==> t in L.Section(st.held, l);
    forall k ensures L.PairOk(holders1, st.held[t] + {l}, st.pc[t], t, k) {
      assert L.PairOk(st.holders, st.held[t], st.pc[t], t, k);
    }
    L.LocksMove(st.holders, st.held, st.pc, st.semas, t, st.pc[t], l, holders1, st.held[t] + {l},
                m.(value := m.value - 1, downs := m.downs + 1));
    assert st.pc[t := st.pc[t]] == st.pc;
  }

  // A handler may try a lock exactly when the interrupted thread does not hold it, and does not go
  // on to take it either, unless it is taken by another.
  lemma HandlerTakeExact(st: State, l: LockId)
    requires Inv(st) && InterruptsOn(st) && l in st.holders
    ensures OfLock(l) in st.semas
    ensures Inv(HandlerTake(st, l)) <==>
              !Holds(st, st.current, l) && (st.semas[OfLock(l)].value == 0 || !Committed(st.pc[st.current], l))
  {
    var t, r := st.current, HandlerTake(st, l);
    if !Holds(st, t, l) && st.semas[OfLock(l)].value > 0 {
      if Committed(st.pc[t], l) {
        assert !L.PairOk(r.holders, r.held[t], r.pc[t], t, l);
      } else {
        HandlerLocks(st, l);
        HandlerRest(st, OfLock(l));
      }
    }
  }

  lemma HandlerRest(st: State, s: SemaId)
    requires Inv(st) && InterruptsOn(st) && s.OfLock? && s in st.semas && st.semas[s].value > 0
    ensures var r := HandlerGot(st, s.l); Placed(r) && SemasOk(r) && CondsOk(r)
  {
    var t, m := st.current, st.semas[s];
    TakenPlaces(st, s);
    S.SemasTake(st.semas, st.status, st.pc, t, s, st.pc[t]);
    assert st.pc[t := st.pc[t]] == st.pc;
    C.CondsSema(st.conds, st.calls, st.semas, st.pc, st.finished, s, m.(value := m.value - 1, downs := m.downs + 1));
  }

  lemma UpInv(st: State, n: int)
    requires Inv(st) && Plain(n) in st.semas
    ensures Inv(SemaUp(st, Plain(n)))
  {
    var s := Plain(n);
    SemaUpPlaces(st, s);
    UpSemas(st, s);
    L.LocksSema(st.holders, st.held, st.pc, st.semas, s, Upped(st.semas[s]));
    C.CondsSema(st.conds, st.calls, st.semas, st.pc, st.finished, s, Upped(st.semas[s]));
  }

  // The current thread moves between two positions outside sema_down.
  lemma MoveSemas(st: State, p: Pc)
    requires Placed(st) && SemasOk(st) && InterruptsOn(st) && !p.Downing?
    ensures S.SemasOk(st.semas, st.status, st.pc[st.current := p])
  {
    S.SemasOther(st.semas, st.status, st.pc, st.current, Running, p);
    assert st.status[st.current := Running] == st.status;
  }

  lemma IdleSignalInv(st: State)
    requires Inv(st) && st.pc[st.current].IdleUp?
    ensures Inv(IdleSignal(st))
  {
    assert LifeOk(st.status, st.pc, st.freed, st.current, st.idleStarted, st.current);
    SetPcPlaces(st, IdleLoop);
    MoveSemas(st, IdleLoop);
    QuietLocks(st, st.current, IdleLoop);
    C.CondsPc(st.conds, st.calls, st.semas, st.pc, st.finished, st.current, IdleLoop);
    UpInv(SetPc(st, IdleLoop), 0);
  }

  lemma NewSemaInv(st: State, s: SemaId, v: nat)
    requires Inv(st) && s !in st.semas && s.Plain?
    ensures Inv(SemaNew(st, s, v))
  {
    NewSemaPlaces(st, s, v);
    L.LocksSema(st.holders, st.held, st.pc, st.semas, s, Sema(v, [], v, 0, 0));
    C.CondsSema(st.conds, st.calls, st.semas, st.pc, st.finished, s, Sema(v, [], v, 0, 0));
  }

  lemma LockNewInv(st: State, l: LockId)
    requires Inv(st) && l !in st.holders
    ensures Inv(LockNew(st, l))
  {
    assert OfLock(l) !in st.semas;
    NewSemaPlaces(st, OfLock(l), 1);
    L.LocksNew(st.holders, st.held, st.pc, st.semas, l, Sema(1, [], 1, 0, 0));
    C.CondsSema(st.conds, st.calls, st.semas, st.pc, st.finished, OfLock(l), Sema(1, [], 1, 0, 0));
  }

  // The current thread moves to p, and the records of locks and waits follow.
  lemma MoveInv(st: State, p: Pc, holders: map<LockId, Option<Tid>>, conds: map<Cond, CondVar>,
                finished: seq<Ticket>)
    requires Placed(st) && SemasOk(st) && InterruptsOn(st) && !IdlePc(st.pc[st.current])
    requires !p.Downing? && !p.Newborn? && !p.Creating? && !IdlePc(p)
    requires st.held.Keys == st.pc.Keys
    requires L.LocksOk(holders, st.held, st.pc[st.current := p], st.semas)
    requires C.CondsOk(conds, st.calls, st.semas, st.pc[st.current := p], finished)
    ensures Inv(SetPc(st, p).(holders := holders, conds := conds, finished := finished))
  {
    NotIdle(st);
    SetPcPlaces(st, p);
    MoveSemas(st, p);
  }

  // The same, followed by sema_up.
  lemma MoveUpInv(st: State, p: Pc, held: map<Tid, set<LockId>>, s: SemaId)
    requires Placed(st) && SemasOk(st) && InterruptsOn(st) && !IdlePc(st.pc[st.current])
    requires !p.Downing? && !p.Newborn? && !p.Creating? && !IdlePc(p) && s in st.semas
    requires held.Keys == st.pc.Keys
    requires L.LocksOk(st.holders, held, st.pc[st.current := p], st.semas[s := Upped(st.semas[s])])
    requires C.CondsOk(st.conds, st.calls, st.semas[s := Upped(st.semas[s])],
                       st.pc[st.current := p], st.finished)
    ensures Inv(SemaUp(SetPc(st, p).(held := held), s))
  {
    NotIdle(st);
    SetPcPlaces(st, p);
    MoveSemas(st, p);
    MovedUp(SetPc(st, p).(held := held), s);
  }

  lemma MovedUp(st: State, s: SemaId)
    requires Placed(st) && SemasOk(st) && s in st.semas
    ensures Placed(SemaUp(st, s)) && SemasOk(SemaUp(st, s))
  {
    SemaUpPlaces(st, s);
    UpSemas(st, s);
  }

  lemma TakeHolderLocks(st: State)
    requires LocksOk(st) && st.current in st.pc && st.pc[st.current].SetHolder?
    ensures L.LocksOk(st.holders[st.pc[st.current].l := Some(st.current)], st.held,
                      st.pc[st.current := Run], st.semas)
  {
    var t, l := st.current, st.pc[st.current].l;
    Vacant(st, l, t);
    var holders1, m := st.holders[l := Some(t)], st.semas[OfLock(l)];
    forall k ensures L.PairOk(holders1, st.held[t], Run, t, k) {
      assert L.PairOk(st.holders, st.held[t], st.pc[t], t, k);
    }
    assert st.held[t] == st.held[t] + {l} by {
      assert L.PairOk(st.holders, st.held[t], st.pc[t], t, l);
    }
    L.LocksMove(st.holders, st.held, st.pc, st.semas, t, Run, l, holders1, st.held[t], m);
    assert st.held[t := st.held[t]] == st.held && st.semas[OfLock(l) := m] == st.semas;
  }

  lemma LockTakeInv(st: State)
    requires Inv(st) && st.pc[st.current].SetHolder?
    ensures Inv(LockTake(st))
  {
    var p := st.pc[st.current];
    TakeHolderLocks(st);
    if p.wait.Some? {
      C.CondsFinish(st.conds, st.calls, st.semas, st.pc, st.finished, st.current, p.wait.value);
    } else {
      C.CondsPc(st.conds, st.calls, st.semas, st.pc, st.finished, st.current, Run);
    }
    MoveInv(st, Run, st.holders[p.l := Some(st.current)], st.conds, LockTake(st).finished);
  }

  lemma DropLocks(st: State, l: LockId, w: Option<Ticket>)
    requires LocksOk(st) && st.current in st.pc && Holds(st, st.current, l)
    requires st.pc[st.current].Run? || st.pc[st.current].Enqueued?
    ensures L.LocksOk(st.holders[l := None], st.held, st.pc[st.current := Unlocking(l, w)], st.semas)
  {
    var t, holders1, m := st.current, st.holders[l := None], st.semas[OfLock(l)];
    forall k ensures L.PairOk(holders1, st.held[t], Unlocking(l, w), t, k) {
      assert L.PairOk(st.holders, st.held[t], st.pc[t], t, k);
    }
    assert st.held[t] == st.held[t] + {l} by {
      assert L.PairOk(st.holders, st.held[t], st.pc[t], t, l);
    }
    L.LocksMove(st.holders, st.held, st.pc, st.semas, t, Unlocking(l, w), l, holders1, st.held[t], m);
    assert st.held[t := st.held[t]] == st.held && st.semas[OfLock(l) := m] == st.semas;
  }

  lemma DropConds(st: State, l: LockId, w: Option<Ticket>)
    requires CondsOk(st) && st.current in st.pc
    requires st.pc[st.current] == if w.Some? then Enqueued(l, w.value) else Run
    ensures C.CondsOk(st.conds, st.calls, st.semas, st.pc[st.current := Unlocking(l, w)], st.finished)
  {
    assert C.ThreadOk(st.calls, st.semas, st.pc[st.current], st.current);
    C.CondsPc(st.conds, st.calls, st.semas, st.pc, st.finished, st.current, Unlocking(l, w));
  }

  lemma LockDropInv(st: State, l: LockId, w: Option<Ticket>)
    requires Inv(st) && Holds(st, st.current, l)
    requires st.pc[st.current] == if w.Some? then Enqueued(l, w.value) else Run
    ensures Inv(LockDrop(st, l, w))
  {
    DropLocks(st, l, w);
    DropConds(st, l, w);
    MoveInv(st, Unlocking(l, w), st.holders[l := None], st.conds, st.finished);
  }

  // ASSERT (lock_held_by_current_thread (lock)) in the lock_release of cond_wait holds.
  lemma WaitReleaseInv(st: State)
    requires Inv(st) && st.pc[st.current].Enqueued?
    ensures var p := st.pc[st.current]; Inv(LockDrop(st, p.l, Some(p.k)))
  {
    var t, p := st.current, st.pc[st.current];
    assert L.PairOk(st.holders, st.held[t], p, t, p.l);
    LockDropInv(st, p.l, Some(p.k));
  }

  lemma LockUpInv(st: State, l: LockId, p: Pc)
    requires Inv(st) && st.pc[st.current].Unlocking? && st.pc[st.current].l == l
    requires var w := st.pc[st.current].wait; p == if w.Some? then Waiting(l, w.value) else Run
    ensures Inv(LockUp(st))
  {
    var t := st.current;
    assert L.PairOk(st.holders, st.held[t], st.pc[t], t, l);
    assert C.ThreadOk(st.calls, st.semas, st.pc[t], t);
    GiveLock(st, l, p);
    LockUpConds(st, l, p);
    MoveUpInv(st, p, st.held[t := st.held[t] - {l}], OfLock(l));
  }

  lemma LockUpConds(st: State, l: LockId, p: Pc)
    requires CondsOk(st) && st.current in st.pc && OfLock(l) in st.semas
    requires C.CallOf(p) == C.CallOf(st.pc[st.current]) && !st.pc[st.current].Signalling?
    requires !p.Signalling? && C.ThreadOk(st.calls, st.semas, p, st.current)
    ensures C.CondsOk(st.conds, st.calls, st.semas[OfLock(l) := Upped(st.semas[OfLock(l)])],
                      st.pc[st.current := p], st.finished)
  {
    C.CondsPc(st.conds, st.calls, st.semas, st.pc, st.finished, st.current, p);
    C.CondsSema(st.conds, st.calls, st.semas, st.pc[st.current := p], st.finished,
                OfLock(l), Upped(st.semas[OfLock(l)]));
  }

  lemma CondNewInv(st: State, c: Cond)
    requires Inv(st) && c !in st.conds
    ensures Inv(CondNew(st, c))
  {
    C.CondsNew(st.conds, st.calls, st.semas, st.pc, st.finished, c);
  }

  lemma ArriveInv(st: State, c: Cond)
    requires Inv(st) && st.pc[st.current].Run? && c in st.conds && Holds(st, st.current, c.lock)
    ensures Inv(CondArrive(st, c))
  {
    var k := |st.calls|;
    assert OfWait(k) !in st.semas;
    NotIdle(st);
    ArrivePlaces(st, Enqueued(c.lock, k), OfWait(k));
    ArriveLocks(st, c, k);
    C.CondsArrive(st.conds, st.calls, st.semas, st.pc, st.finished, st.current, c);
  }

  lemma ArrivePlaces(st: State, p: Pc, s: SemaId)
    requires Placed(st) && SemasOk(st) && st.pc[st.current].Run? && p.Enqueued? && s !in st.semas
    requires st.current != IDLE
    ensures Placed(SetPc(SemaNew(st, s, 0), p)) && SemasOk(SetPc(SemaNew(st, s, 0), p))
  {
    SetPcPlaces(st, p);
    NewSemaPlaces(SetPc(st, p), s, 0);
    MoveSemas(st, p);
    assert SetPc(SemaNew(st, s, 0), p) == SemaNew(SetPc(st, p), s, 0);
  }

  lemma ArriveLocks(st: State, c: Cond, k: Ticket)
    requires LocksOk(st) && st.current in st.pc && st.pc[st.current].Run?
    requires Holds(st, st.current, c.lock)
    ensures L.LocksOk(st.holders, st.held, st.pc[st.current := Enqueued(c.lock, k)],
                      st.semas[OfWait(k) := Sema(0, [], 0, 0, 0)])
  {
    var t, p := st.current, Enqueued(c.lock, k);
    forall l ensures L.PairOk(st.holders, st.held[t], p, t, l) {
      assert L.PairOk(st.holders, st.held[t], st.pc[t], t, l);
    }
    L.LocksPc(st.holders, st.held, st.pc, st.semas, t, p);
    L.LocksSema(st.holders, st.held, st.pc[t := p], st.semas, OfWait(k), Sema(0, [], 0, 0, 0));
  }

  // Moves among the positions of cond_signal and cond_broadcast keep the lock.
  lemma HeldMove(st: State, p: Pc, l: LockId)
    requires LocksOk(st) && st.current in st.pc && Holds(st, st.current, l)
    requires var q := st.pc[st.current]; q.Run? || q.Broadcasting? || q.Signalling?
    requires p.Run? || (p.Broadcasting? && p.c.lock == l)
             || (p.Signalling? && (p.rest.Some? ==> p.rest.value.lock == l))
    ensures L.LocksOk(st.holders, st.held, st.pc[st.current := p], st.semas)
  {
    var t := st.current;
    forall k ensures L.PairOk(st.holders, st.held[t], p, t, k) {
      assert L.PairOk(st.holders, st.held[t], st.pc[t], t, k);
    }
    L.LocksPc(st.holders, st.held, st.pc, st.semas, t, p);
  }

  lemma PopInv(st: State, c: Cond, rest: Option<Cond>)
    requires Inv(st) && c in st.conds && Holds(st, st.current, c.lock)
    requires st.pc[st.current] == (if rest.Some? then Broadcasting(c) else Run)
    requires rest.Some? ==> rest.value == c
    ensures Inv(CondPop(st, c, rest))
  {
    var t, v := st.current, st.conds[c];
    if v.waiters == [] {
      HeldMove(st, Run, c.lock);
      C.CondsPc(st.conds, st.calls, st.semas, st.pc, st.finished, t, Run);
      MoveInv(st, Run, st.holders, st.conds, st.finished);
    } else {
      var p := Signalling(v.waiters[0], rest);
      HeldMove(st, p, c.lock);
      C.CondsPop(st.conds, st.calls, st.semas, st.pc, st.finished, t, c, rest);
      MoveInv(st, p, st.holders, st.conds[c := v.(waiters := v.waiters[1..], signals := v.signals + 1)],
              st.finished);
    }
  }

  // ASSERT (lock_held_by_current_thread (lock)) in every cond_signal of a broadcast holds.
  lemma BroadcastNextInv(st: State)
    requires Inv(st) && st.pc[st.current].Broadcasting?
    ensures var c := st.pc[st.current].c; Inv(CondPop(st, c, Some(c)))
  {
    var t, c := st.current, st.pc[st.current].c;
    assert L.PairOk(st.holders, st.held[t], st.pc[t], t, c.lock);
    if c in st.conds {
      PopInv(st, c, Some(c));
    } else {
      HeldMove(st, Run, c.lock);
      C.CondsPc(st.conds, st.calls, st.semas, st.pc, st.finished, t, Run);
      MoveInv(st, Run, st.holders, st.conds, st.finished);
    }
  }

  lemma BroadcastNoneInv(st: State, c: Cond)
    requires Inv(st) && st.pc[st.current].Run? && CondAt(st, c).waiters == []
    ensures Inv(CondPop(st, c, Some(c)))
  {
    assert st.pc[st.current := Run] == st.pc;
  }

  lemma BroadcastInv(st: State, c: Cond)
    requires Inv(st) && st.pc[st.current].Run? && Holds(st, st.current, c.lock)
    ensures Inv(SetPc(st, Broadcasting(c)))
  {
    HeldMove(st, Broadcasting(c), c.lock);
    C.CondsPc(st.conds, st.calls, st.semas, st.pc, st.finished, st.current, Broadcasting(c));
    MoveInv(st, Broadcasting(c), st.holders, st.conds, st.finished);
  }

  lemma SignalUpLocks(st: State, p: Pc)
    requires LocksOk(st) && st.current in st.pc && st.pc[st.current].Signalling?
    requires var r := st.pc[st.current].rest; p == if r.Some? then Broadcasting(r.value) else Run
    ensures L.LocksOk(st.holders, st.held, st.pc[st.current := p], st.semas)
  {
    var t := st.current;
    forall k ensures L.PairOk(st.holders, st.held[t], p, t, k) {
      assert L.PairOk(st.holders, st.held[t], st.pc[t], t, k);
    }
    L.LocksPc(st.holders, st.held, st.pc, st.semas, t, p);
  }

  lemma SignalUpInv(st: State, p: Pc)
    requires Inv(st) && st.pc[st.current].Signalling?
    requires var r := st.pc[st.current].rest; p == if r.Some? then Broadcasting(r.value) else Run
    ensures Inv(CondUp(st))
  {
    var t, k := st.current, st.pc[st.current].k;
    assert C.ThreadOk(st.calls, st.semas, st.pc[t], t);
    assert C.TicketOk(st.conds, st.calls, st.semas, st.pc, k);
    var m := Upped(st.semas[OfWait(k)]);
    SignalUpLocks(st, p);
    L.LocksSema(st.holders, st.held, st.pc[t := p], st.semas, OfWait(k), m);
    C.CondsUp(st.conds, st.calls, st.semas, st.pc, st.finished, t, p, m);
    MoveUpInv(st, p, st.held, OfWait(k));
  }
}
