// threads/synch.c: what condition variables keep true.

module KernelConds {
  import opened Options
  import opened Seqs
  import opened KernelModel

  // The call of cond_wait a thread is inside, if any.
  function CallOf(p: Pc): (k: Option<Ticket>) {
    match p
    case Enqueued(_, k) => Some(k)
    case Unlocking(_, w) => w
    case Waiting(_, k) => Some(k)
    case Downing(_, Regain(_, k)) => Some(k)
    case Relocking(_, k) => Some(k)
    case Downing(_, Hold(_, w)) => w
    case Acquiring(_, w) => w
    case SetHolder(_, w) => w
    case _ => None
  }

  function LockOf(p: Pc): (l: LockId)
    requires CallOf(p).Some?
  {
    if p.Downing? then p.after.l else p.l
  }

  // The call has come back from its private semaphore.
  predicate Signalled(p: Pc) {
    CallOf(p).Some? && (p.Relocking? || p.Acquiring? || p.SetHolder? || (p.Downing? && p.after.Hold?))
  }

  ghost predicate ThreadOk(calls: map<Ticket, Call>, semas: map<SemaId, Sema>, p: Pc, t: Tid) {
    && (CallOf(p).Some? ==>
          var k := CallOf(p).value;
          && k in calls && calls[k] == Call(calls[k].cond, t) && calls[k].cond.lock == LockOf(p)
          && (Signalled(p) ==> OfWait(k) in semas && semas[OfWait(k)].downs > 0))
    && (p.Signalling? ==> p.k in calls)
    && (p.Downing? && p.after.Regain? ==> p.s == OfWait(p.after.k))
    && (p.Downing? && p.s.OfWait? ==> p.after.Regain?)
  }

  ghost predicate CondOk(calls: map<Ticket, Call>, c: Cond, v: CondVar) {
    && v.signals <= |v.arrivals| && v.waiters == v.arrivals[v.signals..]
    && NoDup(v.arrivals)
    && forall k | k in v.arrivals :: k in calls && calls[k].cond == c
  }

  // The call was taken off the waiters by one of the signals so far.
  predicate Popped(v: CondVar, k: Ticket) {
    v.signals <= |v.arrivals| && k in v.arrivals[..v.signals]
  }

  ghost function Signallers(pc: map<Tid, Pc>, k: Ticket): (r: set<Tid>) {
    set t | t in pc && pc[t].Signalling? && pc[t].k == k
  }

  // The private semaphore of call k is upped once by the signal that popped the
  // call, and never otherwise.
  ghost predicate TicketOk(conds: map<Cond, CondVar>, calls: map<Ticket, Call>,
                           semas: map<SemaId, Sema>, pc: map<Tid, Pc>, k: Ticket)
    requires k in calls
  {
    && calls[k].cond in conds && k in conds[calls[k].cond].arrivals
    && OfWait(k) in semas && semas[OfWait(k)].init == 0
    && semas[OfWait(k)].ups + |Signallers(pc, k)|
       == (if Popped(conds[calls[k].cond], k) then 1 else 0)
  }

  ghost predicate FinishedOk(calls: map<Ticket, Call>, semas: map<SemaId, Sema>,
                             pc: map<Tid, Pc>, finished: seq<Ticket>) {
    && NoDup(finished)
    && forall k {:trigger DoneOk(calls, semas, pc, k)} | k in finished :: DoneOk(calls, semas, pc, k)
  }

  ghost predicate DoneOk(calls: map<Ticket, Call>, semas: map<SemaId, Sema>,
                         pc: map<Tid, Pc>, k: Ticket) {
    && k in calls && OfWait(k) in semas && semas[OfWait(k)].downs > 0
    && (calls[k].owner in pc ==> CallOf(pc[calls[k].owner]) != Some(k))
  }

  ghost predicate ThreadsOk(calls: map<Ticket, Call>, semas: map<SemaId, Sema>, pc: map<Tid, Pc>) {
    forall t {:trigger ThreadOk(calls, semas, pc[t], t)} | t in pc :: ThreadOk(calls, semas, pc[t], t)
  }

  ghost predicate QueuesOk(conds: map<Cond, CondVar>, calls: map<Ticket, Call>) {
    forall c {:trigger CondOk(calls, c, conds[c])} | c in conds :: CondOk(calls, c, conds[c])
  }

  ghost predicate TicketsOk(conds: map<Cond, CondVar>, calls: map<Ticket, Call>,
                            semas: map<SemaId, Sema>, pc: map<Tid, Pc>) {
    forall k {:trigger TicketOk(conds, calls, semas, pc, k)} | k in calls ::
      TicketOk(conds, calls, semas, pc, k)
  }

  ghost predicate CallsOk(calls: map<Ticket, Call>, semas: map<SemaId, Sema>) {
    && (forall k :: k in calls <==> 0 <= k < |calls|)
    && (forall k {:trigger OfWait(k)} :: OfWait(k) in semas ==> k in calls)
  }

  ghost predicate CondsOk(conds: map<Cond, CondVar>, calls: map<Ticket, Call>,
                          semas: map<SemaId, Sema>, pc: map<Tid, Pc>, finished: seq<Ticket>) {
    && CallsOk(calls, semas) && ThreadsOk(calls, semas, pc) && QueuesOk(conds, calls)
    && TicketsOk(conds, calls, semas, pc) && FinishedOk(calls, semas, pc, finished)
  }

  // Only the code position of one thread changes; it may leave cond_wait.
  lemma CondsPc(conds: map<Cond, CondVar>, calls: map<Ticket, Call>, semas: map<SemaId, Sema>,
                pc: map<Tid, Pc>, finished: seq<Ticket>, t: Tid, p: Pc)
    requires CondsOk(conds, calls, semas, pc, finished)
    requires t in pc ==> !pc[t].Signalling?
    requires !p.Signalling? && ThreadOk(calls, semas, p, t)
    requires CallOf(p).Some? ==> t in pc && CallOf(pc[t]) == CallOf(p)
    ensures CondsOk(conds, calls, semas, pc[t := p], finished)
  {
    var pc1 := pc[t := p];
    forall u | u in pc1 ensures ThreadOk(calls, semas, pc1[u], u) {
      assert u != t ==> ThreadOk(calls, semas, pc[u], u);
    }
    forall k | k in finished ensures DoneOk(calls, semas, pc1, k) {
      assert DoneOk(calls, semas, pc, k);
    }
    forall k | k in calls ensures TicketOk(conds, calls, semas, pc1, k) {
      assert TicketOk(conds, calls, semas, pc, k);
      assert Signallers(pc1, k) == Signallers(pc, k);
    }
  }

  // A thread leaves sema_down with a unit.
  lemma CondsResume(calls: map<Ticket, Call>, semas: map<SemaId, Sema>, s: SemaId, after: After,
                    t: Tid, m: Sema)
    requires ThreadOk(calls, semas, Downing(s, after), t)
    requires s in semas && (s.OfWait? <==> after.Regain?)
    requires s.OfWait? ==> m.downs > 0
    requires !s.OfWait? && s in semas ==> m.downs >= semas[s].downs
    ensures ThreadOk(calls, semas[s := m], Resume(after), t)
    ensures CallOf(Resume(after)) == CallOf(Downing(s, after)) && !Resume(after).Signalling?
  {
  }

  // cond_wait returns.
  lemma CondsFinish(conds: map<Cond, CondVar>, calls: map<Ticket, Call>, semas: map<SemaId, Sema>,
                    pc: map<Tid, Pc>, finished: seq<Ticket>, t: Tid, k: Ticket)
    requires CondsOk(conds, calls, semas, pc, finished)
    requires t in pc && CallOf(pc[t]) == Some(k) && Signalled(pc[t])
    ensures CondsOk(conds, calls, semas, pc[t := Run], finished + [k])
  {
    assert ThreadOk(calls, semas, pc[t], t);
    assert k in finished ==> DoneOk(calls, semas, pc, k);
    CondsPc(conds, calls, semas, pc, finished, t, Run);
    PushBack(finished, k);
    var pc1 := pc[t := Run];
    forall j | j in finished + [k] ensures DoneOk(calls, semas, pc1, j) {
      assert j in finished ==> DoneOk(calls, semas, pc1, j);
    }
  }

  // A semaphore changes, but not by an up of a private one.
  lemma CondsSema(conds: map<Cond, CondVar>, calls: map<Ticket, Call>, semas: map<SemaId, Sema>,
                  pc: map<Tid, Pc>, finished: seq<Ticket>, s: SemaId, m: Sema)
    requires CondsOk(conds, calls, semas, pc, finished)
    requires s.OfWait? ==> s in semas && m.init == semas[s].init && m.ups == semas[s].ups
                           && m.downs >= semas[s].downs
    ensures CondsOk(conds, calls, semas[s := m], pc, finished)
  {
    var semas1 := semas[s := m];
    forall k | k in calls ensures TicketOk(conds, calls, semas1, pc, k) {
      assert TicketOk(conds, calls, semas, pc, k);
    }
    forall u | u in pc ensures ThreadOk(calls, semas1, pc[u], u) {
      assert ThreadOk(calls, semas, pc[u], u);
    }
    forall k | k in finished ensures DoneOk(calls, semas1, pc, k) {
      assert DoneOk(calls, semas, pc, k);
    }
  }

  lemma CondsNew(conds: map<Cond, CondVar>, calls: map<Ticket, Call>, semas: map<SemaId, Sema>,
                 pc: map<Tid, Pc>, finished: seq<Ticket>, c: Cond)
    requires CondsOk(conds, calls, semas, pc, finished) && c !in conds
    ensures CondsOk(conds[c := CondVar([], [], 0)], calls, semas, pc, finished)
  {
    var conds1 := conds[c := CondVar([], [], 0)];
    forall d | d in conds1 ensures CondOk(calls, d, conds1[d]) {
      assert d != c ==> CondOk(calls, d, conds[d]);
    }
    forall k | k in calls ensures TicketOk(conds1, calls, semas, pc, k) {
      assert TicketOk(conds, calls, semas, pc, k);
    }
  }

  lemma QueuesArrive(conds: map<Cond, CondVar>, calls: map<Ticket, Call>, t: Tid, c: Cond, v1: CondVar)
    requires QueuesOk(conds, calls) && c in conds && |calls| !in calls
    requires var k, v := |calls|, conds[c];
             v1 == v.(waiters := v.waiters + [k], arrivals := v.arrivals + [k])
    ensures QueuesOk(conds[c := v1], calls[|calls| := Call(c, t)])
  {
    var k, v := |calls|, conds[c];
    var conds1, calls1 := conds[c := v1], calls[k := Call(c, t)];
    assert CondOk(calls, c, v) && k !in v.arrivals;
    PushBack(v.arrivals, k);
    forall d | d in conds1 ensures CondOk(calls1, d, conds1[d]) {
      assert CondOk(calls, d, conds[d]);
    }
  }

  lemma TicketsArrive(conds: map<Cond, CondVar>, calls: map<Ticket, Call>, semas: map<SemaId, Sema>,
                      pc: map<Tid, Pc>, t: Tid, c: Cond, v1: CondVar, p: Pc)
    requires TicketsOk(conds, calls, semas, pc) && ThreadsOk(calls, semas, pc)
    requires c in conds && |calls| !in calls && t in pc && pc[t].Run? && !p.Signalling?
    requires CondOk(calls, c, conds[c])
    requires v1.arrivals == conds[c].arrivals + [|calls|] && v1.signals == conds[c].signals
    ensures TicketsOk(conds[c := v1], calls[|calls| := Call(c, t)],
                      semas[OfWait(|calls|) := Sema(0, [], 0, 0, 0)], pc[t := p])
  {
    var k := |calls|;
    var conds1, calls1, pc1 := conds[c := v1], calls[k := Call(c, t)], pc[t := p];
    var semas1 := semas[OfWait(k) := Sema(0, [], 0, 0, 0)];
    assert v1.arrivals[..v1.signals] == conds[c].arrivals[..v1.signals];
    assert v1.arrivals[|conds[c].arrivals|] == k;
    forall j | j in calls1 ensures TicketOk(conds1, calls1, semas1, pc1, j) {
      assert Signallers(pc1, j) == Signallers(pc, j);
      if j == k {
        forall u | u in pc ensures !(pc[u].Signalling? && pc[u].k == k) {
          assert ThreadOk(calls, semas, pc[u], u);
        }
        assert Signallers(pc, k) == {};
      } else {
        assert TicketOk(conds, calls, semas, pc, j);
      }
    }
  }

  // cond_wait queues a new private semaphore.
  lemma CondsArrive(conds: map<Cond, CondVar>, calls: map<Ticket, Call>, semas: map<SemaId, Sema>,
                    pc: map<Tid, Pc>, finished: seq<Ticket>, t: Tid, c: Cond)
    requires CondsOk(conds, calls, semas, pc, finished)
    requires t in pc && pc[t].Run? && c in conds
    ensures var k, v := |calls|, conds[c];
            CondsOk(conds[c := v.(waiters := v.waiters + [k], arrivals := v.arrivals + [k])],
                    calls[k := Call(c, t)], semas[OfWait(k) := Sema(0, [], 0, 0, 0)],
                    pc[t := Enqueued(c.lock, k)], finished)
  {
    var k, v := |calls|, conds[c];
    var v1 := v.(waiters := v.waiters + [k], arrivals := v.arrivals + [k]);
    var calls1, pc1 := calls[k := Call(c, t)], pc[t := Enqueued(c.lock, k)];
    var semas1 := semas[OfWait(k) := Sema(0, [], 0, 0, 0)];
    assert CondOk(calls, c, v);
    QueuesArrive(conds, calls, t, c, v1);
    TicketsArrive(conds, calls, semas, pc, t, c, v1, pc1[t]);
    forall u | u in pc1 ensures ThreadOk(calls1, semas1, pc1[u], u) {
      assert ThreadOk(calls, semas, pc[u], u);
    }
    forall j | j in finished ensures DoneOk(calls1, semas1, pc1, j) {
      assert DoneOk(calls, semas, pc, j);
    }
  }

  lemma TicketsPop(conds: map<Cond, CondVar>, calls: map<Ticket, Call>, semas: map<SemaId, Sema>,
                   pc: map<Tid, Pc>, t: Tid, c: Cond, v1: CondVar, p: Pc)
    requires TicketsOk(conds, calls, semas, pc)
    requires c in conds && CondOk(calls, c, conds[c]) && conds[c].waiters != []
    requires var v := conds[c]; v1 == v.(waiters := v.waiters[1..], signals := v.signals + 1)
    requires t in pc && !pc[t].Signalling? && p.Signalling? && p.k == conds[c].waiters[0]
    ensures CondOk(calls, c, v1)
    ensures TicketsOk(conds[c := v1], calls, semas, pc[t := p])
  {
    var v, k := conds[c], p.k;
    var conds1, pc1 := conds[c := v1], pc[t := p];
    assert v.arrivals[v.signals] == k;
    assert v1.arrivals[..v1.signals] == v.arrivals[..v.signals] + [k];
    forall j | j in calls ensures TicketOk(conds1, calls, semas, pc1, j) {
      assert TicketOk(conds, calls, semas, pc, j);
      assert j != k ==> Signallers(pc1, j) == Signallers(pc, j);
      assert j == k ==> Signallers(pc1, j) == Signallers(pc, j) + {t};
    }
  }

  // cond_signal pops the oldest call.
  lemma CondsPop(conds: map<Cond, CondVar>, calls: map<Ticket, Call>, semas: map<SemaId, Sema>,
                 pc: map<Tid, Pc>, finished: seq<Ticket>, t: Tid, c: Cond, rest: Option<Cond>)
    requires CondsOk(conds, calls, semas, pc, finished)
    requires t in pc && (pc[t].Run? || pc[t].Broadcasting?) && c in conds && conds[c].waiters != []
    ensures var v := conds[c];
            CondsOk(conds[c := v.(waiters := v.waiters[1..], signals := v.signals + 1)], calls, semas,
                    pc[t := Signalling(v.waiters[0], rest)], finished)
  {
    var v := conds[c];
    var v1 := v.(waiters := v.waiters[1..], signals := v.signals + 1);
    var conds1, pc1 := conds[c := v1], pc[t := Signalling(v.waiters[0], rest)];
    assert CondOk(calls, c, v) && v.arrivals[v.signals] == v.waiters[0];
    TicketsPop(conds, calls, semas, pc, t, c, v1, pc1[t]);
    forall d | d in conds1 ensures CondOk(calls, d, conds1[d]) {
      assert CondOk(calls, d, conds[d]);
    }
    CondsMoved(calls, semas, pc, finished, t, pc1[t]);
  }

  lemma CondsMoved(calls: map<Ticket, Call>, semas: map<SemaId, Sema>,
                   pc: map<Tid, Pc>, finished: seq<Ticket>, t: Tid, p: Pc)
    requires ThreadsOk(calls, semas, pc) && FinishedOk(calls, semas, pc, finished)
    requires t in pc && CallOf(p).None? && ThreadOk(calls, semas, p, t)
    ensures ThreadsOk(calls, semas, pc[t := p]) && FinishedOk(calls, semas, pc[t := p], finished)
  {
    var pc1 := pc[t := p];
    forall u | u in pc1 ensures ThreadOk(calls, semas, pc1[u], u) {
      assert u != t ==> ThreadOk(calls, semas, pc[u], u);
    }
    forall j | j in finished ensures DoneOk(calls, semas, pc1, j) {
      assert DoneOk(calls, semas, pc, j);
    }
  }

  // cond_signal ups the private semaphore it popped.
  lemma CondsUp(conds: map<Cond, CondVar>, calls: map<Ticket, Call>, semas: map<SemaId, Sema>,
                pc: map<Tid, Pc>, finished: seq<Ticket>, t: Tid, p: Pc, m: Sema)
    requires CondsOk(conds, calls, semas, pc, finished)
    requires t in pc && pc[t].Signalling? && (p.Run? || p.Broadcasting?)
    requires OfWait(pc[t].k) in semas ==> var n := semas[OfWait(pc[t].k)];
               m.init == n.init && m.ups == n.ups + 1 && m.downs == n.downs
    ensures CondsOk(conds, calls, semas[OfWait(pc[t].k) := m], pc[t := p], finished)
  {
    var k := pc[t].k;
    var semas1, pc1 := semas[OfWait(k) := m], pc[t := p];
    assert ThreadOk(calls, semas, pc[t], t) && TicketOk(conds, calls, semas, pc, k);
    forall j | j in calls ensures TicketOk(conds, calls, semas1, pc1, j) {
      assert TicketOk(conds, calls, semas, pc, j);
      assert j != k ==> Signallers(pc1, j) == Signallers(pc, j);
      assert j == k ==> Signallers(pc1, j) == Signallers(pc, j) - {t};
    }
    forall u | u in pc1 ensures ThreadOk(calls, semas1, pc1[u], u) {
      assert u != t ==> ThreadOk(calls, semas, pc[u], u);
    }
    forall j | j in finished ensures DoneOk(calls, semas1, pc1, j) {
      assert DoneOk(calls, semas, pc, j);
    }
  }
}
