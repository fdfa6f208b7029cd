// threads/synch.c: what semaphores keep true.

module KernelSemas {
  import opened KernelModel

  // Threads that sema_up has taken off the waiter list and that have not tested
  // the value again yet.
  ghost function Woken(status: map<Tid, Status>, pc: map<Tid, Pc>, s: SemaId): (w: set<Tid>) {
    set t | t in status && t in pc && pc[t].Downing? && pc[t].s == s && status[t] != Blocked
  }

  // Units are conserved, and nobody sleeps past an available unit unless
  // somebody is about to test again.
  ghost predicate SemaOk(m: Sema, w: set<Tid>) {
    && m.init + m.ups == m.value + m.downs
    && (m.waiters != [] ==> m.value <= |w|)
  }

  ghost predicate SemasOk(semas: map<SemaId, Sema>, status: map<Tid, Status>, pc: map<Tid, Pc>) {
    forall s | s in semas :: SemaOk(semas[s], Woken(status, pc, s))
  }

  // A thread that was not downing, and is not, counts for no semaphore.
  lemma SemasOther(semas: map<SemaId, Sema>, status: map<Tid, Status>, pc: map<Tid, Pc>,
                   t: Tid, x: Status, p: Pc)
    requires SemasOk(semas, status, pc)
    requires (t !in pc || !pc[t].Downing?) && !p.Downing?
    ensures SemasOk(semas, status[t := x], pc[t := p])
  {
    forall s | s in semas ensures SemaOk(semas[s], Woken(status[t := x], pc[t := p], s)) {
      assert Woken(status[t := x], pc[t := p], s) == Woken(status, pc, s);
    }
  }

  // Dispatching a thread changes no count.
  lemma SemasStatus(semas: map<SemaId, Sema>, status: map<Tid, Status>, pc: map<Tid, Pc>,
                    t: Tid, x: Status)
    requires SemasOk(semas, status, pc)
    requires t in status && t in pc
    requires !pc[t].Downing? || (status[t] != Blocked && x != Blocked)
    ensures SemasOk(semas, status[t := x], pc)
  {
    forall s | s in semas ensures SemaOk(semas[s], Woken(status[t := x], pc, s)) {
      assert Woken(status[t := x], pc, s) == Woken(status, pc, s);
    }
  }

  lemma SemasSleep(semas: map<SemaId, Sema>, status: map<Tid, Status>, pc: map<Tid, Pc>,
                   t: Tid, s: SemaId, after: After)
    requires SemasOk(semas, status, pc)
    requires t in status && t in pc && s in semas && semas[s].value == 0
    requires pc[t].Downing? ==> pc[t].s == s
    ensures SemasOk(semas[s := semas[s].(waiters := semas[s].waiters + [t])],
                    status[t := Blocked], pc[t := Downing(s, after)])
  {
    var semas1 := semas[s := semas[s].(waiters := semas[s].waiters + [t])];
    var status1, pc1 := status[t := Blocked], pc[t := Downing(s, after)];
    forall u | u in semas1 ensures SemaOk(semas1[u], Woken(status1, pc1, u)) {
      assert u != s ==> Woken(status1, pc1, u) == Woken(status, pc, u);
    }
  }

  lemma SemasTake(semas: map<SemaId, Sema>, status: map<Tid, Status>, pc: map<Tid, Pc>,
                  t: Tid, s: SemaId, p: Pc)
    requires SemasOk(semas, status, pc)
    requires t in status && t in pc && s in semas && semas[s].value > 0
    requires !p.Downing? && (pc[t].Downing? ==> pc[t].s == s)
    ensures SemasOk(semas[s := semas[s].(value := semas[s].value - 1, downs := semas[s].downs + 1)],
                    status, pc[t := p])
  {
    var semas1 := semas[s := semas[s].(value := semas[s].value - 1, downs := semas[s].downs + 1)];
    var pc1 := pc[t := p];
    forall u | u in semas1 ensures SemaOk(semas1[u], Woken(status, pc1, u)) {
      assert Woken(status, pc1, u) == Woken(status, pc, u) - {t};
      assert u != s ==> t !in Woken(status, pc, u);
    }
  }

  lemma SemasUp(semas: map<SemaId, Sema>, status: map<Tid, Status>, pc: map<Tid, Pc>, s: SemaId)
    requires SemasOk(semas, status, pc) && s in semas
    requires semas[s].waiters != [] ==>
               var t := semas[s].waiters[0];
               t in status && t in pc && status[t] == Blocked && pc[t].Downing? && pc[t].s == s
    ensures var m := semas[s];
            if m.waiters == []
            then SemasOk(semas[s := Upped(m)], status, pc)
            else SemasOk(semas[s := Upped(m)], status[m.waiters[0] := Ready], pc)
  {
    var m := semas[s];
    if m.waiters != [] {
      var t := m.waiters[0];
      var status1 := status[t := Ready];
      forall u | u in semas && u != s ensures Woken(status1, pc, u) == Woken(status, pc, u) {}
      assert Woken(status1, pc, s) == Woken(status, pc, s) + {t};
    }
  }
}
