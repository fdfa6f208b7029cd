// threads/synch.c: what locks keep true.

module KernelLocks {
  import opened Options
  import opened KernelModel

  // In the critical section, but not the holder: about to become it, or just resigned.
  predicate Edge(p: Pc, l: LockId) {
    (p.SetHolder? || p.Unlocking?) && p.l == l
  }

  // On the way to the lock.
  predicate Outside(p: Pc, l: LockId) {
    || Committed(p, l)
    || (p.Downing? && !p.after.Return? && p.after.l == l)
  }

  // At a point of cond_wait or cond_broadcast where the lock is held.
  predicate Inside(p: Pc, l: LockId) {
    || (p.Enqueued? && p.l == l)
    || (p.Broadcasting? && p.c.lock == l)
    || (p.Signalling? && p.rest.Some? && p.rest.value.lock == l)
  }

  predicate HolderIs(holders: map<LockId, Option<Tid>>, l: LockId, t: Tid) {
    l in holders && holders[l] == Some(t)
  }

  // Thread t with code position p and critical sections hs, against lock l.
  predicate PairOk(holders: map<LockId, Option<Tid>>, hs: set<LockId>, p: Pc, t: Tid, l: LockId) {
    && (l in hs <==> HolderIs(holders, l, t) || Edge(p, l))
    && (Edge(p, l) ==> l in holders && !HolderIs(holders, l, t))
    && (Outside(p, l) ==> l in holders && l !in hs)
    && (Inside(p, l) ==> HolderIs(holders, l, t))
    && (p.Downing? && p.s == OfLock(l) ==> p.after.Hold? && p.after.l == l)
    && (p.Downing? && p.after.Hold? && p.after.l == l ==> p.s == OfLock(l))
  }

  // The threads between a successful down of the lock's semaphore and the matching up.
  ghost function Section(held: map<Tid, set<LockId>>, l: LockId): (r: set<Tid>) {
    set t | t in held && l in held[t]
  }

  ghost predicate LocksOk(holders: map<LockId, Option<Tid>>, held: map<Tid, set<LockId>>,
                          pc: map<Tid, Pc>, semas: map<SemaId, Sema>)
    requires held.Keys == pc.Keys
  {
    && (forall t, l {:trigger PairOk(holders, held[t], pc[t], t, l)} | t in pc ::
          PairOk(holders, held[t], pc[t], t, l))
    && (forall l | l in holders :: OfLock(l) in semas
          && semas[OfLock(l)].value + |Section(held, l)| == 1
          && (holders[l].Some? ==> holders[l].value in pc))
    && (forall l {:trigger OfLock(l)} :: OfLock(l) in semas ==> l in holders)
  }

  lemma Alone(held: map<Tid, set<LockId>>, l: LockId, t: Tid, u: Tid)
    requires |Section(held, l)| <= 1
    requires t in held && u in held && l in held[t] && l in held[u]
    ensures t == u
  {
    if t != u {
      assert {t, u} <= Section(held, l);
      assert |{t, u}| <= |Section(held, l)| by { Smaller({t, u}, Section(held, l)); }
    }
  }

  lemma {:induction false} Smaller<T>(a: set<T>, b: set<T>)
    requires a <= b
    ensures |a| <= |b|
  {
    if a != {} {
      var x :| x in a;
      Smaller(a - {x}, b - {x});
    }
  }

  // Only the code position of one thread changes.
  lemma LocksPc(holders: map<LockId, Option<Tid>>, held: map<Tid, set<LockId>>,
                pc: map<Tid, Pc>, semas: map<SemaId, Sema>, t: Tid, p: Pc)
    requires held.Keys == pc.Keys && LocksOk(holders, held, pc, semas) && t in pc
    requires forall l :: PairOk(holders, held[t], p, t, l)
    ensures LocksOk(holders, held, pc[t := p], semas)
  {
    var pc1 := pc[t := p];
    forall u, l | u in pc1 ensures PairOk(holders, held[u], pc1[u], u, l) {
      assert u != t ==> PairOk(holders, held[u], pc[u], u, l);
    }
  }

  // Thread t moves at lock l: it takes or gives up the critical section or the
  // holder field, and the semaphore of the lock follows.
  lemma LocksMove(holders: map<LockId, Option<Tid>>, held: map<Tid, set<LockId>>,
                  pc: map<Tid, Pc>, semas: map<SemaId, Sema>,
                  t: Tid, p: Pc, l: LockId, holders1: map<LockId, Option<Tid>>,
                  hs: set<LockId>, m: Sema)
    requires held.Keys == pc.Keys && LocksOk(holders, held, pc, semas) && t in pc && l in holders
    requires holders[l] == None || holders[l] == Some(t)
    requires holders1 == holders[l := None] || holders1 == holders[l := Some(t)]
    requires hs == held[t] + {l} || hs == held[t] - {l}
    requires m.value + (if l in hs then 1 else 0)
             == semas[OfLock(l)].value + (if l in held[t] then 1 else 0)
    requires forall k :: PairOk(holders1, hs, p, t, k)
    ensures LocksOk(holders1, held[t := hs], pc[t := p], semas[OfLock(l) := m])
  {
    var held1, pc1 := held[t := hs], pc[t := p];
    forall u, k | u in pc1 ensures PairOk(holders1, held1[u], pc1[u], u, k) {
      if u != t { assert PairOk(holders, held[u], pc[u], u, k); }
    }
    var a, b := Section(held, l), Section(held1, l);
    assert if l in hs then b == a + {t} else b == a - {t};
    forall k | k in holders && k != l ensures Section(held1, k) == Section(held, k) {}
  }

  lemma LocksNewThread(holders: map<LockId, Option<Tid>>, held: map<Tid, set<LockId>>,
                       pc: map<Tid, Pc>, semas: map<SemaId, Sema>, t: Tid, p: Pc)
    requires held.Keys == pc.Keys && LocksOk(holders, held, pc, semas) && t !in pc && p.Newborn?
    ensures LocksOk(holders, held[t := {}], pc[t := p], semas)
  {
    var held1, pc1 := held[t := {}], pc[t := p];
    forall u, l | u in pc1 ensures PairOk(holders, held1[u], pc1[u], u, l) {
      assert u != t ==> PairOk(holders, held[u], pc[u], u, l);
    }
    forall l | l in holders ensures Section(held1, l) == Section(held, l) {}
  }

  lemma LocksNew(holders: map<LockId, Option<Tid>>, held: map<Tid, set<LockId>>,
                 pc: map<Tid, Pc>, semas: map<SemaId, Sema>, l: LockId, m: Sema)
    requires held.Keys == pc.Keys && LocksOk(holders, held, pc, semas)
    requires l !in holders && m.value == 1
    ensures LocksOk(holders[l := None], held, pc, semas[OfLock(l) := m])
  {
    var holders1 := holders[l := None];
    forall u, k | u in pc ensures PairOk(holders1, held[u], pc[u], u, k) && (k == l ==> l !in held[u]) {
      assert PairOk(holders, held[u], pc[u], u, k);
    }
    assert Section(held, l) == {} by {
      forall u | u in held ensures l !in held[u] { assert PairOk(holders, held[u], pc[u], u, l); }
    }
  }

  lemma LocksSema(holders: map<LockId, Option<Tid>>, held: map<Tid, set<LockId>>,
                  pc: map<Tid, Pc>, semas: map<SemaId, Sema>, s: SemaId, m: Sema)
    requires held.Keys == pc.Keys && LocksOk(holders, held, pc, semas)
    requires if s.OfLock? then s in semas && m.value == semas[s].value else true
    ensures LocksOk(holders, held, pc, semas[s := m])
  {
  }
}
