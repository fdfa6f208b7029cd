// What the linked lists of the kernel hold, against the lists of the model.

module KernelLinks {
  import opened Seqs
  import opened KernelModel
  import opened KernelPlaces
  import opened KernelSteps
  import opened KernelQueues
  import C = KernelConds

  function Threads(s: seq<Tid>): (r: seq<Node>) {
    seq(|s|, i requires 0 <= i < |s| => ThreadNode(s[i]))
  }

  function Calls(s: seq<Ticket>): (r: seq<Node>) {
    seq(|s|, i requires 0 <= i < |s| => CallNode(s[i]))
  }

  lemma ThreadsMove(s: seq<Tid>, t: Tid)
    ensures Threads(s + [t]) == Threads(s) + [ThreadNode(t)]
    ensures s != [] ==> Threads(s[1..]) == Threads(s)[1..] && Threads(s)[0] == ThreadNode(s[0])
  {}

  lemma CallsMove(s: seq<Ticket>, k: Ticket)
    ensures Calls(s + [k]) == Calls(s) + [CallNode(k)]
    ensures s != [] ==> Calls(s[1..]) == Calls(s)[1..] && Calls(s)[0] == CallNode(s[0])
  {}

  ghost predicate QueueOk(content: map<Queue, seq<Node>>, ready: seq<Tid>, semas: map<SemaId, Sema>,
                          conds: map<Cond, CondVar>, q: Queue) {
    match q
    case ReadyList => q in content && content[q] == Threads(ready)
    case WaitersOf(s) => (q in content <==> s in semas) && (s in semas ==> content[q] == Threads(semas[s].waiters))
    case CondList(c) => (q in content <==> c in conds) && (c in conds ==> content[q] == Calls(conds[c].waiters))
  }

  ghost predicate Matches(content: map<Queue, seq<Node>>, ready: seq<Tid>, semas: map<SemaId, Sema>,
                          conds: map<Cond, CondVar>) {
    forall q {:trigger QueueOk(content, ready, semas, conds, q)} :: QueueOk(content, ready, semas, conds, q)
  }

  lemma MatchReady(content: map<Queue, seq<Node>>, ready: seq<Tid>, semas: map<SemaId, Sema>,
                   conds: map<Cond, CondVar>, ready1: seq<Tid>)
    requires Matches(content, ready, semas, conds)
    ensures Matches(content[ReadyList := Threads(ready1)], ready1, semas, conds)
  {
    var content1 := content[ReadyList := Threads(ready1)];
    forall q ensures QueueOk(content1, ready1, semas, conds, q) { assert QueueOk(content, ready, semas, conds, q); }
  }

  lemma MatchSema(content: map<Queue, seq<Node>>, ready: seq<Tid>, semas: map<SemaId, Sema>,
                  conds: map<Cond, CondVar>, s: SemaId, m: Sema)
    requires Matches(content, ready, semas, conds)
    ensures Matches(content[WaitersOf(s) := Threads(m.waiters)], ready, semas[s := m], conds)
  {
    var content1, semas1 := content[WaitersOf(s) := Threads(m.waiters)], semas[s := m];
    forall q ensures QueueOk(content1, ready, semas1, conds, q) {
      assert QueueOk(content, ready, semas, conds, q);
    }
  }

  // Only the value of a semaphore changes.
  lemma MatchValue(content: map<Queue, seq<Node>>, ready: seq<Tid>, semas: map<SemaId, Sema>,
                   conds: map<Cond, CondVar>, s: SemaId, m: Sema)
    requires Matches(content, ready, semas, conds) && s in semas && m.waiters == semas[s].waiters
    ensures Matches(content, ready, semas[s := m], conds)
  {
    assert QueueOk(content, ready, semas, conds, WaitersOf(s));
    MatchSema(content, ready, semas, conds, s, m);
    assert content[WaitersOf(s) := Threads(m.waiters)] == content;
  }

  lemma MatchCond(content: map<Queue, seq<Node>>, ready: seq<Tid>, semas: map<SemaId, Sema>,
                  conds: map<Cond, CondVar>, c: Cond, v: CondVar)
    requires Matches(content, ready, semas, conds)
    ensures Matches(content[CondList(c) := Calls(v.waiters)], ready, semas, conds[c := v])
  {
    var content1, conds1 := content[CondList(c) := Calls(v.waiters)], conds[c := v];
    forall q ensures QueueOk(content1, ready, semas, conds1, q) {
      assert QueueOk(content, ready, semas, conds, q);
    }
  }

  // ---------- what is on no list ----------

  ghost predicate Unlisted(ready: seq<Tid>, semas: map<SemaId, Sema>, t: Tid) {
    t !in ready && forall s | s in semas :: t !in semas[s].waiters
  }

  ghost predicate Unqueued(conds: map<Cond, CondVar>, k: Ticket) {
    forall c | c in conds :: k !in conds[c].waiters
  }

  lemma UnlistedLoose(content: map<Queue, seq<Node>>, ready: seq<Tid>, semas: map<SemaId, Sema>,
                      conds: map<Cond, CondVar>, t: Tid)
    requires Matches(content, ready, semas, conds) && Unlisted(ready, semas, t)
    ensures Loose(content, ThreadNode(t))
  {
    forall q | q in content ensures ThreadNode(t) !in content[q] {
      assert QueueOk(content, ready, semas, conds, q);
    }
  }

  lemma UnqueuedLoose(content: map<Queue, seq<Node>>, ready: seq<Tid>, semas: map<SemaId, Sema>,
                      conds: map<Cond, CondVar>, k: Ticket)
    requires Matches(content, ready, semas, conds) && Unqueued(conds, k)
    ensures Loose(content, CallNode(k))
  {
    forall q | q in content ensures CallNode(k) !in content[q] {
      assert QueueOk(content, ready, semas, conds, q);
    }
  }

  // Off the list it was on, the first waiter is on no list.
  ghost predicate SoleWaiter(ready: seq<Tid>, semas: map<SemaId, Sema>, s: SemaId)
    requires s in semas
  {
    var w := semas[s].waiters;
    w != [] ==> w[0] !in ready && NoDup(w) && forall r | r in semas && r != s :: w[0] !in semas[r].waiters
  }

  lemma PoppedUnlisted(ready: seq<Tid>, semas: map<SemaId, Sema>, s: SemaId, m: Sema)
    requires s in semas && semas[s].waiters != [] && SoleWaiter(ready, semas, s) && m.waiters == semas[s].waiters[1..]
    ensures Unlisted(ready, semas[s := m], semas[s].waiters[0])
  {
    PopFront(semas[s].waiters);
  }

  // The running thread, and one not launched yet, are on no list.
  lemma RunsUnlisted(st: State, t: Tid)
    requires Placed(st) && t in st.status && (t == st.current || st.pc[t].Newborn?)
    ensures Unlisted(st.ready, st.semas, t)
  {
    assert LifeOk(st.status, st.pc, st.freed, st.current, st.idleStarted, t);
    forall s | s in st.semas ensures t !in st.semas[s].waiters { assert !Sleeps(st.status, st.pc, t, s); }
  }

  lemma FirstIsSole(st: State, s: SemaId)
    requires Placed(st) && s in st.semas
    ensures SoleWaiter(st.ready, st.semas, s)
    ensures st.semas[s].waiters != [] ==>
      st.semas[s].waiters[0] in st.status && st.status[st.semas[s].waiters[0]] == Blocked
  {
    var w := st.semas[s].waiters;
    if w != [] {
      assert w[0] in w && Sleeps(st.status, st.pc, w[0], s);
      forall r | r in st.semas && r != s ensures w[0] !in st.semas[r].waiters {
        assert !Sleeps(st.status, st.pc, w[0], r);
      }
    }
  }

  // A new call of cond_wait is on no list.
  lemma NewUnqueued(st: State)
    requires CondsOk(st)
    ensures |st.calls| !in st.calls && Unqueued(st.conds, |st.calls|)
    ensures OfWait(|st.calls|) !in st.semas
  {
    var k := |st.calls|;
    forall c | c in st.conds ensures k !in st.conds[c].waiters {
      var v := st.conds[c];
      assert C.CondOk(st.calls, c, v);
      assert forall i | 0 <= i < |v.waiters| :: v.waiters[i] == v.arrivals[v.signals + i] && v.waiters[i] in v.arrivals;
    }
    assert OfWait(k) in st.semas ==> k in st.calls;
  }

  // ---------- nodes and values ----------

  ghost predicate NodeOk(keys: set<Node>, status: map<Tid, Status>, calls: map<Ticket, Call>, n: Node) {
    match n
    case ThreadNode(t) => n in keys <==> t in status
    case CallNode(k) => n in keys <==> k in calls
  }

  ghost predicate NodesOk(keys: set<Node>, status: map<Tid, Status>, calls: map<Ticket, Call>) {
    forall n {:trigger NodeOk(keys, status, calls, n)} :: NodeOk(keys, status, calls, n)
  }

  lemma NodesStatus(keys: set<Node>, status: map<Tid, Status>, calls: map<Ticket, Call>, t: Tid, x: Status)
    requires NodesOk(keys, status, calls) && t in status
    ensures NodesOk(keys, status[t := x], calls)
  {
    var status1 := status[t := x];
    forall n ensures NodeOk(keys, status1, calls, n) { assert NodeOk(keys, status, calls, n); }
  }

  lemma NodesThread(keys: set<Node>, status: map<Tid, Status>, calls: map<Ticket, Call>, t: Tid, x: Status)
    requires NodesOk(keys, status, calls)
    ensures NodesOk(keys + {ThreadNode(t)}, status[t := x], calls)
  {
    var keys1, status1 := keys + {ThreadNode(t)}, status[t := x];
    forall n ensures NodeOk(keys1, status1, calls, n) { assert NodeOk(keys, status, calls, n); }
  }

  lemma NodesCall(keys: set<Node>, status: map<Tid, Status>, calls: map<Ticket, Call>, k: Ticket, c: Call)
    requires NodesOk(keys, status, calls)
    ensures NodesOk(keys + {CallNode(k)}, status, calls[k := c])
  {
    var keys1, calls1 := keys + {CallNode(k)}, calls[k := c];
    forall n ensures NodeOk(keys1, status, calls1, n) { assert NodeOk(keys, status, calls, n); }
  }

  ghost predicate ValuesOk(values: map<SemaId, nat>, semas: map<SemaId, Sema>) {
    values.Keys == semas.Keys && forall s | s in semas :: values[s] == semas[s].value
  }
}
