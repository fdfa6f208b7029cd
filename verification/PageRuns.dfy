// threads/palloc.c: runs of requests and frees.

module PageRuns {
  import opened Options
  import opened BitRuns
  import opened PagePools

  // CNT pages from index IDX of one pool.
  datatype Alloc = Alloc(user: bool, idx: int, cnt: int)

  datatype System = System(mem: Memory, live: set<Alloc>, panicked: bool)

  // Seek puts the cursor anywhere: the properties below hold whatever value it was left with.
  datatype Action = Request(user: bool, mustSucceed: bool, cnt: int) | Release(a: Alloc) | Seek(cursor: int)

  function Addr(m: Memory, a: Alloc): (addr: int) { PoolFor(m, a.user).base + 4096 * a.idx }

  predicate Fit(s: System) { MemoryOk(s.mem) && forall a | a in s.live :: 0 <= a.cnt }

  predicate Enabled(s: System, act: Action) {
    && !s.panicked
    && match act
       case Request(_, _, cnt) => 0 <= cnt
       case Release(a) => a in s.live
       case Seek(c) => 0 <= c
  }

  function Step(s: System, act: Action): (r: System)
    requires Fit(s) && Enabled(s, act)
  {
    match act
    case Request(user, must, cnt) =>
      var (m, o) := Get(s.mem, user, must, cnt);
      if o.Pages? then System(m, s.live + {Alloc(user, IndexIn(PoolFor(s.mem, user), o.addr), cnt)}, false)
      else System(m, s.live, o.Panic?)
    case Release(a) =>
      var r := Free(s.mem, Addr(s.mem, a), a.cnt);
      if r.Some? then System(r.value, s.live - {a}, false) else s.(panicked := true)
    case Seek(c) => s.(mem := s.mem.(cursor := c))
  }

  // ---------- the invariant, one pool's bits at a time ----------

  predicate Holds(live: set<Alloc>, used: seq<bool>, user: bool) {
    forall a | a in live && a.user == user :: 0 < a.cnt && RunAt(used, a.idx, a.cnt, true)
  }

  predicate Apart(a: Alloc, b: Alloc) {
    a.user != b.user || a.idx + a.cnt <= b.idx || b.idx + b.cnt <= a.idx
  }

  predicate AllApart(live: set<Alloc>) {
    forall a, b | a in live && b in live && a != b :: Apart(a, b)
  }

  predicate Covered(live: set<Alloc>, user: bool, p: int) {
    exists a | a in live :: a.user == user && a.idx <= p < a.idx + a.cnt
  }

  // Every used page belongs to a live allocation.
  predicate Owned(live: set<Alloc>, used: seq<bool>, user: bool) {
    forall p | 0 <= p < |used| && used[p] :: Covered(live, user, p)
  }

  ghost predicate Inv(s: System) {
    && MemoryOk(s.mem)
    && AllApart(s.live)
    && Holds(s.live, s.mem.kernel.used, false) && Holds(s.live, s.mem.user.used, true)
    && Owned(s.live, s.mem.kernel.used, false) && Owned(s.live, s.mem.user.used, true)
  }

  lemma TakeHolds(live: set<Alloc>, used: seq<bool>, a: Alloc)
    requires Holds(live, used, a.user) && Owned(live, used, a.user) && AllApart(live)
    requires 0 < a.cnt && RunAt(used, a.idx, a.cnt, false)
    ensures Holds(live + {a}, Filled(used, a.idx, a.cnt, true), a.user)
    ensures Owned(live + {a}, Filled(used, a.idx, a.cnt, true), a.user)
    ensures AllApart(live + {a}) && a !in live
  {
    var used1 := Filled(used, a.idx, a.cnt, true);
    forall b | b in live ensures Apart(a, b) && Apart(b, a) {
      if b.user == a.user { TakenApart(used, a, b); }
    }
    forall p | 0 <= p < |used1| && used1[p] ensures Covered(live + {a}, a.user, p) {
      if a.idx <= p < a.idx + a.cnt {
        assert a in live + {a};
      } else {
        assert Covered(live, a.user, p);
        var b :| b in live && b.user == a.user && b.idx <= p < b.idx + b.cnt;
        assert b in live + {a};
      }
    }
  }

  // A free group and a used group cannot meet.
  lemma TakenApart(used: seq<bool>, a: Alloc, b: Alloc)
    requires 0 < a.cnt && 0 < b.cnt && RunAt(used, a.idx, a.cnt, false) && RunAt(used, b.idx, b.cnt, true)
    ensures a.idx + a.cnt <= b.idx || b.idx + b.cnt <= a.idx
  {
    var p := if a.idx < b.idx then b.idx else a.idx;
    assert used[p] || !used[p];
  }

  lemma DropHolds(live: set<Alloc>, used: seq<bool>, a: Alloc)
    requires Holds(live, used, a.user) && Owned(live, used, a.user) && AllApart(live) && a in live
    ensures RunAt(used, a.idx, a.cnt, true)
    ensures Holds(live - {a}, Filled(used, a.idx, a.cnt, false), a.user)
    ensures Owned(live - {a}, Filled(used, a.idx, a.cnt, false), a.user)
    ensures AllApart(live - {a})
  {
    var used1 := Filled(used, a.idx, a.cnt, false);
    forall b | b in live - {a} && b.user == a.user ensures RunAt(used1, b.idx, b.cnt, true) {
      assert Apart(a, b);
    }
    forall p | 0 <= p < |used1| && used1[p] ensures Covered(live - {a}, a.user, p) {
      assert Covered(live, a.user, p);
      var b :| b in live && b.user == a.user && b.idx <= p < b.idx + b.cnt;
      assert b in live - {a};
    }
  }

  lemma OtherTake(live: set<Alloc>, used: seq<bool>, user: bool, a: Alloc)
    requires Holds(live, used, user) && Owned(live, used, user) && a.user != user
    ensures Holds(live + {a}, used, user) && Owned(live + {a}, used, user)
  {
    forall p | 0 <= p < |used| && used[p] ensures Covered(live + {a}, user, p) {
      assert Covered(live, user, p);
      var b :| b in live && b.user == user && b.idx <= p < b.idx + b.cnt;
      assert b in live + {a};
    }
  }

  lemma OtherDrop(live: set<Alloc>, used: seq<bool>, user: bool, a: Alloc)
    requires Holds(live, used, user) && Owned(live, used, user) && a.user != user
    ensures Holds(live - {a}, used, user) && Owned(live - {a}, used, user)
  {
    forall p | 0 <= p < |used| && used[p] ensures Covered(live - {a}, user, p) {
      assert Covered(live, user, p);
      var b :| b in live && b.user == user && b.idx <= p < b.idx + b.cnt;
      assert b in live - {a};
    }
  }

  // ---------- steps and runs ----------

  lemma RequestInv(s: System, user: bool, must: bool, cnt: int)
    requires Inv(s) && !s.panicked && 0 <= cnt
    ensures Inv(Step(s, Request(user, must, cnt)))
  {
    var (m, o) := Get(s.mem, user, must, cnt);
    if o.Pages? {
      GetGrants(s.mem, user, must, cnt);
      var p := PoolFor(s.mem, user);
      var a := Alloc(user, IndexIn(p, o.addr), cnt);
      TakeHolds(s.live, p.used, a);
      OtherTake(s.live, PoolFor(s.mem, !user).used, !user, a);
    }
  }

  lemma FreeLive(m: Memory, a: Alloc)
    requires MemoryOk(m) && 0 < a.cnt && RunAt(PoolFor(m, a.user).used, a.idx, a.cnt, true)
    ensures Free(m, Addr(m, a), a.cnt)
         == Some(WithUsed(m, a.user, Filled(PoolFor(m, a.user).used, a.idx, a.cnt, false)))
  {
    var p := PoolFor(m, a.user);
    var addr := Addr(m, a);
    assert addr / 4096 - p.base / 4096 == a.idx;
    assert FromPool(m.kernel, addr) <==> !a.user;
  }

  lemma ReleaseInv(s: System, a: Alloc)
    requires Inv(s) && !s.panicked && a in s.live
    ensures Inv(Step(s, Release(a))) && !Step(s, Release(a)).panicked
  {
    var p := PoolFor(s.mem, a.user);
    DropHolds(s.live, p.used, a);
    OtherDrop(s.live, PoolFor(s.mem, !a.user).used, !a.user, a);
    FreeLive(s.mem, a);
  }

  predicate Legal(s: System, acts: seq<Action>)
    decreases |acts|
  {
    acts == [] || (Fit(s) && Enabled(s, acts[0]) && Legal(Step(s, acts[0]), acts[1..]))
  }

  function After(s: System, acts: seq<Action>): (r: System)
    requires Legal(s, acts)
    decreases |acts|
  {
    if acts == [] then s else After(Step(s, acts[0]), acts[1..])
  }

  lemma {:induction false} RunInv(s: System, acts: seq<Action>)
    requires Inv(s) && Legal(s, acts)
    ensures Inv(After(s, acts))
    decreases |acts|
  {
    if acts != [] {
      match acts[0] {
        case Request(user, must, cnt) => RequestInv(s, user, must, cnt);
        case Release(a) => ReleaseInv(s, a);
        case Seek(_) =>
      }
      RunInv(Step(s, acts[0]), acts[1..]);
    }
  }

  // Both pools free, nothing handed out.
  ghost predicate Booted(s: System) {
    && MemoryOk(s.mem) && s.live == {} && !s.panicked
    && (forall p | 0 <= p < |s.mem.kernel.used| :: !s.mem.kernel.used[p])
    && (forall p | 0 <= p < |s.mem.user.used| :: !s.mem.user.used[p])
  }

  predicate AddressesApart(m: Memory, a: Alloc, b: Alloc) {
    Addr(m, a) + 4096 * a.cnt <= Addr(m, b) || Addr(m, b) + 4096 * b.cnt <= Addr(m, a)
  }

  lemma ApartInMemory(s: System, a: Alloc, b: Alloc)
    requires Inv(s) && a in s.live && b in s.live && a != b
    ensures AddressesApart(s.mem, a, b)
  {
    assert Apart(a, b);
    assert RunAt(PoolFor(s.mem, a.user).used, a.idx, a.cnt, true);
    assert RunAt(PoolFor(s.mem, b.user).used, b.idx, b.cnt, true);
  }

  // On every run: live page groups never overlap, in either pool or across pools.
  lemma LiveDisjoint(s: System, acts: seq<Action>, a: Alloc, b: Alloc)
    requires Booted(s) && Legal(s, acts)
    requires a in After(s, acts).live && b in After(s, acts).live && a != b
    ensures AddressesApart(After(s, acts).mem, a, b)
  {
    RunInv(s, acts);
    ApartInMemory(After(s, acts), a, b);
  }

  // On every run: a page is marked used exactly when some live group holds it, so
  // nothing is lost once everything is released.
  lemma UsedIsLive(s: System, acts: seq<Action>, user: bool, p: int)
    requires Booted(s) && Legal(s, acts) && 0 <= p < |PoolFor(After(s, acts).mem, user).used|
    ensures PoolFor(After(s, acts).mem, user).used[p] <==> Covered(After(s, acts).live, user, p)
  {
    RunInv(s, acts);
    var t := After(s, acts);
    if Covered(t.live, user, p) {
      var a :| a in t.live && a.user == user && a.idx <= p < a.idx + a.cnt;
      assert RunAt(PoolFor(t.mem, user).used, a.idx, a.cnt, true);
    }
  }

  // ---------- the cursor ----------

  // Pools in kernel virtual memory, short of its very end.
  predicate KernelSpace(m: Memory) {
    0xC000_0000 <= m.kernel.base && m.user.base + 4096 * |m.user.used| < 0x1_0000_0000
  }

  predicate Stuck(m: Memory) { |m.kernel.used| < m.cursor && |m.user.used| < m.cursor }

  predicate NoSeek(acts: seq<Action>) { forall i | 0 <= i < |acts| :: !acts[i].Seek? }

  // A grant leaves a byte address in the cursor, beyond the end of both bitmaps.
  lemma GrantSticks(m: Memory, user: bool, must: bool, cnt: int)
    requires MemoryOk(m) && KernelSpace(m) && 0 < cnt && Get(m, user, must, cnt).1.Pages?
    ensures Stuck(Get(m, user, must, cnt).0) && KernelSpace(Get(m, user, must, cnt).0)
  {
    GetGrants(m, user, must, cnt);
  }

  // Whatever is asked for next, of either pool, the scan's assertion on its start fails.
  lemma SecondRequestPanics(m: Memory, user: bool, must: bool, cnt: int, user2: bool, must2: bool, cnt2: int)
    requires MemoryOk(m) && KernelSpace(m) && 0 < cnt && 0 < cnt2 && Get(m, user, must, cnt).1.Pages?
    ensures MemoryOk(Get(m, user, must, cnt).0)
    ensures Get(Get(m, user, must, cnt).0, user2, must2, cnt2).1 == Panic
  {
    GrantSticks(m, user, must, cnt);
    GetGrants(m, user, must, cnt);
  }

  // An input: three megabytes of free memory, and two requests for a kernel page.
  lemma SecondPagePanics()
    ensures Init(0xC010_0000, 0xC040_0000, 1000).Some?
    ensures var m := Init(0xC010_0000, 0xC040_0000, 1000).value;
      && MemoryOk(m) && Get(m, false, false, 1).1.Pages? && MemoryOk(Get(m, false, false, 1).0)
      && Get(Get(m, false, false, 1).0, false, false, 1).1 == Panic
  {
    InitOk(0xC010_0000, 0xC040_0000, 1000);
    var m := Init(0xC010_0000, 0xC040_0000, 1000).value;
    GetOutcome(m, false, false, 1);
    assert RunAt(m.kernel.used, 0, 1, false);
    SecondRequestPanics(m, false, false, 1, false, false, 1);
  }

  function Grants(s: System, acts: seq<Action>): (n: int)
    requires Legal(s, acts)
    decreases |acts|
  {
    if acts == [] then 0
    else (if |Step(s, acts[0]).live| > |s.live| then 1 else 0) + Grants(Step(s, acts[0]), acts[1..])
  }

  lemma {:induction false} StuckGrantsNone(s: System, acts: seq<Action>)
    requires Inv(s) && Stuck(s.mem) && Legal(s, acts) && NoSeek(acts)
    ensures Grants(s, acts) == 0
    decreases |acts|
  {
    if acts != [] {
      var t := Step(s, acts[0]);
      match acts[0] {
        case Request(user, must, cnt) => RequestInv(s, user, must, cnt);
        case Release(a) =>
          ReleaseInv(s, a);
          FreeLive(s.mem, a);
        case Seek(_) => assert false;
      }
      StuckGrantsNone(t, acts[1..]);
    }
  }

  // So a kernel whose cursor is only ever set by palloc_get_multiple grants one request and no more.
  lemma {:induction false} OneGrant(s: System, acts: seq<Action>)
    requires Inv(s) && KernelSpace(s.mem) && Legal(s, acts) && NoSeek(acts)
    ensures Grants(s, acts) <= 1
    decreases |acts|
  {
    if acts != [] {
      var t := Step(s, acts[0]);
      match acts[0] {
        case Request(user, must, cnt) =>
          RequestInv(s, user, must, cnt);
          if Get(s.mem, user, must, cnt).1.Pages? {
            GrantSticks(s.mem, user, must, cnt);
            StuckGrantsNone(t, acts[1..]);
          } else {
            OneGrant(t, acts[1..]);
          }
        case Release(a) =>
          ReleaseInv(s, a);
          FreeLive(s.mem, a);
          OneGrant(t, acts[1..]);
        case Seek(_) => assert false;
      }
    }
  }
}
