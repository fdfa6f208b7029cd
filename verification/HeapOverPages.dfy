// threads/malloc.c over threads/palloc.c: arenas are pages that the page allocator granted.

module HeapOverPages {
  import opened BitRuns
  import opened PagePools
  import opened HeapModel
  import P = PageRuns

  // Every arena is a live group of pages of the kernel pool.
  ghost predicate Backs(live: set<P.Alloc>, m: Memory, arenas: map<int, Arena>, a: int)
    requires a in arenas
  {
    exists g :: g in live && !g.user && P.Addr(m, g) == a && g.cnt == Span(arenas[a])
  }

  ghost predicate Backed(s: P.System, arenas: map<int, Arena>) {
    forall a | a in arenas :: Backs(s.live, s.mem, arenas, a)
  }

  // What the page allocator grants overlaps no arena, as malloc() relies on.
  lemma GrantFresh(s: P.System, arenas: map<int, Arena>, user: bool, must: bool, cnt: int)
    requires P.Inv(s) && !s.panicked && Backed(s, arenas) && 0 < cnt && Get(s.mem, user, must, cnt).1.Pages?
    ensures Fresh(arenas, Get(s.mem, user, must, cnt).1.addr, cnt)
  {
    var p := PoolFor(s.mem, user);
    var addr := Get(s.mem, user, must, cnt).1.addr;
    GetGrants(s.mem, user, must, cnt);
    var g := P.Alloc(user, IndexIn(p, addr), cnt);
    P.TakeHolds(s.live, p.used, g);
    forall b | b in arenas ensures addr + 4096 * cnt <= b || b + 4096 * Span(arenas[b]) <= addr {
      ArenaClear(s, arenas, g, b);
    }
    assert addr == P.Addr(s.mem, g) && addr % 4096 == 0;
  }

  lemma ArenaClear(s: P.System, arenas: map<int, Arena>, g: P.Alloc, b: int)
    requires P.Inv(s) && Backed(s, arenas) && b in arenas && P.AllApart(s.live + {g}) && g !in s.live
    requires 0 <= g.idx && g.idx + g.cnt <= |PoolFor(s.mem, g.user).used|
    ensures P.Addr(s.mem, g) + 4096 * g.cnt <= b || b + 4096 * Span(arenas[b]) <= P.Addr(s.mem, g)
  {
    assert Backs(s.live, s.mem, arenas, b);
    var k :| k in s.live && !k.user && P.Addr(s.mem, k) == b && k.cnt == Span(arenas[b]);
    assert P.Apart(g, k) && RunAt(s.mem.kernel.used, k.idx, k.cnt, true);
    AddrApart(s.mem, g, k);
  }

  lemma AddrApart(m: Memory, g: P.Alloc, k: P.Alloc)
    requires MemoryOk(m) && P.Apart(g, k)
    requires 0 <= g.idx && g.idx + g.cnt <= |PoolFor(m, g.user).used|
    requires 0 <= k.idx && k.idx + k.cnt <= |PoolFor(m, k.user).used|
    ensures P.AddressesApart(m, g, k)
  {}
}
