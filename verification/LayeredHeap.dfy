// threads/malloc.c over threads/palloc.c over lib/kernel/bitmap.c: the three layers run together.

module LayeredHeap {
  import opened Options
  import opened BitRuns
  import opened PagePools
  import opened HeapLayout
  import opened HeapModel
  import opened HeapOverPages
  import HeapRuns
  import P = PageRuns

  // The page allocator, the heap on its kernel pool, and the live blocks with the sizes asked for.
  datatype Layers = Layers(pages: P.System, heap: Heap, live: map<int, int>)

  // Every live group of pages is an arena: only the heap has pages.
  ghost predicate Serves(live: set<P.Alloc>, m: Memory, arenas: map<int, Arena>) {
    forall g | g in live :: !g.user && P.Addr(m, g) in arenas && g.cnt == Span(arenas[P.Addr(m, g)])
  }

  ghost predicate Joined(k: Layers) {
    && P.Inv(k.pages) && !k.pages.panicked && Inv(k.heap, k.live)
    && Backed(k.pages, k.heap.arenas) && Serves(k.pages.live, k.pages.mem, k.heap.arenas)
  }

  // ---------- steps ----------

  // The page allocator asked for N pages, from wherever its cursor stands.
  function Asked(s: P.System, n: int, cursor: int): (r: (P.System, Option<int>))
    requires P.Fit(s) && !s.panicked && 0 <= n && 0 <= cursor
  {
    var t := P.Step(s, P.Seek(cursor));
    var o := Get(t.mem, false, false, n).1;
    (P.Step(t, P.Request(false, false, n)), if o.Pages? then Some(o.addr) else None)
  }

  // What malloc() gets from it, if it asks.
  ghost function Answer(k: Layers, size: int, cursor: int): (r: (P.System, Option<int>))
    requires Joined(k) && 0 <= size < 0x1_0000_0000 && 0 <= cursor
    ensures r.1.Some? ==> r.1.value % 4096 == 0
  {
    PagesHold(size);
    if AsksPages(k.heap, size) then
      AskedAligned(k.pages, PagesAsked(size), cursor);
      Asked(k.pages, PagesAsked(size), cursor)
    else (k.pages, None)
  }

  lemma AskedAligned(s: P.System, n: int, cursor: int)
    requires P.Inv(s) && P.Fit(s) && !s.panicked && 0 <= n && 0 <= cursor
    ensures Asked(s, n, cursor).1.Some? ==> Asked(s, n, cursor).1.value % 4096 == 0
  {
    var t := P.Step(s, P.Seek(cursor));
    var o := Get(t.mem, false, false, n).1;
    if n > 0 && o.Pages? {
      GetGrants(t.mem, false, false, n);
      PageMultiple(t.mem.kernel.base, IndexIn(t.mem.kernel, o.addr));
    }
  }

  lemma PageMultiple(base: int, i: int)
    requires base % 4096 == 0
    ensures (base + 4096 * i) % 4096 == 0
  {}

  ghost function MallocOver(k: Layers, size: int, cursor: int): (r: (Layers, Option<int>))
    requires Joined(k) && 0 <= size < 0x1_0000_0000 && 0 <= cursor
  {
    InvReady(k.heap);
    var (pages, grant) := Answer(k, size, cursor);
    var (heap, b) := Malloc(k.heap, size, grant);
    (Layers(pages, heap, if b.Some? then k.live[b.value := size] else k.live), b)
  }

  // The group of pages that an arena is.
  function GroupOf(m: Memory, a: int, arena: Arena): (g: P.Alloc) {
    P.Alloc(false, IndexIn(m.kernel, a), Span(arena))
  }

  ghost function FreeOver(k: Layers, b: int): (r: Layers)
    requires Joined(k) && b in k.live
  {
    LiveCanPut(k.heap, k.live, b);
    var heap, a := Put(k.heap, b), PageOf(b);
    Layers(if a in heap.arenas then k.pages else Returned(k, a), heap, k.live - {b})
  }

  // The page allocator after an arena's pages have gone back.
  ghost function Returned(k: Layers, a: int): (s: P.System)
    requires Joined(k) && a in k.heap.arenas
  {
    GroupLive(k, a);
    P.Step(k.pages, P.Release(GroupOf(k.pages.mem, a, k.heap.arenas[a])))
  }

  lemma GroupLive(k: Layers, a: int)
    requires Joined(k) && a in k.heap.arenas
    ensures GroupOf(k.pages.mem, a, k.heap.arenas[a]) in k.pages.live
    ensures P.Addr(k.pages.mem, GroupOf(k.pages.mem, a, k.heap.arenas[a])) == a
  {
    assert Backs(k.pages.live, k.pages.mem, k.heap.arenas, a);
    var g :| g in k.pages.live && !g.user && P.Addr(k.pages.mem, g) == a && g.cnt == Span(k.heap.arenas[a]);
    assert g == GroupOf(k.pages.mem, a, k.heap.arenas[a]);
  }

  // ---------- pages and arenas stay matched ----------

  ghost predicate Matched(live: set<P.Alloc>, m: Memory, arenas: map<int, Arena>) {
    (forall a | a in arenas :: Backs(live, m, arenas, a)) && Serves(live, m, arenas)
  }

  predicate SameSpans(arenas: map<int, Arena>, arenas1: map<int, Arena>) {
    arenas1.Keys == arenas.Keys && forall a | a in arenas :: Span(arenas1[a]) == Span(arenas[a])
  }

  predicate SameBases(m: Memory, m1: Memory) { m1.kernel.base == m.kernel.base && m1.user.base == m.user.base }

  lemma MatchKept(live: set<P.Alloc>, m: Memory, m1: Memory, arenas: map<int, Arena>, arenas1: map<int, Arena>)
    requires Matched(live, m, arenas) && SameSpans(arenas, arenas1) && SameBases(m, m1)
    ensures Matched(live, m1, arenas1)
  {
    forall a | a in arenas1 ensures Backs(live, m1, arenas1, a) {
      assert Backs(live, m, arenas, a);
      var g :| g in live && !g.user && P.Addr(m, g) == a && g.cnt == Span(arenas[a]);
      assert P.Addr(m1, g) == a;
    }
    forall g | g in live ensures P.Addr(m1, g) == P.Addr(m, g) {}
  }

  lemma MatchAdded(live: set<P.Alloc>, m: Memory, m1: Memory, arenas: map<int, Arena>, a: int, x: Arena, g: P.Alloc)
    requires Matched(live, m, arenas) && SameBases(m, m1) && a !in arenas
    requires !g.user && P.Addr(m, g) == a && g.cnt == Span(x)
    ensures Matched(live + {g}, m1, arenas[a := x])
  {
    var arenas1, live1 := arenas[a := x], live + {g};
    forall y | y in arenas1 ensures Backs(live1, m1, arenas1, y) {
      if y == a {
        assert g in live1 && P.Addr(m1, g) == a;
      } else {
        assert Backs(live, m, arenas, y);
        var h :| h in live && !h.user && P.Addr(m, h) == y && h.cnt == Span(arenas[y]);
        assert h in live1 && P.Addr(m1, h) == y;
      }
    }
    forall h | h in live1 ensures P.Addr(m1, h) == P.Addr(m, h) {}
  }

  lemma MatchDropped(live: set<P.Alloc>, m: Memory, m1: Memory, arenas: map<int, Arena>, a: int, g: P.Alloc)
    requires Matched(live, m, arenas) && SameBases(m, m1) && g in live && P.Addr(m, g) == a
    requires forall h | h in live && P.Addr(m, h) == a :: h == g
    ensures Matched(live - {g}, m1, arenas - {a})
  {
    var arenas1, live1 := arenas - {a}, live - {g};
    forall y | y in arenas1 ensures Backs(live1, m1, arenas1, y) {
      assert Backs(live, m, arenas, y);
      var h :| h in live && !h.user && P.Addr(m, h) == y && h.cnt == Span(arenas[y]);
      assert h in live1 && P.Addr(m1, h) == y;
    }
    forall h | h in live1 ensures P.Addr(m1, h) == P.Addr(m, h) {}
  }

  // What malloc() does to the set of arenas.
  lemma ArenasAfter(h: Heap, live: map<int, int>, size: int, grant: Option<int>)
    requires Inv(h, live) && Ready(h) && 0 <= size < 0x1_0000_0000 && (grant.Some? ==> grant.value % 4096 == 0)
    requires AsksPages(h, size) && grant.Some? ==> PagesAsked(size) > 0
    ensures var h1 := Malloc(h, size, grant).0;
      if AsksPages(h, size) && grant.Some?
      then grant.value in h1.arenas && Span(h1.arenas[grant.value]) == PagesAsked(size)
           && h1.arenas == h.arenas[grant.value := h1.arenas[grant.value]]
      else SameSpans(h.arenas, h1.arenas)
  {
    var d := DescFor(size);
    if 0 < size && d < 7 {
      if h.free[d] == [] {
        if grant.Some? { NewArenaIs(h, grant.value, d); }
      } else {
        TakeIs(h, d);
      }
    }
  }

  // ---------- every step keeps the layers joined ----------

  // What a request does to the page allocator: nothing but the cursor, or one more live group.
  lemma AskedEffect(s: P.System, n: int, cursor: int)
    requires P.Inv(s) && P.Fit(s) && !s.panicked && 0 < n && 0 <= cursor
    ensures var (t, grant) := Asked(s, n, cursor);
      && P.Inv(t) && SameBases(s.mem, t.mem)
      && if grant == None then t.live == s.live
         else !t.panicked && exists g: P.Alloc ::
           !g.user && P.Addr(s.mem, g) == grant.value && g.cnt == n && t.live == s.live + {g}
  {
    var u := P.Step(s, P.Seek(cursor));
    P.RequestInv(u, false, false, n);
    if Get(u.mem, false, false, n).1.Pages? {
      GetGrants(u.mem, false, false, n);
      var g := P.Alloc(false, IndexIn(u.mem.kernel, Get(u.mem, false, false, n).1.addr), n);
      assert P.Addr(s.mem, g) == Get(u.mem, false, false, n).1.addr;
      assert P.Step(u, P.Request(false, false, n)).live == s.live + {g};
    }
  }

  lemma AskedFresh(s: P.System, arenas: map<int, Arena>, n: int, cursor: int)
    requires P.Inv(s) && P.Fit(s) && !s.panicked && 0 < n && 0 <= cursor && Backed(s, arenas)
    ensures Asked(s, n, cursor).1.Some? ==> Fresh(arenas, Asked(s, n, cursor).1.value, n)
  {
    var u := P.Step(s, P.Seek(cursor));
    forall a | a in arenas ensures Backs(u.live, u.mem, arenas, a) {
      assert Backs(s.live, s.mem, arenas, a);
      var g :| g in s.live && !g.user && P.Addr(s.mem, g) == a && g.cnt == Span(arenas[a]);
      assert P.Addr(u.mem, g) == a;
    }
    if Get(u.mem, false, false, n).1.Pages? { GrantFresh(u, arenas, false, false, n); }
  }

  lemma NothingAsked(s: P.System, cursor: int)
    requires P.Inv(s) && P.Fit(s) && !s.panicked && 0 <= cursor
    ensures var (t, grant) := Asked(s, 0, cursor);
      grant == None && t.live == s.live && !t.panicked && P.Inv(t) && SameBases(s.mem, t.mem)
  {
    P.RequestInv(P.Step(s, P.Seek(cursor)), false, false, 0);
  }

  // malloc() on the page allocator: a block never handed out before, and everything still fits together.
  lemma MallocJoined(k: Layers, size: int, cursor: int)
    requires Joined(k) && 0 <= size < 0x1_0000_0000 && 0 <= cursor
    ensures var (k1, b) := MallocOver(k, size, cursor);
      !k1.pages.panicked ==> Joined(k1) && (b.Some? ==> b.value !in k.live)
  {
    InvReady(k.heap);
    PagesHold(size);
    var (pages, grant) := Answer(k, size, cursor);
    var n := PagesAsked(size);
    assert Matched(k.pages.live, k.pages.mem, k.heap.arenas);
    if AsksPages(k.heap, size) && n > 0 {
      AskedEffect(k.pages, n, cursor);
      AskedFresh(k.pages, k.heap.arenas, n, cursor);
    } else if AsksPages(k.heap, size) {
      NothingAsked(k.pages, cursor);
    }
    MallocInv(k.heap, k.live, size, grant);
    ArenasAfter(k.heap, k.live, size, grant);
    var heap := Malloc(k.heap, size, grant).0;
    if AsksPages(k.heap, size) && grant.Some? {
      var g: P.Alloc :| !g.user && P.Addr(k.pages.mem, g) == grant.value && g.cnt == n
        && pages.live == k.pages.live + {g};
      FreshAbsent(k.heap.arenas, grant.value, n);
      MatchAdded(k.pages.live, k.pages.mem, pages.mem, k.heap.arenas, grant.value, heap.arenas[grant.value], g);
    } else {
      MatchKept(k.pages.live, k.pages.mem, pages.mem, k.heap.arenas, heap.arenas);
    }
  }

  // The page allocator refuses exactly when it has no such group of free pages, and stops the kernel exactly
  // when its cursor is past the end of the bitmap.
  lemma AskedOutcome(s: P.System, n: int, cursor: int)
    requires P.Fit(s) && !s.panicked && 0 < n && 0 <= cursor
    ensures var (t, grant) := Asked(s, n, cursor); var used := s.mem.kernel.used;
      && (t.panicked <==> cursor > |used|)
      && (!t.panicked ==> (grant == None <==> NoRun(used, 0, n, false)))
  {
    GetOutcome(P.Step(s, P.Seek(cursor)).mem, false, false, n);
  }

  // So malloc() gives null exactly for a size of 0, and when there is neither a block for it nor the pages.
  lemma MallocFails(k: Layers, size: int, cursor: int)
    requires Joined(k) && 0 <= size < 0x1_0000_0000 && 0 <= cursor && !MallocOver(k, size, cursor).0.pages.panicked
    ensures var used, n := k.pages.mem.kernel.used, (size + 12 + 4095) % 0x1_0000_0000 / 4096;
      MallocOver(k, size, cursor).1 == None <==>
        || size == 0
        || (size <= 1024 && NoneFree(k.heap, size) && NoRun(used, 0, 1, false))
        || (size > 1024 && (n == 0 || NoRun(used, 0, n, false)))
  {
    InvReady(k.heap);
    PagesHold(size);
    AsksExact(k.heap, size);
    var grant := Answer(k, size, cursor).1;
    MallocNull(k.heap, k.live, size, grant);
    if AsksPages(k.heap, size) && PagesAsked(size) > 0 { AskedOutcome(k.pages, PagesAsked(size), cursor); }
  }

  // What free() does to the set of arenas.
  lemma ArenasAfterPut(h: Heap, b: int)
    requires CanPut(h, b)
    ensures var a, h1 := PageOf(b), Put(h, b);
      if a in h1.arenas then SameSpans(h.arenas, h1.arenas) else h1.arenas == h.arenas - {a}
  {}

  lemma OneGroup(k: Layers, a: int, g: P.Alloc)
    requires Joined(k) && a in k.heap.arenas && g in k.pages.live && P.Addr(k.pages.mem, g) == a
    ensures g == GroupOf(k.pages.mem, a, k.heap.arenas[a])
  {
    assert !g.user && g.cnt == Span(k.heap.arenas[a]);
  }

  lemma FreeJoined(k: Layers, b: int)
    requires Joined(k) && b in k.live
    ensures Joined(FreeOver(k, b))
  {
    PutInv(k.heap, k.live, b);
    ArenasAfterPut(k.heap, b);
    var heap, a := Put(k.heap, b), PageOf(b);
    assert Matched(k.pages.live, k.pages.mem, k.heap.arenas);
    if a in heap.arenas {
      MatchKept(k.pages.live, k.pages.mem, k.pages.mem, k.heap.arenas, heap.arenas);
    } else {
      GroupLive(k, a);
      var g := GroupOf(k.pages.mem, a, k.heap.arenas[a]);
      P.ReleaseInv(k.pages, g);
      ReleasedLive(k.pages, g);
      forall h | h in k.pages.live && P.Addr(k.pages.mem, h) == a ensures h == g { OneGroup(k, a, h); }
      MatchDropped(k.pages.live, k.pages.mem, Returned(k, a).mem, k.heap.arenas, a, g);
    }
  }

  lemma ReleasedLive(s: P.System, g: P.Alloc)
    requires P.Inv(s) && P.Fit(s) && !s.panicked && g in s.live
    ensures var t := P.Step(s, P.Release(g)); t.live == s.live - {g} && SameBases(s.mem, t.mem)
  {
    P.DropHolds(s.live, PoolFor(s.mem, g.user).used, g);
    P.FreeLive(s.mem, g);
  }

  // realloc() of a block: a new block, then the old one freed.
  ghost function ReallocOver(k: Layers, b: int, size: int, cursor: int): (r: Layers)
    requires Joined(k) && b in k.live && 0 <= size < 0x1_0000_0000 && 0 <= cursor
  {
    if size == 0 then FreeOver(k, b)
    else
      MallocJoined(k, size, cursor);
      var (k1, c) := MallocOver(k, size, cursor);
      if c.Some? && !k1.pages.panicked then FreeOver(k1, b) else k1
  }

  lemma ReallocJoined(k: Layers, b: int, size: int, cursor: int)
    requires Joined(k) && b in k.live && 0 <= size < 0x1_0000_0000 && 0 <= cursor
    ensures var k1 := ReallocOver(k, b, size, cursor); var c := MallocOver(k, size, cursor).1;
      !k1.pages.panicked ==>
        && Joined(k1)
        && k1.live == if size == 0 then k.live - {b} else if c.Some? then k.live[c.value := size] - {b} else k.live
  {
    if size == 0 {
      FreeJoined(k, b);
    } else {
      MallocJoined(k, size, cursor);
      var (k1, c) := MallocOver(k, size, cursor);
      if c.Some? && !k1.pages.panicked { FreeJoined(k1, b); }
    }
  }

  // ---------- runs ----------

  datatype Action = Allocate(size: int, cursor: int) | Release(block: int) | Resize(block: int, size: int, cursor: int)

  ghost predicate Enabled(k: Layers, act: Action) {
    Joined(k) && match act
                 case Allocate(size, cursor) => 0 <= size < 0x1_0000_0000 && 0 <= cursor
                 case Release(b) => b in k.live
                 case Resize(b, size, cursor) => b in k.live && 0 <= size < 0x1_0000_0000 && 0 <= cursor
  }

  ghost function Next(k: Layers, act: Action): (r: Layers)
    requires Enabled(k, act)
  {
    match act
    case Allocate(size, cursor) => MallocOver(k, size, cursor).0
    case Release(b) => FreeOver(k, b)
    case Resize(b, size, cursor) => ReallocOver(k, b, size, cursor)
  }

  // A run that no failed assertion of the page allocator cuts short.
  ghost predicate Legal(k: Layers, acts: seq<Action>)
    decreases |acts|
  {
    acts == [] || (Enabled(k, acts[0]) && !Next(k, acts[0]).pages.panicked && Legal(Next(k, acts[0]), acts[1..]))
  }

  ghost function After(k: Layers, acts: seq<Action>): (r: Layers)
    requires Legal(k, acts)
    decreases |acts|
  {
    if acts == [] then k else After(Next(k, acts[0]), acts[1..])
  }

  lemma {:induction false} RunJoined(k: Layers, acts: seq<Action>)
    requires Joined(k) && Legal(k, acts)
    ensures Joined(After(k, acts))
    decreases |acts|
  {
    if acts != [] {
      match acts[0] {
        case Allocate(size, cursor) => MallocJoined(k, size, cursor);
        case Release(b) => FreeJoined(k, b);
        case Resize(b, size, cursor) => ReallocJoined(k, b, size, cursor);
      }
      RunJoined(Next(k, acts[0]), acts[1..]);
    }
  }

  // Nothing handed out at any level.
  lemma StartJoined(s: P.System)
    requires P.Booted(s)
    ensures Joined(Layers(s, HeapRuns.Start().heap, map[]))
  {
    HeapRuns.StartInv();
  }

  // On every run, once all blocks are freed the page allocator's bitmap is as it was at the start: all pages free.
  lemma AllReturned(s: P.System, acts: seq<Action>, p: int)
    requires P.Booted(s) && Legal(Layers(s, HeapRuns.Start().heap, map[]), acts)
    requires var k := After(Layers(s, HeapRuns.Start().heap, map[]), acts);
      k.live == map[] && 0 <= p < |k.pages.mem.kernel.used|
    ensures !After(Layers(s, HeapRuns.Start().heap, map[]), acts).pages.mem.kernel.used[p]
  {
    StartJoined(s);
    RunJoined(Layers(s, HeapRuns.Start().heap, map[]), acts);
    var k := After(Layers(s, HeapRuns.Start().heap, map[]), acts);
    NoPagesLeft(k);
    assert k.pages.mem.kernel.used[p] ==> P.Covered(k.pages.live, false, p);
  }

  lemma NoPagesLeft(k: Layers)
    requires Joined(k) && k.live == map[]
    ensures k.pages.live == {}
  {
    HeapRuns.NoBlocksNoArenas(k.heap);
    forall g ensures g !in k.pages.live { assert g in k.pages.live ==> P.Addr(k.pages.mem, g) in k.heap.arenas; }
  }
}
