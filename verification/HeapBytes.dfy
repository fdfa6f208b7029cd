// threads/malloc.c: the bytes of the heap, those that realloc() copies and those that the allocator
// writes for its own purposes.

module HeapBytes {
  import opened Options
  import opened HeapLayout
  import opened HeapModel
  import opened HeapRuns

  type Bytes = int -> int

  // ---------- what realloc() copies ----------

  // memcpy().
  function Copied(mem: Bytes, dst: int, src: int, n: int): (r: Bytes) {
    x => CopiedAt(mem, dst, src, n, x)
  }

  function CopiedAt(mem: Bytes, dst: int, src: int, n: int, x: int): (b: int) {
    if dst <= x < dst + n then mem(src + (x - dst)) else mem(x)
  }

  function Least(x: int, y: int): (n: int) { if x < y then x else y }

  // The block at D has its arena, and X is one of its bytes.
  predicate InBlock(arenas: map<int, Arena>, d: int, x: int) {
    PageOf(d) in arenas && PageOk(arenas, PageOf(d)) && d <= x < d + Capacity(arenas, d)
  }

  // As much as the new size and the old block have.
  function CopySize(arenas: map<int, Arena>, b: int, size: int): (n: int)
    requires PageOf(b) in arenas && PageOk(arenas, PageOf(b))
  {
    Least(size, Capacity(arenas, b))
  }

  // What malloc() leaves of the arenas there were, and where a new one is.
  lemma OldArena(h: Heap, size: int, grant: Option<int>, a: int)
    requires MayAsk(h, size, grant) && PagesOk(h.arenas)
    ensures a in h.arenas ==> SameKind(h.arenas, Malloc(h, size, grant).0.arenas, a)
    ensures a in Malloc(h, size, grant).0.arenas && a !in h.arenas ==> NewPages(h, size, grant, a)
  {
    if 0 < size && !(AsksPages(h, size) && (grant == None || PagesAsked(size) == 0)) {
      if AsksPages(h, size) {
        FreshAbsent(h.arenas, grant.value, PagesAsked(size));
        if DescFor(size) < 7 { OldAndCarved(h, DescFor(size), grant.value, a); }
      } else {
        OldAndTaken(h, DescFor(size), a);
      }
    }
  }

  lemma OldAndTaken(h: Heap, d: int, a: int)
    requires CanTake(h, d)
    ensures a in Take(h, d).arenas <==> a in h.arenas
    ensures a in h.arenas ==> SameKind(h.arenas, Take(h, d).arenas, a)
  {}

  lemma OldAndCarved(h: Heap, d: int, g: int, a: int)
    requires 0 <= d < 7 && |h.free| == 7 && h.free[d] == [] && g % 4096 == 0 && g !in h.arenas
    ensures CanTake(NewArena(h, g, d), d)
    ensures a in Take(NewArena(h, g, d), d).arenas <==> a in h.arenas || a == g
    ensures a in h.arenas ==> SameKind(h.arenas, Take(NewArena(h, g, d), d).arenas, a)
  {
    NewArenaIs(h, g, d);
    OldAndTaken(NewArena(h, g, d), d, a);
  }

  // malloc() puts a new arena at A.
  predicate NewPages(h: Heap, size: int, grant: Option<int>, a: int)
    requires |h.free| == 7
  {
    AsksPages(h, size) && PagesAsked(size) > 0 && grant == Some(a)
  }

  // Arena A is there before and after, with blocks of the same size.
  predicate SameKind(arenas: map<int, Arena>, arenas1: map<int, Arena>, a: int)
    requires a in arenas
  {
    && a in arenas1
    && match arenas[a]
       case Big(n) => arenas1[a] == Big(n)
       case Small(d, _) => arenas1[a].Small? && arenas1[a].desc == d
  }

  // A size that wraps around gets one page.
  lemma WrappedIsOnePage(h: Heap, live: map<int, int>, size: int, grant: Option<int>)
    requires Inv(h, live) && MayAsk(h, size, grant) && Wraps(size) && Malloc(h, size, grant).1.Some?
    ensures var (h1, c) := Malloc(h, size, grant);
      PageOf(c.value) in h1.arenas && h1.arenas[PageOf(c.value)] == Big(1) && Capacity(h1.arenas, c.value) == 4084
  {
    assert PagesFor(size) == 1 && DescFor(size) == 7;
    PageOffset(grant.value, 12);
  }

  lemma CapacityKept(h: Heap, live: map<int, int>, size: int, grant: Option<int>, b: int)
    requires Inv(h, live) && MayAsk(h, size, grant) && b in live
    ensures var arenas1 := Malloc(h, size, grant).0.arenas;
      && PageOf(b) in h.arenas && PageOk(h.arenas, PageOf(b)) && PageOf(b) in arenas1
      && (arenas1[PageOf(b)].Small? ==> 0 <= arenas1[PageOf(b)].desc < 7)
      && Capacity(arenas1, b) == Capacity(h.arenas, b)
  {
    LiveInside(h, live, b);
    OldArena(h, size, grant, PageOf(b));
  }

  // What realloc() copies fits in the block that it gets, exactly when the size does not wrap around
  // or the block it was given is no bigger than one page holds.
  lemma CopyFits(s: System, b: int, size: int, grant: Option<int>)
    requires Inv(s.heap, s.live) && b in s.live && MayAsk(s.heap, size, grant)
    requires Malloc(s.heap, size, grant).1.Some?
    ensures PageOf(b) in s.heap.arenas && PageOk(s.heap.arenas, PageOf(b))
    ensures var t := DoMalloc(s, size, grant); var c := Malloc(s.heap, size, grant).1.value;
      && Inv(t.heap, t.live) && b in t.live && c in t.live && b != c
      && PageOf(b) in t.heap.arenas && PageOk(t.heap.arenas, PageOf(b))
      && PageOf(c) in t.heap.arenas && PageOk(t.heap.arenas, PageOf(c))
      && (CopySize(t.heap.arenas, b, size) <= Capacity(t.heap.arenas, c)
          <==> !Wraps(size) || Capacity(s.heap.arenas, b) <= 4084)
  {
    ReallocBetween(s, b, size, grant);
    var t := DoMalloc(s, size, grant);
    var c := Malloc(s.heap, size, grant).1.value;
    LiveInside(t.heap, t.live, b);
    LiveInside(t.heap, t.live, c);
    CapacityKept(s.heap, s.live, size, grant, b);
    if Wraps(size) { WrappedIsOnePage(s.heap, s.live, size, grant); }
  }

  // An input for which it does not: 5000 bytes in two pages, resized to all of the address space.
  lemma CopyOverruns()
    ensures var s := DoMalloc(Start(), 5000, Some(0xC010_0000)); var b := 0xC010_000C;
      var t := DoMalloc(s, 0xFFFF_FFFF, Some(0xC020_0000)); var c := 0xC020_000C;
      && MayAsk(Start().heap, 5000, Some(0xC010_0000)) && Malloc(Start().heap, 5000, Some(0xC010_0000)).1 == Some(b)
      && MayAsk(s.heap, 0xFFFF_FFFF, Some(0xC020_0000)) && Malloc(s.heap, 0xFFFF_FFFF, Some(0xC020_0000)).1 == Some(c)
      && PageOf(b) in t.heap.arenas && PageOk(t.heap.arenas, PageOf(b)) && PageOf(c) in t.heap.arenas
      && t.heap.arenas[PageOf(c)] == Big(1)
      && CopySize(t.heap.arenas, b, 0xFFFF_FFFF) == 8180 && Capacity(t.heap.arenas, c) == 4084
  {
    var s := DoMalloc(Start(), 5000, Some(0xC010_0000));
    assert s.heap.arenas == map[0xC010_0000 := Big(2)];
    var t := DoMalloc(s, 0xFFFF_FFFF, Some(0xC020_0000));
    assert t.heap.arenas == map[0xC010_0000 := Big(2), 0xC020_0000 := Big(1)];
  }

  // The N bytes that MEM had at B are at C.
  ghost predicate Moved(mem: Bytes, mem1: Bytes, b: int, c: int, n: int) {
    forall i {:trigger MovedAt(mem, mem1, b, c, i)} | 0 <= i < n :: MovedAt(mem, mem1, b, c, i)
  }

  predicate MovedAt(mem: Bytes, mem1: Bytes, b: int, c: int, i: int) { mem1(c + i) == mem(b + i) }

  lemma CopyMoves(mem: Bytes, b: int, c: int, n: int)
    ensures Moved(mem, Copied(mem, c, b, n), b, c, n)
  {
    var mem1 := Copied(mem, c, b, n);
    forall i | 0 <= i < n ensures MovedAt(mem, mem1, b, c, i) {
      assert mem1(c + i) == CopiedAt(mem, c, b, n, c + i);
    }
  }

  // Blocks that are live together have no byte in common.
  lemma NoCommonByte(h: Heap, live: map<int, int>, b: int, c: int, x: int)
    requires Inv(h, live) && b in live && c in live && b != c && InBlock(h.arenas, b, x)
    ensures !InBlock(h.arenas, c, x)
  {
    if b < c { LiveApart(h, live, b, c); } else { LiveApart(h, live, c, b); }
  }

  // Under that condition the copy gives the new block the old one's bytes, as many as the new size and
  // the old block have, and changes no byte of another live block.
  lemma ReallocCopies(s: System, b: int, size: int, grant: Option<int>, mem: Bytes, d: int, x: int)
    requires Inv(s.heap, s.live) && b in s.live && MayAsk(s.heap, size, grant)
    requires Malloc(s.heap, size, grant).1.Some?
    requires PageOf(b) in s.heap.arenas && PageOk(s.heap.arenas, PageOf(b))
    requires !Wraps(size) || Capacity(s.heap.arenas, b) <= 4084
    ensures var t := DoMalloc(s, size, grant); var c := Malloc(s.heap, size, grant).1.value;
      && PageOf(b) in t.heap.arenas && PageOk(t.heap.arenas, PageOf(b))
      && var n := CopySize(t.heap.arenas, b, size);
         && Moved(mem, Copied(mem, c, b, n), b, c, n)
         && (d in t.live && d != c && InBlock(t.heap.arenas, d, x) ==> Copied(mem, c, b, n)(x) == mem(x))
  {
    CopyFits(s, b, size, grant);
    var t := DoMalloc(s, size, grant);
    var c := Malloc(s.heap, size, grant).1.value;
    CopyMoves(mem, b, c, CopySize(t.heap.arenas, b, size));
    if d in t.live && d != c && InBlock(t.heap.arenas, d, x) { NoCommonByte(t.heap, t.live, d, c, x); }
  }

  // ---------- what the allocator writes ----------

  // X is in an arena's header ...
  ghost predicate InHeader(arenas: map<int, Arena>, x: int) {
    exists a :: a in arenas && a <= x < a + 12
  }

  // ... or in the list element, two pointers, at the start of a block on a free list.
  ghost predicate InElem(free: seq<seq<int>>, x: int) {
    exists d, f :: 0 <= d < |free| && f in free[d] && f <= x < f + 8
  }

  predicate InPages(a: int, n: int, x: int) { a <= x < a + 4096 * n }

  // The bytes that malloc() may write: headers, elements of blocks on the lists, and the pages it gets,
  // in which it puts a header and cuts out blocks.
  ghost predicate MallocWrites(h: Heap, size: int, grant: Option<int>, x: int)
    requires |h.free| == 7
  {
    || InHeader(h.arenas, x) || InElem(h.free, x)
    || (grant.Some? && NewPages(h, size, grant, grant.value) && InPages(grant.value, PagesAsked(size), x))
  }

  // The bytes that free() may write: headers, elements, the block itself, which it fills with 0xcc and
  // puts on a list, and the pages that it gives back, which the page allocator fills too.
  ghost predicate FreeWrites(h: Heap, b: int, x: int)
    requires CanPut(h, b)
  {
    || InHeader(h.arenas, x) || InElem(h.free, x) || InBlock(h.arenas, b, x)
    || (PageOf(b) !in Put(h, b).arenas && InPages(PageOf(b), Span(h.arenas[PageOf(b)]), x))
  }

  lemma HeadersMiss(h: Heap, live: map<int, int>, d: int, x: int)
    requires Inv(h, live) && d in live && InBlock(h.arenas, d, x)
    ensures !InHeader(h.arenas, x)
  {
    forall a | a in h.arenas ensures !(a <= x < a + 12) { HeaderClear(h, live, d, a); }
  }

  // A block on a list has no byte in common with a live one.
  lemma ElemsMiss(h: Heap, live: map<int, int>, d: int, x: int)
    requires Inv(h, live) && d in live && InBlock(h.arenas, d, x)
    ensures !InElem(h.free, x)
  {
    forall e, f | 0 <= e < |h.free| && f in h.free[e] ensures !(f <= x < f + 8) {
      assert ListOk(h.arenas, h.free[e], e);
      ListedApart(h, live, d, e, f);
    }
  }

  lemma ListedApart(h: Heap, live: map<int, int>, d: int, e: int, f: int)
    requires Inv(h, live) && d in live && 0 <= e < 7 && f in h.free[e] && BlockIn(h.arenas, f, e)
    ensures PageOf(d) in h.arenas && PageOk(h.arenas, PageOf(d))
    ensures f + 8 <= d || d + Capacity(h.arenas, d) <= f
  {
    LiveInside(h, live, d);
    assert LiveOk(h.arenas, h.free, d);
    ListedInside(f, e);
    if PageOf(f) == PageOf(d) {
      ListedSamePage(h.arenas, h.free, d, e, f);
    } else {
      OtherPage(h.arenas, PageOf(d), PageOf(f));
    }
  }

  lemma OtherPage(arenas: map<int, Arena>, a: int, b: int)
    requires ArenasApart(arenas) && a in arenas && b in arenas && a != b
    ensures b + 4096 * Span(arenas[b]) <= a || a + 4096 * Span(arenas[a]) <= b
  {}

  lemma ListedSamePage(arenas: map<int, Arena>, free: seq<seq<int>>, d: int, e: int, f: int)
    requires |free| == 7 && 0 <= e < 7 && f in free[e] && BlockIn(arenas, f, e)
    requires LiveOk(arenas, free, d) && PageOf(f) == PageOf(d) && PageOk(arenas, PageOf(d))
    ensures f + 8 <= d || d + Capacity(arenas, d) <= f
  {
    assert arenas[PageOf(d)].desc == e && Capacity(arenas, d) == BlockSize(e);
    if f < d {
      SamePageApart(f, d, BlockSize(e), PerArena(e));
    } else {
      SamePageApart(d, f, BlockSize(e), PerArena(e));
    }
  }

  lemma ListedInside(f: int, e: int)
    requires 0 <= e < 7 && IsBlock(f, BlockSize(e), PerArena(e))
    ensures PageOf(f) <= f && f + 8 <= PageOf(f) + 4096
  {
    Geometry(e);
    BlockOfArena(f, BlockSize(e), PerArena(e));
    Bounds(BlockSize(e), PerArena(e), IndexOf(f, BlockSize(e)));
  }

  // malloc() writes into no live block.
  lemma MallocMisses(h: Heap, live: map<int, int>, size: int, grant: Option<int>, d: int, x: int)
    requires Inv(h, live) && MayAsk(h, size, grant) && d in live && InBlock(h.arenas, d, x)
    ensures !MallocWrites(h, size, grant, x)
  {
    HeadersMiss(h, live, d, x);
    ElemsMiss(h, live, d, x);
    LiveInside(h, live, d);
  }

  // free() writes into no live block but the one it frees.
  lemma FreeMisses(h: Heap, live: map<int, int>, b: int, d: int, x: int)
    requires Inv(h, live) && b in live && d in live && d != b && InBlock(h.arenas, d, x)
    ensures CanPut(h, b) && !FreeWrites(h, b, x)
  {
    PutInv(h, live, b);
    HeadersMiss(h, live, d, x);
    ElemsMiss(h, live, d, x);
    NoCommonByte(h, live, d, b, x);
    if PageOf(b) !in Put(h, b).arenas { PagesMiss(h, live, b, d, x); }
  }

  lemma PagesMiss(h: Heap, live: map<int, int>, b: int, d: int, x: int)
    requires Inv(h, live) && b in live && d in live && d != b && InBlock(h.arenas, d, x)
    requires CanPut(h, b) && Inv(Put(h, b), live - {b}) && PageOf(b) !in Put(h, b).arenas
    ensures !InPages(PageOf(b), Span(h.arenas[PageOf(b)]), x)
  {
    OtherArena(Put(h, b), live - {b}, d);
    LiveInside(h, live, b);
    ArenasMiss(h, live, PageOf(b), d, x);
  }

  lemma OtherArena(h: Heap, live: map<int, int>, d: int)
    requires Inv(h, live) && d in live
    ensures PageOf(d) in h.arenas
  {
    assert LiveOk(h.arenas, h.free, d);
  }

  // The pages of an arena hold no block of another.
  lemma ArenasMiss(h: Heap, live: map<int, int>, a: int, d: int, x: int)
    requires Inv(h, live) && d in live && InBlock(h.arenas, d, x) && a in h.arenas && a != PageOf(d)
    ensures !InPages(a, Span(h.arenas[a]), x)
  {
    LiveInside(h, live, d);
    if a < PageOf(d) {
      assert a + 4096 * Span(h.arenas[a]) <= PageOf(d);
    } else {
      assert PageOf(d) + 4096 * Span(h.arenas[PageOf(d)]) <= a;
    }
  }

  // ---------- every run ----------

  // The heap with its memory, and what the owners of blocks have put there.
  datatype Store = Store(sys: System, mem: Bytes, own: Bytes)

  // An action of the allocator, or a byte that the owner of a block writes.
  datatype Event = Plain(act: Action) | Put8(block: int, x: int, v: int)

  // A realloc() is to fit.
  ghost predicate MayHappen(s: System, e: Event) {
    Inv(s.heap, s.live)
    && match e
       case Plain(Resize(b, size, grant)) =>
         && Enabled(s, e.act) && PageOk(s.heap.arenas, PageOf(b))
         && (!Wraps(size) || Capacity(s.heap.arenas, b) <= 4084)
       case Plain(act) => Enabled(s, act)
       case Put8(b, x, _) => b in s.live && InBlock(s.heap.arenas, b, x)
  }

  ghost predicate AfterMalloc(h: Heap, size: int, grant: Option<int>, mem: Bytes, mem1: Bytes)
    requires |h.free| == 7
  {
    forall x {:trigger mem1(x)} :: !MallocWrites(h, size, grant, x) ==> mem1(x) == mem(x)
  }

  ghost predicate AfterFree(h: Heap, b: int, mem: Bytes, mem1: Bytes)
    requires CanPut(h, b)
  {
    forall x {:trigger mem1(x)} :: !FreeWrites(h, b, x) ==> mem1(x) == mem(x)
  }

  // Outside block C, OWN1 is OWN.
  ghost predicate OwnedBut(arenas: map<int, Arena>, c: int, own: Bytes, own1: Bytes) {
    forall x {:trigger own1(x)} :: !InBlock(arenas, c, x) ==> own1(x) == own(x)
  }

  // In block C, OWN is MEM.
  ghost predicate SameIn(arenas: map<int, Arena>, c: int, own: Bytes, mem: Bytes) {
    forall x {:trigger own(x)} | InBlock(arenas, c, x) :: own(x) == mem(x)
  }

  ghost predicate Same(own: Bytes, own1: Bytes) {
    forall x {:trigger own1(x)} :: own1(x) == own(x)
  }

  // A new block belongs to its owner as malloc() leaves it.
  ghost predicate Allocates(s: System, size: int, grant: Option<int>, d: Store, d1: Store)
    requires MayAsk(s.heap, size, grant)
  {
    var c := Malloc(s.heap, size, grant).1;
    && AfterMalloc(s.heap, size, grant, d.mem, d1.mem)
    && if c == None then Same(d.own, d1.own)
       else OwnedBut(d1.sys.heap.arenas, c.value, d.own, d1.own) && SameIn(d1.sys.heap.arenas, c.value, d1.own, d1.mem)
  }

  // realloc(): malloc(), the copy, free(); MEM is the memory after the malloc().
  ghost predicate Resizes(s: System, b: int, size: int, grant: Option<int>, mem: Bytes, d: Store, d1: Store)
    requires Inv(s.heap, s.live) && b in s.live && MayAsk(s.heap, size, grant)
    requires Malloc(s.heap, size, grant).1.Some?
  {
    var t := DoMalloc(s, size, grant);
    var c := Malloc(s.heap, size, grant).1.value;
    CopyFits(s, b, size, grant);
    LiveCanPut(t.heap, t.live, b);
    var n := CopySize(t.heap.arenas, b, size);
    && AfterMalloc(s.heap, size, grant, d.mem, mem) && AfterFree(t.heap, b, Copied(mem, c, b, n), d1.mem)
    && OwnedBut(t.heap.arenas, c, d.own, d1.own) && Moved(d.own, d1.own, b, c, n)
    && forall x {:trigger d1.own(x)} | InBlock(t.heap.arenas, c, x) && c + n <= x :: d1.own(x) == d1.mem(x)
  }

  ghost predicate Moves(d: Store, e: Event, d1: Store)
    requires MayHappen(d.sys, e)
  {
    match e
    case Plain(Allocate(size, grant)) => d1.sys == Step(d.sys, e.act) && Allocates(d.sys, size, grant, d, d1)
    case Plain(Release(b)) =>
      d1.sys == Step(d.sys, e.act) && AfterFree(d.sys.heap, b, d.mem, d1.mem) && Same(d.own, d1.own)
    case Plain(Resize(b, size, grant)) =>
      && d1.sys == Step(d.sys, e.act)
      && if size == 0 then AfterFree(d.sys.heap, b, d.mem, d1.mem) && Same(d.own, d1.own)
         else if Malloc(d.sys.heap, size, grant).1 == None then Allocates(d.sys, size, grant, d, d1)
         else exists mem :: Resizes(d.sys, b, size, grant, mem, d, d1)
    case Put8(b, x, v) =>
      && d1.sys == d.sys && d1.mem(x) == v && d1.own(x) == v
      && (forall y {:trigger d1.mem(y)} | y != x :: d1.mem(y) == d.mem(y))
      && (forall y {:trigger d1.own(y)} | y != x :: d1.own(y) == d.own(y))
  }

  // Every live block holds what its owner put there.
  ghost predicate Faithful(d: Store) {
    Inv(d.sys.heap, d.sys.live) && forall b | b in d.sys.live :: SameIn(d.sys.heap.arenas, b, d.own, d.mem)
  }

  // ---------- one byte at a time ----------

  // A block that was live before malloc().
  lemma MallocKeeps(s: System, size: int, grant: Option<int>, mem: Bytes, mem1: Bytes, b: int, x: int)
    requires Inv(s.heap, s.live) && MayAsk(s.heap, size, grant) && AfterMalloc(s.heap, size, grant, mem, mem1)
      && b in s.live
    requires InBlock(DoMalloc(s, size, grant).heap.arenas, b, x)
    ensures InBlock(s.heap.arenas, b, x) && mem1(x) == mem(x)
  {
    CapacityKept(s.heap, s.live, size, grant, b);
    MallocMisses(s.heap, s.live, size, grant, b, x);
  }

  // A block that stays live after free().
  lemma FreeKeeps(h: Heap, live: map<int, int>, b: int, mem: Bytes, mem1: Bytes, d: int, x: int)
    requires Inv(h, live) && b in live && d in live && d != b && CanPut(h, b) && AfterFree(h, b, mem, mem1)
    requires InBlock(Put(h, b).arenas, d, x)
    ensures InBlock(h.arenas, d, x) && mem1(x) == mem(x)
  {
    PutKind(h, live, b, d);
    FreeMisses(h, live, b, d, x);
  }

  lemma PutKind(h: Heap, live: map<int, int>, b: int, d: int)
    requires Inv(h, live) && b in live && d in live && d != b && CanPut(h, b)
    ensures var arenas1 := Put(h, b).arenas;
      && PageOf(d) in h.arenas && PageOk(h.arenas, PageOf(d)) && PageOf(d) in arenas1
      && SameKind(h.arenas, arenas1, PageOf(d))
  {
    LiveInside(h, live, d);
    PutInv(h, live, b);
    assert LiveOk(Put(h, b).arenas, Put(h, b).free, d);
  }

  // ---------- every event ----------

  lemma AllocateFaithful(d: Store, size: int, grant: Option<int>, d1: Store)
    requires Faithful(d) && MayAsk(d.sys.heap, size, grant)
    requires d1.sys == DoMalloc(d.sys, size, grant) && Allocates(d.sys, size, grant, d, d1)
    ensures Faithful(d1)
  {
    MallocInv(d.sys.heap, d.sys.live, size, grant);
    var c := Malloc(d.sys.heap, size, grant).1;
    forall b | b in d1.sys.live ensures SameIn(d1.sys.heap.arenas, b, d1.own, d1.mem) {
      if b in d.sys.live { OldBlockKept(d, size, grant, d1, b); }
    }
  }

  lemma OldBlockKept(d: Store, size: int, grant: Option<int>, d1: Store, b: int)
    requires Faithful(d) && MayAsk(d.sys.heap, size, grant) && b in d.sys.live
    requires d1.sys == DoMalloc(d.sys, size, grant) && Allocates(d.sys, size, grant, d, d1)
    requires Inv(d1.sys.heap, d1.sys.live)
    ensures SameIn(d1.sys.heap.arenas, b, d1.own, d1.mem)
  {
    var c := Malloc(d.sys.heap, size, grant).1;
    MallocInv(d.sys.heap, d.sys.live, size, grant);
    forall x | InBlock(d1.sys.heap.arenas, b, x) ensures d1.own(x) == d1.mem(x) {
      MallocKeeps(d.sys, size, grant, d.mem, d1.mem, b, x);
      assert SameIn(d.sys.heap.arenas, b, d.own, d.mem);
      if c.Some? { NoCommonByte(d1.sys.heap, d1.sys.live, b, c.value, x); }
    }
  }

  lemma ReleaseFaithful(d: Store, b: int, d1: Store)
    requires Faithful(d) && b in d.sys.live && CanPut(d.sys.heap, b)
    requires d1.sys == DoFree(d.sys, b) && AfterFree(d.sys.heap, b, d.mem, d1.mem) && Same(d.own, d1.own)
    ensures Faithful(d1)
  {
    PutInv(d.sys.heap, d.sys.live, b);
    forall c | c in d1.sys.live ensures SameIn(d1.sys.heap.arenas, c, d1.own, d1.mem) {
      forall x | InBlock(d1.sys.heap.arenas, c, x) ensures d1.own(x) == d1.mem(x) {
        FreeKeeps(d.sys.heap, d.sys.live, b, d.mem, d1.mem, c, x);
        assert SameIn(d.sys.heap.arenas, c, d.own, d.mem);
      }
    }
  }

  lemma ResizeFaithful(d: Store, b: int, size: int, grant: Option<int>, mem: Bytes, d1: Store)
    requires Faithful(d) && b in d.sys.live && MayAsk(d.sys.heap, size, grant)
    requires Malloc(d.sys.heap, size, grant).1.Some? && Resizes(d.sys, b, size, grant, mem, d, d1)
    requires PageOf(b) in d.sys.heap.arenas && PageOk(d.sys.heap.arenas, PageOf(b))
    requires !Wraps(size) || Capacity(d.sys.heap.arenas, b) <= 4084
    requires CanPut(DoMalloc(d.sys, size, grant).heap, b)
    requires d1.sys == DoFree(DoMalloc(d.sys, size, grant), b)
    ensures Faithful(d1)
  {
    CopyFits(d.sys, b, size, grant);
    var t := DoMalloc(d.sys, size, grant);
    PutInv(t.heap, t.live, b);
    forall e | e in d1.sys.live ensures SameIn(d1.sys.heap.arenas, e, d1.own, d1.mem) {
      forall x | InBlock(d1.sys.heap.arenas, e, x) ensures d1.own(x) == d1.mem(x) {
        ResizeByte(d, b, size, grant, mem, d1, e, x);
      }
    }
  }

  lemma ResizeByte(d: Store, b: int, size: int, grant: Option<int>, mem: Bytes, d1: Store, e: int, x: int)
    requires Faithful(d) && b in d.sys.live && MayAsk(d.sys.heap, size, grant)
    requires Malloc(d.sys.heap, size, grant).1.Some? && Resizes(d.sys, b, size, grant, mem, d, d1)
    requires PageOf(b) in d.sys.heap.arenas && PageOk(d.sys.heap.arenas, PageOf(b))
    requires !Wraps(size) || Capacity(d.sys.heap.arenas, b) <= 4084
    requires CanPut(DoMalloc(d.sys, size, grant).heap, b)
    requires d1.sys == DoFree(DoMalloc(d.sys, size, grant), b) && e in d1.sys.live
    requires InBlock(d1.sys.heap.arenas, e, x)
    ensures d1.own(x) == d1.mem(x)
  {
    CopyFits(d.sys, b, size, grant);
    var t := DoMalloc(d.sys, size, grant);
    var c := Malloc(d.sys.heap, size, grant).1.value;
    var n := CopySize(t.heap.arenas, b, size);
    FreeKeeps(t.heap, t.live, b, Copied(mem, c, b, n), d1.mem, e, x);
    CopiedOther(mem, b, c, n, x);
    if e == c {
      if x < c + n { NewBlockByte(d, size, grant, mem, d1.own, b, c, n, x); }
    } else {
      NoCommonByte(t.heap, t.live, e, c, x);
      OtherBlockByte(d, size, grant, mem, d1.own, b, c, n, e, x);
    }
  }

  lemma NewBlockByte(d: Store, size: int, grant: Option<int>, mem: Bytes, own1: Bytes, b: int, c: int, n: int, x: int)
    requires Faithful(d) && b in d.sys.live && MayAsk(d.sys.heap, size, grant)
    requires AfterMalloc(d.sys.heap, size, grant, d.mem, mem) && Moved(d.own, own1, b, c, n) && c <= x < c + n
    requires InBlock(DoMalloc(d.sys, size, grant).heap.arenas, b, b + (x - c))
    ensures own1(x) == CopiedAt(mem, c, b, n, x)
  {
    var y := b + (x - c);
    OwnedByte(d, size, grant, mem, b, y);
    CopiedByte(d.own, own1, mem, b, c, n, x, y);
  }

  lemma OtherBlockByte(d: Store, size: int, grant: Option<int>, mem: Bytes, own1: Bytes, b: int, c: int, n: int,
                       e: int, x: int)
    requires Faithful(d) && e in d.sys.live && MayAsk(d.sys.heap, size, grant)
    requires AfterMalloc(d.sys.heap, size, grant, d.mem, mem)
    requires OwnedBut(DoMalloc(d.sys, size, grant).heap.arenas, c, d.own, own1) && !(c <= x < c + n)
    requires var arenas := DoMalloc(d.sys, size, grant).heap.arenas; InBlock(arenas, e, x) && !InBlock(arenas, c, x)
    ensures own1(x) == CopiedAt(mem, c, b, n, x)
  {
    OwnedByte(d, size, grant, mem, e, x);
  }

  // A byte of a live block after malloc() is what its owner had there.
  lemma OwnedByte(d: Store, size: int, grant: Option<int>, mem: Bytes, b: int, x: int)
    requires Faithful(d) && b in d.sys.live && MayAsk(d.sys.heap, size, grant)
    requires AfterMalloc(d.sys.heap, size, grant, d.mem, mem)
    requires InBlock(DoMalloc(d.sys, size, grant).heap.arenas, b, x)
    ensures mem(x) == d.own(x)
  {
    MallocKeeps(d.sys, size, grant, d.mem, mem, b, x);
    assert SameIn(d.sys.heap.arenas, b, d.own, d.mem);
  }

  lemma CopiedByte(own: Bytes, own1: Bytes, mem: Bytes, b: int, c: int, n: int, x: int, y: int)
    requires Moved(own, own1, b, c, n) && c <= x < c + n && y == b + (x - c) && mem(y) == own(y)
    ensures own1(x) == CopiedAt(mem, c, b, n, x)
  {
    assert MovedAt(own, own1, b, c, x - c);
    assert c + (x - c) == x;
  }

  lemma CopiedOther(mem: Bytes, b: int, c: int, n: int, x: int)
    ensures Copied(mem, c, b, n)(x) == CopiedAt(mem, c, b, n, x)
  {}

  lemma FaithfulStep(d: Store, e: Event, d1: Store)
    requires Faithful(d) && MayHappen(d.sys, e) && Moves(d, e, d1)
    ensures Faithful(d1)
  {
    match e
    case Plain(Allocate(size, grant)) => AllocateFaithful(d, size, grant, d1);
    case Plain(Release(b)) => ReleaseFaithful(d, b, d1);
    case Plain(Resize(b, size, grant)) => ReallocFaithful(d, b, size, grant, d1);
    case Put8(b, x, v) => StoreFaithful(d, b, x, v, d1);
  }

  lemma ReallocFaithful(d: Store, b: int, size: int, grant: Option<int>, d1: Store)
    requires Faithful(d) && MayHappen(d.sys, Plain(Resize(b, size, grant)))
    requires Moves(d, Plain(Resize(b, size, grant)), d1)
    ensures Faithful(d1)
  {
    if size == 0 {
      ReleaseFaithful(d, b, d1);
    } else if Malloc(d.sys.heap, size, grant).1 == None {
      AllocateFaithful(d, size, grant, d1);
    } else {
      var mem :| Resizes(d.sys, b, size, grant, mem, d, d1);
      ReallocBetween(d.sys, b, size, grant);
      LiveCanPut(DoMalloc(d.sys, size, grant).heap, DoMalloc(d.sys, size, grant).live, b);
      ResizeFaithful(d, b, size, grant, mem, d1);
    }
  }

  lemma StoreFaithful(d: Store, b: int, x: int, v: int, d1: Store)
    requires Faithful(d) && MayHappen(d.sys, Put8(b, x, v)) && Moves(d, Put8(b, x, v), d1)
    ensures Faithful(d1)
  {
    forall c | c in d1.sys.live ensures SameIn(d1.sys.heap.arenas, c, d1.own, d1.mem) {
      assert SameIn(d.sys.heap.arenas, c, d.own, d.mem);
      forall y | InBlock(d1.sys.heap.arenas, c, y) ensures d1.own(y) == d1.mem(y) {
        assert y != x ==> d.own(y) == d.mem(y);
      }
    }
  }

  ghost predicate IsRun(ds: seq<Store>, es: seq<Event>) {
    && |ds| == |es| + 1
    && forall i | 0 <= i < |es| :: Goes(ds[i], es[i], ds[i + 1])
  }

  ghost predicate Goes(d: Store, e: Event, d1: Store) { MayHappen(d.sys, e) && Moves(d, e, d1) }

  lemma {:induction false} FaithfulRun(ds: seq<Store>, es: seq<Event>)
    requires IsRun(ds, es) && Faithful(ds[0])
    ensures Faithful(ds[|es|])
    decreases |es|
  {
    if es != [] {
      var n := |es| - 1;
      assert IsRun(ds[..n + 1], es[..n]);
      FaithfulRun(ds[..n + 1], es[..n]);
      assert ds[..n + 1][n] == ds[n];
      FaithfulStep(ds[n], es[n], ds[n + 1]);
    }
  }

  // What block C's owner has once C is theirs: FIRST in its first N bytes, then what is in memory.
  function Given(own: Bytes, arenas: map<int, Arena>, c: int, n: int, first: Bytes, mem: Bytes): (r: Bytes) {
    x => GivenAt(own, arenas, c, n, first, mem, x)
  }

  function GivenAt(own: Bytes, arenas: map<int, Arena>, c: int, n: int, first: Bytes, mem: Bytes, x: int): (v: int) {
    if !InBlock(arenas, c, x) then own(x) else if x < c + n then first(x - c) else mem(x)
  }

  lemma AllocateOn(d: Store, size: int, grant: Option<int>)
    requires Inv(d.sys.heap, d.sys.live) && MayAsk(d.sys.heap, size, grant)
    ensures exists d1: Store :: d1.sys == DoMalloc(d.sys, size, grant) && Allocates(d.sys, size, grant, d, d1)
  {
    var t, c := DoMalloc(d.sys, size, grant), Malloc(d.sys.heap, size, grant).1;
    var own := if c == None then d.own else Given(d.own, t.heap.arenas, c.value, 0, d.own, d.mem);
    assert Allocates(d.sys, size, grant, d, Store(t, d.mem, own));
  }

  lemma ResizeOn(d: Store, b: int, size: int, grant: Option<int>)
    requires MayHappen(d.sys, Plain(Resize(b, size, grant))) && size != 0 && Malloc(d.sys.heap, size, grant).1.Some?
    ensures exists d1: Store ::
      d1.sys == Step(d.sys, Resize(b, size, grant)) && Resizes(d.sys, b, size, grant, d.mem, d, d1)
  {
    var t, c := DoMalloc(d.sys, size, grant), Malloc(d.sys.heap, size, grant).1.value;
    CopyFits(d.sys, b, size, grant);
    LiveCanPut(t.heap, t.live, b);
    var n := CopySize(t.heap.arenas, b, size);
    var first := i => d.own(b + i);
    var mem := Copied(d.mem, c, b, n);
    var own := Given(d.own, t.heap.arenas, c, n, first, mem);
    GivenMoves(d.own, t.heap.arenas, c, n, b, mem);
    assert Resizes(d.sys, b, size, grant, d.mem, d, Store(Step(d.sys, Resize(b, size, grant)), mem, own));
  }

  lemma GivenMoves(own: Bytes, arenas: map<int, Arena>, c: int, n: int, b: int, mem: Bytes)
    requires PageOf(c) in arenas && PageOk(arenas, PageOf(c)) && n <= Capacity(arenas, c)
    ensures Moved(own, Given(own, arenas, c, n, i => own(b + i), mem), b, c, n)
  {
    var own1 := Given(own, arenas, c, n, i => own(b + i), mem);
    forall i | 0 <= i < n ensures MovedAt(own, own1, b, c, i) {
      assert own1(c + i) == GivenAt(own, arenas, c, n, i => own(b + i), mem, c + i);
    }
  }

  lemma PutOn(d: Store, b: int, x: int, v: int)
    requires MayHappen(d.sys, Put8(b, x, v))
    ensures exists d1 :: Moves(d, Put8(b, x, v), d1)
  {
    var mem, own := y => if y == x then v else d.mem(y), y => if y == x then v else d.own(y);
    assert Moves(d, Put8(b, x, v), Store(d.sys, mem, own));
  }

  // Whatever may happen has an outcome.
  lemma MovesOn(d: Store, e: Event)
    requires MayHappen(d.sys, e)
    ensures exists d1 :: Moves(d, e, d1)
  {
    match e
    case Plain(Allocate(size, grant)) =>
      AllocateOn(d, size, grant);
      var d1: Store :| d1.sys == DoMalloc(d.sys, size, grant) && Allocates(d.sys, size, grant, d, d1);
      assert Moves(d, e, d1);
    case Plain(Release(b)) => assert Moves(d, e, Store(Step(d.sys, e.act), d.mem, d.own));
    case Plain(Resize(b, size, grant)) =>
      if size == 0 {
        assert Moves(d, e, Store(Step(d.sys, e.act), d.mem, d.own));
      } else if Malloc(d.sys.heap, size, grant).1 == None {
        assert Moves(d, e, Store(Step(d.sys, e.act), d.mem, d.own));
      } else {
        ResizeOn(d, b, size, grant);
        var d1: Store :| d1.sys == Step(d.sys, e.act) && Resizes(d.sys, b, size, grant, d.mem, d, d1);
        assert Moves(d, e, d1);
      }
    case Put8(b, x, v) => PutOn(d, b, x, v);
  }

  // A run goes on with anything that may happen.
  lemma GoesOn(ds: seq<Store>, es: seq<Event>, e: Event)
    requires IsRun(ds, es) && MayHappen(ds[|es|].sys, e)
    ensures exists d :: IsRun(ds + [d], es + [e])
  {
    MovesOn(ds[|es|], e);
    var d :| Moves(ds[|es|], e, d);
    Extended(ds, es, e, d);
  }

  lemma Extended(ds: seq<Store>, es: seq<Event>, e: Event, d: Store)
    requires IsRun(ds, es) && Goes(ds[|es|], e, d)
    ensures IsRun(ds + [d], es + [e])
  {
    var ds1, es1 := ds + [d], es + [e];
    forall i | 0 <= i < |es1| ensures Goes(ds1[i], es1[i], ds1[i + 1]) {
      if i < |es| { assert Goes(ds[i], es[i], ds[i + 1]); }
    }
  }

  // After any run from an empty heap, a live block holds what its owner put there, and what realloc()
  // brought along: nothing that malloc(), free() or another owner writes ever reaches it.
  lemma BytesOwned(ds: seq<Store>, es: seq<Event>, b: int, x: int)
    requires IsRun(ds, es) && ds[0].sys == Start()
    requires b in ds[|es|].sys.live && InBlock(ds[|es|].sys.heap.arenas, b, x)
    ensures ds[|es|].mem(x) == ds[|es|].own(x)
  {
    StartInv();
    FaithfulRun(ds, es);
    assert SameIn(ds[|es|].sys.heap.arenas, b, ds[|es|].own, ds[|es|].mem);
  }
}
