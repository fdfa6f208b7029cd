// threads/malloc.c: runs of malloc, free and realloc.

module HeapRuns {
  import opened Options
  import opened HeapLayout
  import opened HeapModel

  // live maps each handed-out block to the size asked for.
  datatype System = System(heap: Heap, live: map<int, int>)

  datatype Action =
    | Allocate(size: int, grant: Option<int>)
    | Release(block: int)
    | Resize(block: int, size: int, grant: Option<int>)

  // A size_t, and an answer of the page allocator that overlaps no arena.
  ghost predicate MayAsk(h: Heap, size: int, grant: Option<int>) {
    && Ready(h) && 0 <= size < 0x1_0000_0000
    && (grant.Some? ==> grant.value % 4096 == 0)
    && (AsksPages(h, size) && PagesAsked(size) > 0 && grant.Some? ==> Fresh(h.arenas, grant.value, PagesAsked(size)))
  }

  ghost predicate Enabled(s: System, act: Action) {
    match act
    case Allocate(size, grant) => MayAsk(s.heap, size, grant)
    case Release(b) => b in s.live && CanPut(s.heap, b)
    case Resize(b, size, grant) => b in s.live && CanPut(s.heap, b) && MayAsk(s.heap, size, grant)
  }

  function DoMalloc(s: System, size: int, grant: Option<int>): (r: System)
    requires Ready(s.heap) && (grant.Some? ==> grant.value % 4096 == 0)
  {
    var (h, b) := Malloc(s.heap, size, grant);
    System(h, if b.Some? then s.live[b.value := size] else s.live)
  }

  function DoFree(s: System, b: int): (r: System)
    requires CanPut(s.heap, b)
  {
    System(Put(s.heap, b), s.live - {b})
  }

  // realloc() of a block: a new block, then the old one freed.
  ghost function DoRealloc(s: System, b: int, size: int, grant: Option<int>): (r: System)
    requires MayAsk(s.heap, size, grant) && CanPut(s.heap, b)
  {
    if size == 0 then DoFree(s, b)
    else
      var t := DoMalloc(s, size, grant);
      if Malloc(s.heap, size, grant).1.Some? && CanPut(t.heap, b) then DoFree(t, b) else t
  }

  ghost function Step(s: System, act: Action): (r: System)
    requires Enabled(s, act)
  {
    match act
    case Allocate(size, grant) => DoMalloc(s, size, grant)
    case Release(b) => DoFree(s, b)
    case Resize(b, size, grant) => DoRealloc(s, b, size, grant)
  }

  ghost predicate Legal(s: System, acts: seq<Action>)
    decreases |acts|
  {
    acts == [] || (Enabled(s, acts[0]) && Legal(Step(s, acts[0]), acts[1..]))
  }

  ghost function After(s: System, acts: seq<Action>): (r: System)
    requires Legal(s, acts)
    decreases |acts|
  {
    if acts == [] then s else After(Step(s, acts[0]), acts[1..])
  }

  function Start(): (s: System) { System(Heap(map[], seq(7, _ => [])), map[]) }

  lemma StartInv()
    ensures Inv(Start().heap, Start().live)
  {}

  // Resizing frees the block it was given and hands out another in its place.
  lemma ReallocInv(s: System, b: int, size: int, grant: Option<int>)
    requires Inv(s.heap, s.live) && b in s.live && CanPut(s.heap, b) && MayAsk(s.heap, size, grant)
    ensures Inv(DoRealloc(s, b, size, grant).heap, DoRealloc(s, b, size, grant).live)
    ensures var c := Malloc(s.heap, size, grant).1;
      DoRealloc(s, b, size, grant).live
        == if size == 0 then s.live - {b} else if c.Some? then s.live[c.value := size] - {b} else s.live
  {
    if size == 0 {
      PutInv(s.heap, s.live, b);
    } else {
      MallocInv(s.heap, s.live, size, grant);
      var t := DoMalloc(s, size, grant);
      if Malloc(s.heap, size, grant).1.Some? { PutInv(t.heap, t.live, b); }
    }
  }

  // The block that realloc() gets is another one than the block it was given, and both are live then.
  lemma ReallocBetween(s: System, b: int, size: int, grant: Option<int>)
    requires Inv(s.heap, s.live) && b in s.live && MayAsk(s.heap, size, grant) && Malloc(s.heap, size, grant).1.Some?
    ensures var t := DoMalloc(s, size, grant); var c := Malloc(s.heap, size, grant).1.value;
      Inv(t.heap, t.live) && b in t.live && c in t.live && b != c && t.live[c] == size
  {
    MallocInv(s.heap, s.live, size, grant);
  }

  lemma {:induction false} RunInv(s: System, acts: seq<Action>)
    requires Inv(s.heap, s.live) && Legal(s, acts)
    ensures Inv(After(s, acts).heap, After(s, acts).live)
    decreases |acts|
  {
    if acts != [] {
      match acts[0] {
        case Allocate(size, grant) => MallocInv(s.heap, s.live, size, grant);
        case Release(b) => PutInv(s.heap, s.live, b);
        case Resize(b, size, grant) => ReallocInv(s, b, size, grant);
      }
      RunInv(Step(s, acts[0]), acts[1..]);
    }
  }

  // On every run, each arena's free_cnt is the number of its blocks on its list, and some block is in use.
  lemma FreeCounts(acts: seq<Action>, a: int)
    requires Legal(Start(), acts) && a in After(Start(), acts).heap.arenas && After(Start(), acts).heap.arenas[a].Small?
    ensures var h := After(Start(), acts).heap; var d := h.arenas[a].desc;
      && |h.free| == 7 && 0 <= d < 7
      && h.arenas[a].freeCnt == CountFree(h.free[d], a, BlockSize(d), PerArena(d)) < PerArena(d)
  {
    StartInv();
    RunInv(Start(), acts);
    var h := After(Start(), acts).heap;
    assert CountOk(h.arenas, h.free, a) && InUse(h.arenas, a);
  }

  // On every run, live blocks are apart, clear of every header, and as big as asked for.
  lemma BlocksSafe(acts: seq<Action>, b: int)
    requires Legal(Start(), acts) && b in After(Start(), acts).live
    ensures var s := After(Start(), acts); var arenas := s.heap.arenas;
      && PageOf(b) in arenas && PageOk(arenas, PageOf(b))
      && (s.live[b] <= Capacity(arenas, b) || Wraps(s.live[b]))
      && (forall c | c in s.live && c != b :: c < b || b + Capacity(arenas, b) <= c)
      && (forall a | a in arenas :: a + 12 <= b || b + Capacity(arenas, b) <= a)
  {
    StartInv();
    RunInv(Start(), acts);
    var s := After(Start(), acts);
    LiveInside(s.heap, s.live, b);
    forall c | c in s.live && c != b ensures c < b || b + Capacity(s.heap.arenas, b) <= c {
      if b < c { LiveApart(s.heap, s.live, b, c); }
    }
    forall a | a in s.heap.arenas ensures a + 12 <= b || b + Capacity(s.heap.arenas, b) <= a {
      HeaderClear(s.heap, s.live, b, a);
    }
  }

  lemma {:induction false} NotAllListed(list: seq<int>, a: int, size: int, n: int) returns (i: int)
    requires 0 <= n && CountFree(list, a, size, n) < n
    ensures 0 <= i < n && BlockAt(a, size, i) !in list
    decreases n
  {
    if BlockAt(a, size, n - 1) !in list { i := n - 1; } else { i := NotAllListed(list, a, size, n - 1); }
  }

  // Once every block is freed, every page has gone back to the page allocator.
  lemma NothingKept(acts: seq<Action>)
    requires Legal(Start(), acts) && After(Start(), acts).live == map[]
    ensures After(Start(), acts).heap.arenas == map[]
  {
    StartInv();
    RunInv(Start(), acts);
    NoBlocksNoArenas(After(Start(), acts).heap);
  }

  lemma NoBlocksNoArenas(h: Heap)
    requires Inv(h, map[])
    ensures h.arenas == map[]
  {
    forall a ensures a !in h.arenas {
      if a in h.arenas {
        assert Accounted(h.arenas, h.free, map[], a) && InUse(h.arenas, a) && CountOk(h.arenas, h.free, a);
        SomeBlockLive(h.arenas, h.free, map[], a);
      }
    }
  }

  lemma SomeBlockLive(arenas: map<int, Arena>, free: seq<seq<int>>, live: map<int, int>, a: int)
    requires a in arenas && |free| == 7 && Accounted(arenas, free, live, a) && InUse(arenas, a)
      && CountOk(arenas, free, a)
    ensures live != map[]
  {
    match arenas[a] {
      case Big(_) => assert a + 12 in live;
      case Small(d, _) =>
        var i := NotAllListed(free[d], a, BlockSize(d), PerArena(d));
        assert BlockAt(a, BlockSize(d), i) in live;
    }
  }
}
