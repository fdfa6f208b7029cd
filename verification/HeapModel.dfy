// threads/malloc.c: the allocator's state, its operations and their invariant.

module HeapModel {
  import opened Options
  import opened Seqs
  import opened HeapLayout

  // An arena header: a page of small blocks, or the first page of a big block.
  datatype Arena = Small(desc: int, freeCnt: int) | Big(pages: int)

  // Headers by page address, and the descriptors' free lists.
  datatype Heap = Heap(arenas: map<int, Arena>, free: seq<seq<int>>)

  // Index of the first descriptor whose blocks hold SIZE bytes, 7 for none.
  function DescFor(size: int): (d: int)
    ensures 0 <= d <= 7
    ensures d < 7 ==> size <= BlockSize(d)
    ensures forall e | 0 <= e < d :: BlockSize(e) < size
  {
    if size <= 16 then 0 else if size <= 32 then 1 else if size <= 64 then 2 else if size <= 128 then 3
    else if size <= 256 then 4 else if size <= 512 then 5 else if size <= 1024 then 6 else 7
  }

  // Pages asked for to hold a big block; the sum is a 32-bit one.
  function PagesFor(size: int): (n: int) { (size + 12 + 4095) % 0x1_0000_0000 / 4096 }

  function NewArena(h: Heap, a: int, d: int): (r: Heap)
    requires 0 <= d < 7 && |h.free| == 7
  {
    Heap(h.arenas[a := Small(d, PerArena(d))], h.free[d := h.free[d] + Carved(a, BlockSize(d), PerArena(d))])
  }

  predicate CanTake(h: Heap, d: int) {
    0 <= d < 7 && |h.free| == 7 && h.free[d] != [] && PageOf(h.free[d][0]) in h.arenas
      && h.arenas[PageOf(h.free[d][0])].Small?
  }

  function Take(h: Heap, d: int): (r: Heap)
    requires CanTake(h, d)
  {
    var a := PageOf(h.free[d][0]);
    Heap(h.arenas[a := h.arenas[a].(freeCnt := h.arenas[a].freeCnt - 1)], h.free[d := h.free[d][1..]])
  }

  // Removing every element of S.
  function Minus(list: seq<int>, s: set<int>): (r: seq<int>) {
    if list == [] then [] else if list[0] in s then Minus(list[1..], s) else [list[0]] + Minus(list[1..], s)
  }

  // The first K blocks of an arena.
  function Blocks(a: int, d: int, k: int): (s: set<int>)
    requires 0 <= d < 7
  {
    set i | 0 <= i < k :: BlockAt(a, BlockSize(d), i)
  }

  predicate CanPut(h: Heap, b: int) {
    |h.free| == 7 && PageOf(b) in h.arenas && (h.arenas[PageOf(b)].Small? ==> 0 <= h.arenas[PageOf(b)].desc < 7)
  }

  // free() on a block of a live arena.
  function Put(h: Heap, b: int): (r: Heap)
    requires CanPut(h, b)
  {
    var a := PageOf(b);
    match h.arenas[a]
    case Big(_) => Heap(h.arenas - {a}, h.free)
    case Small(d, c) =>
      if c + 1 < PerArena(d) then Heap(h.arenas[a := Small(d, c + 1)], h.free[d := [b] + h.free[d]])
      else Heap(h.arenas - {a}, h.free[d := Minus([b] + h.free[d], Blocks(a, d, PerArena(d)))])
  }

  predicate AsksPages(h: Heap, size: int)
    requires |h.free| == 7
  {
    0 < size && (DescFor(size) == 7 || h.free[DescFor(size)] == [])
  }

  function PagesAsked(size: int): (n: int) { if DescFor(size) == 7 then PagesFor(size) else 1 }

  predicate Ready(h: Heap) {
    |h.free| == 7 && forall d | 0 <= d < 7 && h.free[d] != [] :: CanTake(h, d)
  }

  // malloc(): GRANT is the page allocator's answer, should it be asked.
  function Malloc(h: Heap, size: int, grant: Option<int>): (r: (Heap, Option<int>))
    requires Ready(h) && (grant.Some? ==> grant.value % 4096 == 0)
  {
    var d := DescFor(size);
    if size <= 0 then (h, None)
    else if AsksPages(h, size) && (grant == None || PagesAsked(size) == 0) then (h, None)
    else if d == 7 then (Heap(h.arenas[grant.value := Big(PagesFor(size))], h.free), Some(grant.value + 12))
    else if h.free[d] == [] then
      NewArenaIs(h, grant.value, d);
      var h1 := NewArena(h, grant.value, d);
      (Take(h1, d), Some(h1.free[d][0]))
    else (Take(h, d), Some(h.free[d][0]))
  }

  // ---------- the invariant ----------

  function Span(a: Arena): (n: int) { if a.Big? then a.pages else 1 }

  predicate PageOk(arenas: map<int, Arena>, a: int)
    requires a in arenas
  {
    && 0 < a && a % 4096 == 0
    && match arenas[a]
       case Big(n) => 1 <= n
       case Small(d, c) => 0 <= d < 7 && 0 <= c <= PerArena(d)
  }

  predicate PagesOk(arenas: map<int, Arena>) {
    forall a | a in arenas :: PageOk(arenas, a)
  }

  predicate ArenasApart(arenas: map<int, Arena>) {
    forall a, b | a in arenas && b in arenas && a < b :: a + 4096 * Span(arenas[a]) <= b
  }

  // Block B is one of the small blocks of descriptor D.
  predicate BlockIn(arenas: map<int, Arena>, b: int, d: int)
    requires 0 <= d < 7
  {
    PageOf(b) in arenas && arenas[PageOf(b)].Small? && arenas[PageOf(b)].desc == d
      && IsBlock(b, BlockSize(d), PerArena(d))
  }

  ghost predicate ListOk(arenas: map<int, Arena>, list: seq<int>, d: int)
    requires 0 <= d < 7
  {
    NoDup(list) && forall b | b in list :: BlockIn(arenas, b, d)
  }

  ghost predicate ListsOk(arenas: map<int, Arena>, free: seq<seq<int>>) {
    |free| == 7 && forall d | 0 <= d < 7 :: ListOk(arenas, free[d], d)
  }

  // free_cnt counts the arena's blocks on its descriptor's list.
  predicate CountOk(arenas: map<int, Arena>, free: seq<seq<int>>, a: int)
    requires a in arenas && |free| == 7
  {
    arenas[a].Small? ==>
      var d := arenas[a].desc;
      0 <= d < 7 && arenas[a].freeCnt == CountFree(free[d], a, BlockSize(d), PerArena(d))
  }

  predicate CountsOk(arenas: map<int, Arena>, free: seq<seq<int>>) {
    |free| == 7 && forall a | a in arenas :: CountOk(arenas, free, a)
  }

  // A handed-out block is a small block off its list or the block of a big arena.
  predicate LiveOk(arenas: map<int, Arena>, free: seq<seq<int>>, b: int)
    requires |free| == 7
  {
    PageOf(b) in arenas
    && match arenas[PageOf(b)]
       case Big(_) => b % 4096 == 12
       case Small(d, _) => 0 <= d < 7 && IsBlock(b, BlockSize(d), PerArena(d)) && b !in free[d]
  }

  predicate LivesOk(arenas: map<int, Arena>, free: seq<seq<int>>, live: map<int, int>) {
    |free| == 7 && forall b | b in live :: LiveOk(arenas, free, b)
  }

  // Every block off the lists is handed out.
  predicate Accounted(arenas: map<int, Arena>, free: seq<seq<int>>, live: map<int, int>, a: int)
    requires a in arenas && |free| == 7
  {
    match arenas[a]
    case Big(_) => a + 12 in live
    case Small(d, _) => 0 <= d < 7 && forall i | 0 <= i < PerArena(d) ::
                          var b := BlockAt(a, BlockSize(d), i); b in free[d] || b in live
  }

  predicate AllAccounted(arenas: map<int, Arena>, free: seq<seq<int>>, live: map<int, int>) {
    |free| == 7 && forall a | a in arenas :: Accounted(arenas, free, live, a)
  }

  function Capacity(arenas: map<int, Arena>, b: int): (n: int)
    requires PageOf(b) in arenas && (arenas[PageOf(b)].Small? ==> 0 <= arenas[PageOf(b)].desc < 7)
  {
    match arenas[PageOf(b)]
    case Big(n) => 4096 * n - b % 4096
    case Small(d, _) => BlockSize(d)
  }

  // The sizes whose rounding up to pages wraps around to a single page.
  predicate Wraps(size: int) { 0xFFFF_FFF5 <= size }

  // live maps each handed-out block to the size asked for.
  predicate SizesOk(arenas: map<int, Arena>, live: map<int, int>) {
    forall b | b in live && PageOf(b) in arenas && (arenas[PageOf(b)].Small? ==> 0 <= arenas[PageOf(b)].desc < 7) ::
      0 < live[b] && (live[b] <= Capacity(arenas, b) || Wraps(live[b]))
  }

  // Some block of the arena is handed out.
  predicate InUse(arenas: map<int, Arena>, a: int)
    requires a in arenas
  {
    arenas[a].Small? ==> 0 <= arenas[a].desc < 7 && arenas[a].freeCnt < PerArena(arenas[a].desc)
  }

  // What holds inside malloc() too, while a new arena is still unused.
  ghost predicate Loose(h: Heap, live: map<int, int>) {
    && PagesOk(h.arenas) && ArenasApart(h.arenas)
    && ListsOk(h.arenas, h.free) && CountsOk(h.arenas, h.free)
    && LivesOk(h.arenas, h.free, live) && AllAccounted(h.arenas, h.free, live) && SizesOk(h.arenas, live)
  }

  ghost predicate Inv(h: Heap, live: map<int, int>) {
    Loose(h, live) && forall a | a in h.arenas :: InUse(h.arenas, a)
  }

  // PAGES pages at A overlap no arena.
  predicate Fresh(arenas: map<int, Arena>, a: int, pages: int) {
    && 0 < a && a % 4096 == 0 && 1 <= pages
    && forall b | b in arenas :: a + 4096 * pages <= b || b + 4096 * Span(arenas[b]) <= a
  }

  // ---------- changes of free_cnt only ----------

  ghost predicate SameShape(arenas: map<int, Arena>, arenas1: map<int, Arena>) {
    && arenas1.Keys == arenas.Keys
    && forall a | a in arenas ::
         match arenas[a]
         case Big(n) => arenas1[a] == Big(n)
         case Small(d, _) => arenas1[a].Small? && arenas1[a].desc == d
  }

  lemma ShapeKeeps(arenas: map<int, Arena>, arenas1: map<int, Arena>, live: map<int, int>)
    requires SameShape(arenas, arenas1)
    ensures ArenasApart(arenas) ==> ArenasApart(arenas1)
    ensures SizesOk(arenas, live) ==> SizesOk(arenas1, live)
  {}

  lemma ShapeList(arenas: map<int, Arena>, arenas1: map<int, Arena>, list: seq<int>, d: int)
    requires SameShape(arenas, arenas1) && 0 <= d < 7 && ListOk(arenas, list, d)
    ensures ListOk(arenas1, list, d)
  {
    forall b | b in list ensures BlockIn(arenas1, b, d) { assert BlockIn(arenas, b, d); }
  }

  lemma ShapeLives(arenas: map<int, Arena>, arenas1: map<int, Arena>, free: seq<seq<int>>, live: map<int, int>)
    requires SameShape(arenas, arenas1) && |free| == 7
    ensures LivesOk(arenas, free, live) ==> LivesOk(arenas1, free, live)
    ensures AllAccounted(arenas, free, live) ==> AllAccounted(arenas1, free, live)
  {
    if LivesOk(arenas, free, live) {
      forall b | b in live ensures LiveOk(arenas1, free, b) { assert LiveOk(arenas, free, b); }
    }
    if AllAccounted(arenas, free, live) {
      forall a | a in arenas1 ensures Accounted(arenas1, free, live, a) { assert Accounted(arenas, free, live, a); }
    }
  }

  // ---------- one block on or off a list ----------

  // Lists L and M of descriptor D differ in block B of arena A alone: M has it.
  ghost predicate OneMore(l: seq<int>, m: seq<int>, b: int) {
    b !in l && b in m && forall x :: x != b ==> (x in l <==> x in m)
  }

  lemma OneMoreCount(l: seq<int>, m: seq<int>, b: int, d: int)
    requires 0 <= d < 7 && OneMore(l, m, b) && IsBlock(b, BlockSize(d), PerArena(d))
    ensures CountFree(m, PageOf(b), BlockSize(d), PerArena(d)) == CountFree(l, PageOf(b), BlockSize(d), PerArena(d)) + 1
  {
    var a, size, n := PageOf(b), BlockSize(d), PerArena(d);
    BlockOfArena(b, size, n);
    var k := IndexOf(b, size);
    forall i | 0 <= i < n && i != k ensures BlockAt(a, size, i) != b {
      if i < k { BlocksApart(a, size, i, k); } else { BlocksApart(a, size, k, i); }
    }
    CountOneMore(l, m, a, size, n, k);
  }

  lemma OneMoreElsewhere(l: seq<int>, m: seq<int>, b: int, d: int, a: int)
    requires 0 <= d < 7 && OneMore(l, m, b) && a % 4096 == 0 && a != PageOf(b)
    ensures CountFree(m, a, BlockSize(d), PerArena(d)) == CountFree(l, a, BlockSize(d), PerArena(d))
  {
    Geometry(d);
    forall i | 0 <= i < PerArena(d) ensures BlockAt(a, BlockSize(d), i) != b {
      ArenaOfBlock(a, BlockSize(d), PerArena(d), i);
    }
    CountSame(l, m, a, BlockSize(d), PerArena(d));
  }

  // The counts after block B of descriptor D goes on (UP) or off its list.
  lemma CountsMove(arenas: map<int, Arena>, free: seq<seq<int>>, arenas1: map<int, Arena>, free1: seq<seq<int>>,
                   b: int, d: int, up: bool)
    requires PagesOk(arenas) && CountsOk(arenas, free) && 0 <= d < 7 && BlockIn(arenas, b, d) && |free1| == 7
    requires free1 == free[d := free1[d]]
    requires if up then OneMore(free[d], free1[d], b) else OneMore(free1[d], free[d], b)
    requires arenas1 == arenas[PageOf(b) := Small(d, arenas[PageOf(b)].freeCnt + if up then 1 else -1)]
    ensures CountsOk(arenas1, free1)
  {
    forall a | a in arenas1 ensures CountOk(arenas1, free1, a) {
      assert CountOk(arenas, free, a) && PageOk(arenas, a);
      if a == PageOf(b) {
        if up { OneMoreCount(free[d], free1[d], b, d); } else { OneMoreCount(free1[d], free[d], b, d); }
      } else if arenas[a].Small? && arenas[a].desc == d {
        if up { OneMoreElsewhere(free[d], free1[d], b, d, a); } else { OneMoreElsewhere(free1[d], free[d], b, d, a); }
      }
    }
  }

  // ---------- taking the first free block ----------

  lemma PopOneMore(list: seq<int>)
    requires list != [] && NoDup(list)
    ensures OneMore(list[1..], list, list[0]) && NoDup(list[1..])
  {
    PopFront(list);
  }

  lemma TakeLives(arenas: map<int, Arena>, free: seq<seq<int>>, free1: seq<seq<int>>, live: map<int, int>, b: int,
                  d: int, size: int)
    requires |free| == |free1| == 7 && 0 <= d < 7 && free1 == free[d := free1[d]] && OneMore(free1[d], free[d], b)
    requires BlockIn(arenas, b, d)
    ensures LivesOk(arenas, free, live) ==> LivesOk(arenas, free1, live[b := size])
    ensures AllAccounted(arenas, free, live) ==> AllAccounted(arenas, free1, live[b := size])
  {
    var live1 := live[b := size];
    if LivesOk(arenas, free, live) {
      forall x | x in live1 ensures LiveOk(arenas, free1, x) {
        if x != b { assert LiveOk(arenas, free, x); }
      }
    }
    if AllAccounted(arenas, free, live) {
      forall a | a in arenas ensures Accounted(arenas, free1, live1, a) { assert Accounted(arenas, free, live, a); }
    }
  }

  lemma FreeNotLive(arenas: map<int, Arena>, free: seq<seq<int>>, live: map<int, int>, b: int, d: int)
    requires LivesOk(arenas, free, live) && 0 <= d < 7 && BlockIn(arenas, b, d) && b in free[d]
    ensures b !in live
  {
    forall x | x in live ensures x != b { assert LiveOk(arenas, free, x); }
  }

  lemma TakeLists(arenas: map<int, Arena>, arenas1: map<int, Arena>, free: seq<seq<int>>, free1: seq<seq<int>>, d: int)
    requires ListsOk(arenas, free) && SameShape(arenas, arenas1) && |free1| == 7 && 0 <= d < 7
    requires free1 == free[d := free1[d]] && ListOk(arenas1, free1[d], d)
    ensures ListsOk(arenas1, free1)
  {
    forall e | 0 <= e < 7 ensures ListOk(arenas1, free1[e], e) {
      if e != d { ShapeList(arenas, arenas1, free[e], e); }
    }
  }

  // H1 is H with the first block B of list D taken.
  ghost predicate Taken(h: Heap, h1: Heap, d: int, b: int) {
    && 0 <= d < 7 && |h.free| == |h1.free| == 7 && BlockIn(h.arenas, b, d)
    && OneMore(h1.free[d], h.free[d], b) && NoDup(h1.free[d]) && h1.free == h.free[d := h1.free[d]]
    && h1.arenas == h.arenas[PageOf(b) := Small(d, h.arenas[PageOf(b)].freeCnt + -1)]
  }

  lemma TakeIs(h: Heap, d: int)
    requires ListsOk(h.arenas, h.free) && 0 <= d < 7 && h.free[d] != []
    ensures CanTake(h, d) && Taken(h, Take(h, d), d, h.free[d][0])
  {
    assert ListOk(h.arenas, h.free[d], d);
    assert h.free[d][0] in h.free[d];
    PopOneMore(h.free[d]);
  }

  lemma TakenCounts(h: Heap, h1: Heap, d: int, b: int)
    requires Taken(h, h1, d, b) && PagesOk(h.arenas) && CountsOk(h.arenas, h.free)
    requires forall x | x in h.arenas && x != PageOf(b) :: InUse(h.arenas, x)
    ensures CountsOk(h1.arenas, h1.free) && PagesOk(h1.arenas) && SameShape(h.arenas, h1.arenas)
    ensures forall x | x in h1.arenas :: InUse(h1.arenas, x)
  {
    assert CountOk(h.arenas, h.free, PageOf(b));
    OneMoreCount(h1.free[d], h.free[d], b, d);
    CountsMove(h.arenas, h.free, h1.arenas, h1.free, b, d, false);
    TakePages(h, h1, PageOf(b));
  }

  lemma TakenLists(h: Heap, h1: Heap, d: int, b: int)
    requires Taken(h, h1, d, b) && SameShape(h.arenas, h1.arenas) && ListsOk(h.arenas, h.free)
    ensures ListsOk(h1.arenas, h1.free)
  {
    assert ListOk(h.arenas, h.free[d], d);
    assert ListOk(h.arenas, h1.free[d], d);
    ShapeList(h.arenas, h1.arenas, h1.free[d], d);
    TakeLists(h.arenas, h1.arenas, h.free, h1.free, d);
  }

  lemma TakenLives(h: Heap, h1: Heap, live: map<int, int>, d: int, b: int, size: int)
    requires Taken(h, h1, d, b) && SameShape(h.arenas, h1.arenas) && 0 < size <= BlockSize(d)
    requires LivesOk(h.arenas, h.free, live) && AllAccounted(h.arenas, h.free, live) && SizesOk(h.arenas, live)
    ensures var live1 := live[b := size];
      LivesOk(h1.arenas, h1.free, live1) && AllAccounted(h1.arenas, h1.free, live1) && SizesOk(h1.arenas, live1)
  {
    TakeLives(h.arenas, h.free, h1.free, live, b, d, size);
    TakeSizes(h.arenas, live, b, d, size);
    ShapeLives(h.arenas, h1.arenas, h1.free, live[b := size]);
    ShapeKeeps(h.arenas, h1.arenas, live[b := size]);
  }

  lemma TakeInv(h: Heap, live: map<int, int>, d: int, size: int)
    requires Loose(h, live) && 0 <= d < 7 && h.free[d] != [] && 0 < size <= BlockSize(d)
    requires forall a | a in h.arenas && a != PageOf(h.free[d][0]) :: InUse(h.arenas, a)
    ensures CanTake(h, d) && h.free[d][0] !in live
    ensures Inv(Take(h, d), live[h.free[d][0] := size])
  {
    TakeIs(h, d);
    var b, h1 := h.free[d][0], Take(h, d);
    FreeNotLive(h.arenas, h.free, live, b, d);
    TakenCounts(h, h1, d, b);
    ShapeKeeps(h.arenas, h1.arenas, live);
    TakenLists(h, h1, d, b);
    TakenLives(h, h1, live, d, b, size);
  }

  lemma TakePages(h: Heap, h1: Heap, a: int)
    requires PagesOk(h.arenas) && a in h.arenas && h.arenas[a].Small? && 0 < h.arenas[a].freeCnt
    requires h1.arenas == h.arenas[a := h.arenas[a].(freeCnt := h.arenas[a].freeCnt - 1)]
    requires forall x | x in h.arenas && x != a :: InUse(h.arenas, x)
    ensures PagesOk(h1.arenas) && SameShape(h.arenas, h1.arenas) && forall x | x in h1.arenas :: InUse(h1.arenas, x)
  {
    assert PageOk(h.arenas, a);
    forall x | x in h1.arenas ensures PageOk(h1.arenas, x) && InUse(h1.arenas, x) {
      assert PageOk(h.arenas, x);
      if x != a { assert InUse(h.arenas, x); }
    }
  }

  lemma TakeSizes(arenas: map<int, Arena>, live: map<int, int>, b: int, d: int, size: int)
    requires SizesOk(arenas, live) && 0 <= d < 7 && BlockIn(arenas, b, d) && 0 < size <= BlockSize(d)
    ensures SizesOk(arenas, live[b := size])
  {}

  // ---------- a new arena ----------

  lemma CarvedIn(a: int, d: int)
    requires a % 4096 == 0 && 0 <= d < 7
    ensures NoDup(Carved(a, BlockSize(d), PerArena(d)))
    ensures forall b | b in Carved(a, BlockSize(d), PerArena(d)) ::
      PageOf(b) == a && IsBlock(b, BlockSize(d), PerArena(d))
  {
    var size, n := BlockSize(d), PerArena(d);
    var s := Carved(a, size, n);
    Geometry(d);
    forall i, j | 0 <= i < j < n ensures s[i] != s[j] { BlocksApart(a, size, i, j); }
    forall b | b in s ensures PageOf(b) == a && IsBlock(b, size, n) {
      var i :| 0 <= i < n && s[i] == b;
      ArenaOfBlock(a, size, n, i);
    }
  }

  lemma NewPages(arenas: map<int, Arena>, a: int, x: Arena)
    requires PagesOk(arenas) && ArenasApart(arenas) && Fresh(arenas, a, Span(x)) && a !in arenas
    requires x.Small? ==> 0 <= x.desc < 7 && 0 <= x.freeCnt <= PerArena(x.desc)
    ensures PagesOk(arenas[a := x]) && ArenasApart(arenas[a := x])
  {
    var arenas1 := arenas[a := x];
    forall y | y in arenas1 ensures PageOk(arenas1, y) {
      if y != a { assert PageOk(arenas, y); }
    }
  }

  lemma FreshAbsent(arenas: map<int, Arena>, a: int, pages: int)
    requires PagesOk(arenas) && Fresh(arenas, a, pages)
    ensures a !in arenas
  {
    assert a in arenas ==> PageOk(arenas, a);
  }

  lemma NewList(arenas: map<int, Arena>, a: int, d: int)
    requires a % 4096 == 0 && 0 <= d < 7 && a in arenas && arenas[a].Small? && arenas[a].desc == d
    ensures ListOk(arenas, Carved(a, BlockSize(d), PerArena(d)), d)
  {
    CarvedIn(a, d);
  }

  // Adding an arena on a page of its own disturbs no list, count or live block.
  lemma NewOthers(arenas: map<int, Arena>, free: seq<seq<int>>, live: map<int, int>, a: int, x: Arena)
    requires a !in arenas && |free| == 7
    ensures forall d | 0 <= d < 7 && ListOk(arenas, free[d], d) :: ListOk(arenas[a := x], free[d], d)
    ensures LivesOk(arenas, free, live) ==> LivesOk(arenas[a := x], free, live)
    ensures SizesOk(arenas, live) && LivesOk(arenas, free, live) ==> SizesOk(arenas[a := x], live)
  {
    var arenas1 := arenas[a := x];
    forall d | 0 <= d < 7 && ListOk(arenas, free[d], d) ensures ListOk(arenas1, free[d], d) {
      forall b | b in free[d] ensures BlockIn(arenas1, b, d) { assert BlockIn(arenas, b, d); }
    }
    if LivesOk(arenas, free, live) {
      forall b | b in live ensures LiveOk(arenas1, free, b) { assert LiveOk(arenas, free, b); }
      if SizesOk(arenas, live) {
        forall b | b in live ensures PageOf(b) in arenas && PageOf(b) != a { assert LiveOk(arenas, free, b); }
      }
    }
  }

  lemma NewCounts(arenas: map<int, Arena>, free: seq<seq<int>>, a: int, d: int)
    requires PagesOk(arenas) && CountsOk(arenas, free) && 0 <= d < 7 && free[d] == [] && a !in arenas && a % 4096 == 0
    ensures CountsOk(arenas[a := Small(d, PerArena(d))], free[d := Carved(a, BlockSize(d), PerArena(d))])
  {
    var size, n := BlockSize(d), PerArena(d);
    var arenas1, free1 := arenas[a := Small(d, n)], free[d := Carved(a, size, n)];
    forall y | y in arenas1 ensures CountOk(arenas1, free1, y) {
      if y == a {
        CountFull(free1[d], a, size, n);
      } else {
        assert CountOk(arenas, free, y) && PageOk(arenas, y);
        if arenas[y].Small? && arenas[y].desc == d {
          CarvedIn(a, d);
          Geometry(d);
          forall i | 0 <= i < n ensures BlockAt(y, size, i) !in free1[d] { ArenaOfBlock(y, size, n, i); }
          CountSame(free[d], free1[d], y, size, n);
        }
      }
    }
  }

  lemma NewLives(arenas: map<int, Arena>, free: seq<seq<int>>, live: map<int, int>, a: int, d: int)
    requires 0 <= d < 7 && |free| == 7 && free[d] == [] && a !in arenas && a % 4096 == 0
    requires LivesOk(arenas, free, live) && AllAccounted(arenas, free, live)
    ensures var arenas1, free1 := arenas[a := Small(d, PerArena(d))], free[d := Carved(a, BlockSize(d), PerArena(d))];
      LivesOk(arenas1, free1, live) && AllAccounted(arenas1, free1, live)
  {
    var arenas1, free1 := arenas[a := Small(d, PerArena(d))], free[d := Carved(a, BlockSize(d), PerArena(d))];
    CarvedIn(a, d);
    forall b | b in live ensures LiveOk(arenas1, free1, b) { assert LiveOk(arenas, free, b); }
    forall y | y in arenas1 ensures Accounted(arenas1, free1, live, y) {
      if y != a { assert Accounted(arenas, free, live, y); }
    }
  }

  lemma NewLists(arenas: map<int, Arena>, free: seq<seq<int>>, a: int, d: int)
    requires ListsOk(arenas, free) && 0 <= d < 7 && a !in arenas && a % 4096 == 0
    ensures ListsOk(arenas[a := Small(d, PerArena(d))], free[d := Carved(a, BlockSize(d), PerArena(d))])
  {
    NewOthers(arenas, free, map[], a, Small(d, PerArena(d)));
    NewList(arenas[a := Small(d, PerArena(d))], a, d);
  }

  lemma NewArenaIs(h: Heap, a: int, d: int)
    requires 0 <= d < 7 && |h.free| == 7 && h.free[d] == [] && a % 4096 == 0
    ensures NewArena(h, a, d)
         == Heap(h.arenas[a := Small(d, PerArena(d))], h.free[d := Carved(a, BlockSize(d), PerArena(d))])
    ensures NewArena(h, a, d).free[d] != [] && PageOf(NewArena(h, a, d).free[d][0]) == a
  {
    var s := Carved(a, BlockSize(d), PerArena(d));
    assert h.free[d] + s == s;
    Geometry(d);
    ArenaOfBlock(a, BlockSize(d), PerArena(d), 0);
    assert s[0] == BlockAt(a, BlockSize(d), 0);
  }

  lemma NewArenaLoose(h: Heap, live: map<int, int>, a: int, d: int)
    requires Inv(h, live) && 0 <= d < 7 && h.free[d] == [] && Fresh(h.arenas, a, 1)
    ensures Loose(NewArena(h, a, d), live)
    ensures NewArena(h, a, d).free[d] != [] && PageOf(NewArena(h, a, d).free[d][0]) == a
    ensures forall x | x in NewArena(h, a, d).arenas && x != a :: InUse(NewArena(h, a, d).arenas, x)
  {
    NewArenaIs(h, a, d);
    FreshAbsent(h.arenas, a, 1);
    NewPages(h.arenas, a, Small(d, PerArena(d)));
    NewLists(h.arenas, h.free, a, d);
    NewCounts(h.arenas, h.free, a, d);
    NewLives(h.arenas, h.free, live, a, d);
    NewOthers(h.arenas, h.free, live, a, Small(d, PerArena(d)));
    NewInUse(h.arenas, a, Small(d, PerArena(d)));
  }

  lemma NewInUse(arenas: map<int, Arena>, a: int, x: Arena)
    requires forall y | y in arenas :: InUse(arenas, y)
    ensures var arenas1 := arenas[a := x]; forall y | y in arenas1 && y != a :: InUse(arenas1, y)
  {
    var arenas1 := arenas[a := x];
    forall y | y in arenas1 && y != a ensures InUse(arenas1, y) { assert InUse(arenas, y); }
  }

  // ---------- malloc ----------

  lemma InvReady(h: Heap)
    requires ListsOk(h.arenas, h.free)
    ensures Ready(h)
  {
    forall d | 0 <= d < 7 && h.free[d] != [] ensures CanTake(h, d) { TakeIs(h, d); }
  }

  // Rounding up to pages holds the request unless the 32-bit sum wraps.
  lemma PagesHold(size: int)
    requires 0 <= size < 0x1_0000_0000
    ensures PagesFor(size) == 0 <==> 0xFFFF_EFF5 <= size <= 0xFFFF_FFF4
    ensures PagesFor(size) >= 0 && (PagesFor(size) > 0 ==> (size <= 4096 * PagesFor(size) - 12 <==> !Wraps(size)))
  {}

  lemma BigCounts(arenas: map<int, Arena>, free: seq<seq<int>>, a: int, n: int)
    requires CountsOk(arenas, free)
    ensures CountsOk(arenas[a := Big(n)], free)
  {
    var arenas1 := arenas[a := Big(n)];
    forall y | y in arenas1 ensures CountOk(arenas1, free, y) {
      if y != a { assert CountOk(arenas, free, y); }
    }
  }

  lemma BigLives(arenas: map<int, Arena>, free: seq<seq<int>>, live: map<int, int>, a: int, n: int, size: int)
    requires a !in arenas && a % 4096 == 0 && LivesOk(arenas, free, live) && AllAccounted(arenas, free, live)
    ensures LivesOk(arenas[a := Big(n)], free, live[a + 12 := size])
    ensures AllAccounted(arenas[a := Big(n)], free, live[a + 12 := size])
    ensures a + 12 !in live
  {
    var arenas1, live1 := arenas[a := Big(n)], live[a + 12 := size];
    assert PageOf(a + 12) == a;
    forall b | b in live ensures LiveOk(arenas1, free, b) && b != a + 12 { assert LiveOk(arenas, free, b); }
    forall b | b in live1 ensures LiveOk(arenas1, free, b) {}
    forall y | y in arenas1 ensures Accounted(arenas1, free, live1, y) {
      if y != a { assert Accounted(arenas, free, live, y); }
    }
  }

  lemma BigSizes(arenas: map<int, Arena>, live: map<int, int>, a: int, n: int, size: int)
    requires SizesOk(arenas, live) && a in arenas && a % 4096 == 0 && arenas[a] == Big(n)
    requires 0 < size && (size <= 4096 * n - 12 || Wraps(size))
    ensures SizesOk(arenas, live[a + 12 := size])
  {
    assert PageOf(a + 12) == a;
  }

  lemma BigInv(h: Heap, live: map<int, int>, a: int, size: int)
    requires Inv(h, live) && 0 < size < 0x1_0000_0000 && PagesFor(size) > 0 && Fresh(h.arenas, a, PagesFor(size))
    ensures a + 12 !in live
    ensures Inv(Heap(h.arenas[a := Big(PagesFor(size))], h.free), live[a + 12 := size])
  {
    var n := PagesFor(size);
    FreshAbsent(h.arenas, a, n);
    PagesHold(size);
    NewPages(h.arenas, a, Big(n));
    NewOthers(h.arenas, h.free, live, a, Big(n));
    BigCounts(h.arenas, h.free, a, n);
    BigLives(h.arenas, h.free, live, a, n, size);
    BigSizes(h.arenas[a := Big(n)], live, a, n, size);
    NewInUse(h.arenas, a, Big(n));
  }

  // A granted request is a block not handed out before; the invariant stands.
  lemma MallocInv(h: Heap, live: map<int, int>, size: int, grant: Option<int>)
    requires Inv(h, live) && 0 <= size < 0x1_0000_0000
    requires grant.Some? ==> grant.value % 4096 == 0
    requires AsksPages(h, size) && PagesAsked(size) > 0 && grant.Some? ==>
      Fresh(h.arenas, grant.value, PagesAsked(size))
    ensures Ready(h)
    ensures var (h1, b) := Malloc(h, size, grant);
      if b.Some? then b.value !in live && Inv(h1, live[b.value := size]) else h1 == h
  {
    InvReady(h);
    if 0 < size && !(AsksPages(h, size) && (grant == None || PagesAsked(size) == 0)) {
      if DescFor(size) == 7 {
        PagesHold(size);
        BigInv(h, live, grant.value, size);
      } else {
        SmallInv(h, live, size, grant);
      }
    }
  }

  // Descriptor D has the smallest blocks that hold SIZE bytes.
  predicate Smallest(d: int, size: int) {
    0 <= d < 7 && size <= BlockSize(d) && (d == 0 || BlockSize(d - 1) < size)
  }

  // No such block is free.
  predicate NoneFree(h: Heap, size: int)
    requires |h.free| == 7
  {
    forall d | 0 <= d < 7 && Smallest(d, size) :: h.free[d] == []
  }

  lemma DescIs(size: int)
    ensures DescFor(size) == 7 <==> size > 1024
    ensures forall d :: Smallest(d, size) <==> d == DescFor(size) < 7
  {}

  // When malloc() asks for pages, and how many: one for small blocks, else as many as hold the block and
  // its header, counted in 32 bits.
  lemma AsksExact(h: Heap, size: int)
    requires |h.free| == 7 && 0 <= size
    ensures AsksPages(h, size) <==> 0 < size && (size > 1024 || NoneFree(h, size))
    ensures PagesAsked(size) == if size > 1024 then (size + 12 + 4095) % 0x1_0000_0000 / 4096 else 1
    ensures 1024 < size < 0xFFFF_EFF5 ==> 4096 * (PagesAsked(size) - 1) < size + 12 <= 4096 * PagesAsked(size)
  {
    DescIs(size);
    assert DescFor(size) < 7 ==> Smallest(DescFor(size), size);
    if 1024 < size < 0xFFFF_EFF5 { assert (size + 12 + 4095) % 0x1_0000_0000 == size + 12 + 4095; }
  }

  // malloc() gives null exactly for a size of 0, for a small size when no block of its descriptor is free
  // and the page is refused, and for a big size when the pages come to none or are refused.
  lemma MallocNull(h: Heap, live: map<int, int>, size: int, grant: Option<int>)
    requires Inv(h, live) && 0 <= size < 0x1_0000_0000 && (grant.Some? ==> grant.value % 4096 == 0)
    ensures Ready(h)
    ensures Malloc(h, size, grant).1 == None <==>
      || size == 0
      || (size <= 1024 && NoneFree(h, size) && grant == None)
      || (size > 1024 && ((size + 12 + 4095) % 0x1_0000_0000 / 4096 == 0 || grant == None))
  {
    InvReady(h);
    AsksExact(h, size);
    if 0 < size && DescFor(size) < 7 { DescIs(size); }
  }

  // Where the block is: behind the header of a new arena of the pages granted, or else from an arena
  // there already.
  lemma MallocWhere(h: Heap, live: map<int, int>, size: int, grant: Option<int>)
    requires Inv(h, live) && 0 < size < 0x1_0000_0000 && (grant.Some? ==> grant.value % 4096 == 0)
    requires Ready(h) && Malloc(h, size, grant).1.Some?
    ensures var (h1, b) := Malloc(h, size, grant);
      && (AsksPages(h, size) ==> grant.Some? && PageOf(b.value) == grant.value && b.value == grant.value + 12)
      && (size > 1024 ==> h1.free == h.free && h1.arenas == h.arenas[grant.value := Big(PagesAsked(size))])
      && (!AsksPages(h, size) ==> PageOf(b.value) in h.arenas && b.value in h.free[DescFor(size)])
  {
    DescIs(size);
    if AsksPages(h, size) && size <= 1024 {
      NewArenaIs(h, grant.value, DescFor(size));
      FirstCarved(h, grant.value, DescFor(size));
    }
  }

  lemma FirstCarved(h: Heap, a: int, d: int)
    requires 0 <= d < 7 && |h.free| == 7 && h.free[d] == [] && a % 4096 == 0
    ensures NewArena(h, a, d).free[d] != [] && NewArena(h, a, d).free[d][0] == a + 12 && PageOf(a + 12) == a
  {
    NewArenaIs(h, a, d);
    assert Carved(a, BlockSize(d), PerArena(d))[0] == BlockAt(a, BlockSize(d), 0);
  }

  lemma SmallInv(h: Heap, live: map<int, int>, size: int, grant: Option<int>)
    requires Inv(h, live) && Ready(h) && 0 < size && DescFor(size) < 7
    requires grant.Some? ==> grant.value % 4096 == 0
    requires h.free[DescFor(size)] == [] ==> grant.Some? && Fresh(h.arenas, grant.value, 1)
    ensures Malloc(h, size, grant).1.Some?
    ensures var (h1, b) := Malloc(h, size, grant); b.value !in live && Inv(h1, live[b.value := size])
  {
    var d := DescFor(size);
    if h.free[d] == [] {
      NewArenaLoose(h, live, grant.value, d);
      TakeInv(NewArena(h, grant.value, d), live, d, size);
    } else {
      TakeInv(h, live, d, size);
    }
  }

  // ---------- free ----------

  // H1 is H with block B of descriptor D pushed on its list.
  ghost predicate Pushed(h: Heap, h1: Heap, d: int, b: int) {
    && 0 <= d < 7 && |h.free| == 7 && BlockIn(h.arenas, b, d) && b !in h.free[d]
    && h1.free == h.free[d := [b] + h.free[d]]
    && h1.arenas == h.arenas[PageOf(b) := Small(d, h.arenas[PageOf(b)].freeCnt + 1)]
  }

  lemma PushOneMore(list: seq<int>, b: int)
    requires b !in list && NoDup(list)
    ensures OneMore(list, [b] + list, b) && NoDup([b] + list)
  {}

  lemma PushedCounts(h: Heap, h1: Heap, d: int, b: int)
    requires Pushed(h, h1, d, b) && PagesOk(h.arenas) && CountsOk(h.arenas, h.free) && ListsOk(h.arenas, h.free)
    requires InUse(h.arenas, PageOf(b))
    ensures CountsOk(h1.arenas, h1.free) && PagesOk(h1.arenas) && SameShape(h.arenas, h1.arenas)
  {
    assert ListOk(h.arenas, h.free[d], d);
    PushOneMore(h.free[d], b);
    CountsMove(h.arenas, h.free, h1.arenas, h1.free, b, d, true);
    assert PageOk(h.arenas, PageOf(b));
    forall x | x in h1.arenas ensures PageOk(h1.arenas, x) { assert PageOk(h.arenas, x); }
  }

  lemma PushedLists(h: Heap, h1: Heap, d: int, b: int)
    requires Pushed(h, h1, d, b) && SameShape(h.arenas, h1.arenas) && ListsOk(h.arenas, h.free)
    ensures ListsOk(h1.arenas, h1.free)
  {
    assert ListOk(h.arenas, h.free[d], d);
    PushOneMore(h.free[d], b);
    ShapeList(h.arenas, h1.arenas, h1.free[d], d);
    TakeLists(h.arenas, h1.arenas, h.free, h1.free, d);
  }

  lemma PushLives(arenas: map<int, Arena>, free: seq<seq<int>>, free1: seq<seq<int>>, live: map<int, int>, b: int,
                  d: int)
    requires |free| == |free1| == 7 && 0 <= d < 7 && free1 == free[d := [b] + free[d]] && BlockIn(arenas, b, d)
    requires PagesOk(arenas) && LivesOk(arenas, free, live) && AllAccounted(arenas, free, live)
    ensures LivesOk(arenas, free1, live - {b}) && AllAccounted(arenas, free1, live - {b})
  {
    var live1 := live - {b};
    forall x | x in live1 ensures LiveOk(arenas, free1, x) { assert LiveOk(arenas, free, x); }
    forall a | a in arenas ensures Accounted(arenas, free1, live1, a) {
      assert Accounted(arenas, free, live, a) && PageOk(arenas, a);
      assert PageOf(a + 12) == a;
      if arenas[a].Small? { PushAccounts(free, free1, live, b, d, a, arenas[a].desc); }
    }
  }

  lemma PushAccounts(free: seq<seq<int>>, free1: seq<seq<int>>, live: map<int, int>, b: int, d: int, a: int, e: int)
    requires |free| == |free1| == 7 && 0 <= d < 7 && 0 <= e < 7 && free1 == free[d := [b] + free[d]]
    requires a % 4096 == 0 && (e != d ==> PageOf(b) != a)
    requires forall i | 0 <= i < PerArena(e) :: var x := BlockAt(a, BlockSize(e), i); x in free[e] || x in live
    ensures forall i | 0 <= i < PerArena(e) :: var x := BlockAt(a, BlockSize(e), i); x in free1[e] || x in live - {b}
  {
    Geometry(e);
    forall i | 0 <= i < PerArena(e) ensures var x := BlockAt(a, BlockSize(e), i); x in free1[e] || x in live - {b} {
      ArenaOfBlock(a, BlockSize(e), PerArena(e), i);
    }
  }

  lemma PushedLives(h: Heap, h1: Heap, live: map<int, int>, d: int, b: int)
    requires Pushed(h, h1, d, b) && SameShape(h.arenas, h1.arenas) && PagesOk(h.arenas)
    requires LivesOk(h.arenas, h.free, live) && AllAccounted(h.arenas, h.free, live) && SizesOk(h.arenas, live)
    ensures var live1 := live - {b};
      LivesOk(h1.arenas, h1.free, live1) && AllAccounted(h1.arenas, h1.free, live1) && SizesOk(h1.arenas, live1)
  {
    PushLives(h.arenas, h.free, h1.free, live, b, d);
    ShapeLives(h.arenas, h1.arenas, h1.free, live - {b});
    ShapeKeeps(h.arenas, h1.arenas, live - {b});
  }

  lemma PushLoose(h: Heap, h1: Heap, live: map<int, int>, d: int, b: int)
    requires Inv(h, live) && Pushed(h, h1, d, b)
    ensures Loose(h1, live - {b})
  {
    PushedCounts(h, h1, d, b);
    PushedLists(h, h1, d, b);
    PushedLives(h, h1, live, d, b);
    ShapeKeeps(h.arenas, h1.arenas, live);
  }

  lemma PushInUse(arenas: map<int, Arena>, arenas1: map<int, Arena>, a: int, x: Arena)
    requires (forall y | y in arenas :: InUse(arenas, y)) && arenas1 == arenas[a := x] && InUse(arenas1, a)
    ensures forall y | y in arenas1 :: InUse(arenas1, y)
  {
    forall y | y in arenas1 ensures InUse(arenas1, y) { if y != a { assert InUse(arenas, y); } }
  }

  // ---------- giving an arena back ----------

  lemma {:induction false} MinusKeeps(list: seq<int>, s: set<int>)
    ensures forall x :: x in Minus(list, s) <==> x in list && x !in s
    ensures NoDup(list) ==> NoDup(Minus(list, s))
  {
    if list != [] {
      MinusKeeps(list[1..], s);
      assert list == [list[0]] + list[1..];
      if NoDup(list) { PopFront(list); }
    }
  }

  // Arena A has neither live blocks nor blocks on a list.
  ghost predicate Idle(free: seq<seq<int>>, live: map<int, int>, a: int) {
    && (forall b | b in live :: PageOf(b) != a)
    && forall d, b | 0 <= d < |free| && b in free[d] :: PageOf(b) != a
  }

  lemma DropLists(arenas: map<int, Arena>, free: seq<seq<int>>, live: map<int, int>, a: int)
    requires ListsOk(arenas, free) && Idle(free, live, a)
    ensures ListsOk(arenas - {a}, free)
  {
    forall d | 0 <= d < 7 ensures ListOk(arenas - {a}, free[d], d) {
      assert ListOk(arenas, free[d], d);
      forall b | b in free[d] ensures BlockIn(arenas - {a}, b, d) { assert BlockIn(arenas, b, d); }
    }
  }

  lemma DropCounts(arenas: map<int, Arena>, free: seq<seq<int>>, a: int)
    requires CountsOk(arenas, free)
    ensures CountsOk(arenas - {a}, free)
  {
    var arenas1 := arenas - {a};
    forall x | x in arenas1 ensures CountOk(arenas1, free, x) { assert CountOk(arenas, free, x); }
  }

  // ---------- a full list of an arena's blocks taken off ----------

  lemma FullListed(list: seq<int>, a: int, d: int)
    requires 0 <= d < 7 && CountFree(list, a, BlockSize(d), PerArena(d)) == PerArena(d)
    ensures forall x | x in Blocks(a, d, PerArena(d)) :: x in list
  {
    CountFull(list, a, BlockSize(d), PerArena(d));
  }

  lemma BlocksAre(a: int, d: int, b: int)
    requires a % 4096 == 0 && 0 <= d < 7
    ensures b in Blocks(a, d, PerArena(d)) <==> PageOf(b) == a && IsBlock(b, BlockSize(d), PerArena(d))
  {
    var size, n := BlockSize(d), PerArena(d);
    Geometry(d);
    if b in Blocks(a, d, n) {
      var i :| 0 <= i < n && BlockAt(a, size, i) == b;
      ArenaOfBlock(a, size, n, i);
    }
    if PageOf(b) == a && IsBlock(b, size, n) {
      BlockOfArena(b, size, n);
    }
  }

  // FREE1 is FREE with every block of arena A gone from list D.
  ghost predicate Stripped(free: seq<seq<int>>, free1: seq<seq<int>>, a: int, d: int) {
    && 0 <= d < 7 && |free| == |free1| == 7 && a % 4096 == 0 && free1 == free[d := free1[d]]
    && (forall x :: x in free1[d] <==> x in free[d] && x !in Blocks(a, d, PerArena(d)))
    && (NoDup(free[d]) ==> NoDup(free1[d]))
  }

  lemma ReleaseLists(arenas: map<int, Arena>, free: seq<seq<int>>, free1: seq<seq<int>>, a: int, d: int)
    requires Stripped(free, free1, a, d) && ListsOk(arenas, free) && a in arenas && arenas[a].Small?
      && arenas[a].desc == d
    ensures ListsOk(arenas - {a}, free1)
  {
    var arenas1 := arenas - {a};
    forall e | 0 <= e < 7 ensures ListOk(arenas1, free1[e], e) {
      assert ListOk(arenas, free[e], e);
      forall b | b in free1[e] ensures BlockIn(arenas1, b, e) {
        assert BlockIn(arenas, b, e);
        BlocksAre(a, d, b);
      }
    }
  }

  lemma ReleaseCounts(arenas: map<int, Arena>, free: seq<seq<int>>, free1: seq<seq<int>>, a: int, d: int)
    requires Stripped(free, free1, a, d) && PagesOk(arenas) && CountsOk(arenas, free)
    ensures CountsOk(arenas - {a}, free1)
  {
    var arenas1 := arenas - {a};
    Geometry(d);
    forall y | y in arenas1 ensures CountOk(arenas1, free1, y) {
      assert CountOk(arenas, free, y) && PageOk(arenas, y);
      if arenas[y].Small? && arenas[y].desc == d {
        forall i | 0 <= i < PerArena(d) ensures BlockAt(y, BlockSize(d), i) !in Blocks(a, d, PerArena(d)) {
          ArenaOfBlock(y, BlockSize(d), PerArena(d), i);
          BlocksAre(a, d, BlockAt(y, BlockSize(d), i));
        }
        CountSame(free[d], free1[d], y, BlockSize(d), PerArena(d));
      }
    }
  }

  lemma ReleaseAccounts(arenas: map<int, Arena>, free: seq<seq<int>>, free1: seq<seq<int>>, live: map<int, int>,
                        a: int, d: int, y: int)
    requires Stripped(free, free1, a, d) && y != a && y in arenas && PageOk(arenas, y)
      && Accounted(arenas, free, live, y)
    ensures Accounted(arenas - {a}, free1, live, y)
  {
    if arenas[y].Small? {
      var e := arenas[y].desc;
      Geometry(e);
      forall i | 0 <= i < PerArena(e) ensures var x := BlockAt(y, BlockSize(e), i); x in free1[e] || x in live {
        ArenaOfBlock(y, BlockSize(e), PerArena(e), i);
        BlocksAre(a, d, BlockAt(y, BlockSize(e), i));
      }
    }
  }

  lemma ReleaseLives(arenas: map<int, Arena>, free: seq<seq<int>>, free1: seq<seq<int>>, live: map<int, int>, a: int,
                     d: int)
    requires Stripped(free, free1, a, d) && LivesOk(arenas, free, live) && AllAccounted(arenas, free, live)
      && PagesOk(arenas)
    requires a in arenas && arenas[a].Small? && arenas[a].desc == d
    requires forall x | x in Blocks(a, d, PerArena(d)) :: x in free[d]
    ensures LivesOk(arenas - {a}, free1, live) && AllAccounted(arenas - {a}, free1, live)
  {
    var arenas1 := arenas - {a};
    forall b | b in live ensures LiveOk(arenas1, free1, b) {
      assert LiveOk(arenas, free, b);
      BlocksAre(a, d, b);
    }
    forall y | y in arenas1 ensures Accounted(arenas1, free1, live, y) {
      assert Accounted(arenas, free, live, y) && PageOk(arenas, y);
      ReleaseAccounts(arenas, free, free1, live, a, d, y);
    }
  }

  lemma ReleaseRest(arenas: map<int, Arena>, live: map<int, int>, a: int)
    requires PagesOk(arenas) && ArenasApart(arenas) && SizesOk(arenas, live)
    ensures PagesOk(arenas - {a}) && ArenasApart(arenas - {a}) && SizesOk(arenas - {a}, live)
  {
    var arenas1 := arenas - {a};
    forall x | x in arenas1 ensures PageOk(arenas1, x) { assert PageOk(arenas, x); }
  }

  lemma ReleaseLoose(h: Heap, h1: Heap, live: map<int, int>, a: int, d: int)
    requires Loose(h, live) && 0 <= d < 7 && a in h.arenas && h.arenas[a] == Small(d, PerArena(d))
    requires h1 == Heap(h.arenas - {a}, h.free[d := Minus(h.free[d], Blocks(a, d, PerArena(d)))])
    ensures Loose(h1, live)
  {
    assert PageOk(h.arenas, a) && CountOk(h.arenas, h.free, a);
    MinusKeeps(h.free[d], Blocks(a, d, PerArena(d)));
    assert Stripped(h.free, h1.free, a, d);
    FullListed(h.free[d], a, d);
    ReleaseLists(h.arenas, h.free, h1.free, a, d);
    ReleaseCounts(h.arenas, h.free, h1.free, a, d);
    ReleaseLives(h.arenas, h.free, h1.free, live, a, d);
    ReleaseRest(h.arenas, live, a);
  }

  lemma OthersInUse(arenas: map<int, Arena>, arenas1: map<int, Arena>, a: int)
    requires (forall y | y in arenas :: InUse(arenas, y)) && arenas1.Keys <= arenas.Keys - {a}
    requires forall y | y in arenas1 :: arenas1[y] == arenas[y]
    ensures forall y | y in arenas1 :: InUse(arenas1, y)
  {
    forall y | y in arenas1 ensures InUse(arenas1, y) { assert InUse(arenas, y); }
  }

  lemma BigIdle(h: Heap, live: map<int, int>, b: int)
    requires Inv(h, live) && b in live && PageOf(b) in h.arenas && h.arenas[PageOf(b)].Big?
    ensures Idle(h.free, live - {b}, PageOf(b))
  {
    assert LiveOk(h.arenas, h.free, b);
    forall x | x in live - {b} ensures PageOf(x) != PageOf(b) { assert LiveOk(h.arenas, h.free, x); }
    forall d, x | 0 <= d < |h.free| && x in h.free[d] ensures PageOf(x) != PageOf(b) {
      assert ListOk(h.arenas, h.free[d], d);
    }
  }

  lemma BigAccounts(arenas: map<int, Arena>, free: seq<seq<int>>, live: map<int, int>, b: int, y: int)
    requires |free| == 7 && y in arenas && y != PageOf(b) && PageOk(arenas, y) && Accounted(arenas, free, live, y)
    ensures Accounted(arenas - {PageOf(b)}, free, live - {b}, y)
  {
    match arenas[y] {
      case Big(_) => assert PageOf(y + 12) == y;
      case Small(d, _) =>
        Geometry(d);
        forall i | 0 <= i < PerArena(d) ensures var x := BlockAt(y, BlockSize(d), i); x in free[d] || x in live - {b} {
          ArenaOfBlock(y, BlockSize(d), PerArena(d), i);
        }
    }
  }

  lemma BigFreeLives(arenas: map<int, Arena>, free: seq<seq<int>>, live: map<int, int>, b: int)
    requires PagesOk(arenas) && LivesOk(arenas, free, live) && AllAccounted(arenas, free, live)
    requires forall x | x in live - {b} :: PageOf(x) != PageOf(b)
    ensures LivesOk(arenas - {PageOf(b)}, free, live - {b}) && AllAccounted(arenas - {PageOf(b)}, free, live - {b})
  {
    var arenas1, live1 := arenas - {PageOf(b)}, live - {b};
    forall x | x in live1 ensures LiveOk(arenas1, free, x) { assert LiveOk(arenas, free, x); }
    forall y | y in arenas1 ensures Accounted(arenas1, free, live1, y) {
      assert PageOk(arenas, y) && Accounted(arenas, free, live, y);
      BigAccounts(arenas, free, live, b, y);
    }
  }

  lemma BigFreeInv(h: Heap, live: map<int, int>, b: int)
    requires Inv(h, live) && b in live && PageOf(b) in h.arenas && h.arenas[PageOf(b)].Big?
    ensures Inv(Heap(h.arenas - {PageOf(b)}, h.free), live - {b})
  {
    var a := PageOf(b);
    BigIdle(h, live, b);
    DropLists(h.arenas, h.free, live - {b}, a);
    DropCounts(h.arenas, h.free, a);
    BigFreeLives(h.arenas, h.free, live, b);
    ReleaseRest(h.arenas, live - {b}, a);
    OthersInUse(h.arenas, h.arenas - {a}, a);
  }

  lemma PutSmall(h: Heap, live: map<int, int>, b: int) returns (d: int, h1: Heap)
    requires Inv(h, live) && b in live && PageOf(b) in h.arenas && h.arenas[PageOf(b)].Small?
    ensures d == h.arenas[PageOf(b)].desc && Pushed(h, h1, d, b) && Loose(h1, live - {b})
  {
    assert LiveOk(h.arenas, h.free, b);
    d := h.arenas[PageOf(b)].desc;
    h1 := Heap(h.arenas[PageOf(b) := Small(d, h.arenas[PageOf(b)].freeCnt + 1)], h.free[d := [b] + h.free[d]]);
    PushLoose(h, h1, live, d, b);
  }

  lemma LiveCanPut(h: Heap, live: map<int, int>, b: int)
    requires LivesOk(h.arenas, h.free, live) && b in live
    ensures CanPut(h, b)
  {
    assert LiveOk(h.arenas, h.free, b);
  }

  // Freeing a live block keeps the invariant; the assertion on free_cnt cannot fail.
  lemma PutInv(h: Heap, live: map<int, int>, b: int)
    requires Inv(h, live) && b in live
    ensures CanPut(h, b) && Inv(Put(h, b), live - {b})
    ensures h.arenas[PageOf(b)].Small? ==> h.arenas[PageOf(b)].freeCnt + 1 <= PerArena(h.arenas[PageOf(b)].desc)
  {
    LiveCanPut(h, live, b);
    var a := PageOf(b);
    if h.arenas[a].Big? {
      BigFreeInv(h, live, b);
    } else {
      var d, h1 := PutSmall(h, live, b);
      assert InUse(h.arenas, a);
      if h.arenas[a].freeCnt + 1 < PerArena(d) {
        PushInUse(h.arenas, h1.arenas, a, h1.arenas[a]);
      } else {
        ReleaseLoose(h1, Put(h, b), live - {b}, a, d);
        OthersInUse(h.arenas, Put(h, b).arenas, a);
      }
    }
  }

  // ---------- what the invariant means ----------

  // A live block's bytes lie in its arena behind the header.
  lemma LiveInside(h: Heap, live: map<int, int>, b: int)
    requires Inv(h, live) && b in live
    ensures PageOf(b) in h.arenas && PageOk(h.arenas, PageOf(b))
    ensures PageOf(b) + 12 <= b && b + Capacity(h.arenas, b) <= PageOf(b) + 4096 * Span(h.arenas[PageOf(b)])
    ensures live[b] <= Capacity(h.arenas, b) || Wraps(live[b])
  {
    assert LiveOk(h.arenas, h.free, b);
    assert PageOk(h.arenas, PageOf(b));
    if h.arenas[PageOf(b)].Small? {
      var d := h.arenas[PageOf(b)].desc;
      Geometry(d);
      BlockOfArena(b, BlockSize(d), PerArena(d));
      Bounds(BlockSize(d), PerArena(d), IndexOf(b, BlockSize(d)));
    }
  }

  // Live blocks do not overlap.
  lemma LiveApart(h: Heap, live: map<int, int>, b: int, c: int)
    requires Inv(h, live) && b in live && c in live && b < c
    ensures PageOf(b) in h.arenas && PageOk(h.arenas, PageOf(b)) && b + Capacity(h.arenas, b) <= c
  {
    LiveInside(h, live, b);
    LiveInside(h, live, c);
    if PageOf(b) == PageOf(c) {
      assert LiveOk(h.arenas, h.free, b) && LiveOk(h.arenas, h.free, c);
      assert h.arenas[PageOf(b)].Small?;
      var d := h.arenas[PageOf(b)].desc;
      SamePageApart(b, c, BlockSize(d), PerArena(d));
    } else {
      assert PageOf(b) < PageOf(c);
    }
  }

  lemma SamePageApart(b: int, c: int, size: int, n: int)
    requires 0 < size && IsBlock(b, size, n) && IsBlock(c, size, n) && PageOf(b) == PageOf(c) && b < c
    ensures b + size <= c
  {
    BlockOfArena(b, size, n);
    BlockOfArena(c, size, n);
    var i, j := IndexOf(b, size), IndexOf(c, size);
    if j < i { BlocksApart(PageOf(b), size, j, i); }
    if i < j { BlocksApart(PageOf(b), size, i, j); }
  }

  // No live block covers an arena header.
  lemma HeaderClear(h: Heap, live: map<int, int>, b: int, a: int)
    requires Inv(h, live) && b in live && a in h.arenas
    ensures PageOf(b) in h.arenas && PageOk(h.arenas, PageOf(b))
    ensures a + 12 <= b || b + Capacity(h.arenas, b) <= a
  {
    LiveInside(h, live, b);
    assert PageOk(h.arenas, a);
    if a < PageOf(b) { assert a + 4096 * Span(h.arenas[a]) <= PageOf(b); }
  }
}
