// threads/malloc.c: the code, with its loops.

module HeapCode {
  import opened Options
  import opened HeapLayout
  import opened HeapModel

  lemma {:induction false} MinusMinus(list: seq<int>, s: set<int>, x: int)
    ensures Minus(Minus(list, s), {x}) == Minus(list, s + {x})
  {
    if list != [] {
      MinusMinus(list[1..], s, x);
      if list[0] !in s {
        assert ([list[0]] + Minus(list[1..], s))[1..] == Minus(list[1..], s);
      }
    }
  }

  lemma {:induction false} MinusNothing(list: seq<int>)
    ensures Minus(list, {}) == list
  {
    if list != [] { MinusNothing(list[1..]); }
  }

  lemma NoneRemoved(list: seq<int>, a: int, d: int)
    requires 0 <= d < 7
    ensures Minus(list, Blocks(a, d, 0)) == list
  {
    assert Blocks(a, d, 0) == {};
    MinusNothing(list);
  }

  // What the assertions of free() and block_to_arena ask of a block.
  predicate Freeable(h: Heap, b: int) {
    && CanPut(h, b) && PageOf(b) != 0
    && match h.arenas[PageOf(b)]
       case Big(_) => b % 4096 == 12
       case Small(d, c) =>
         && (b % 4096 - 12) % BlockSize(d) == 0 && c + 1 <= PerArena(d)
         && (c + 1 == PerArena(d) ==> CountFree([b] + h.free[d], PageOf(b), BlockSize(d), PerArena(d)) == PerArena(d))
  }

  // Every live block passes them.
  lemma LiveFreeable(h: Heap, live: map<int, int>, b: int)
    requires Inv(h, live) && b in live
    ensures Freeable(h, b)
  {
    PutInv(h, live, b);
    assert LiveOk(h.arenas, h.free, b) && PageOk(h.arenas, PageOf(b));
    if h.arenas[PageOf(b)].Small? {
      var d, h1 := PutSmall(h, live, b);
      assert CountOk(h1.arenas, h1.free, PageOf(b));
    }
  }

  // LIST after its arena's first I blocks are removed one by one.
  ghost function OneByOne(list: seq<int>, a: int, size: int, i: int): (r: seq<int>)
    decreases i
  {
    if i <= 0 then list else Minus(OneByOne(list, a, size, i - 1), {BlockAt(a, size, i - 1)})
  }

  lemma {:induction false} OneByOneIs(list: seq<int>, a: int, d: int, i: int)
    requires 0 <= d < 7 && 0 <= i
    ensures OneByOne(list, a, BlockSize(d), i) == Minus(list, Blocks(a, d, i))
    decreases i
  {
    if i == 0 {
      NoneRemoved(list, a, d);
    } else {
      OneByOneIs(list, a, d, i - 1);
      MinusMinus(list, Blocks(a, d, i - 1), BlockAt(a, BlockSize(d), i - 1));
      assert Blocks(a, d, i - 1) + {BlockAt(a, BlockSize(d), i - 1)} == Blocks(a, d, i);
    }
  }

  // Each block is still on the list when its turn comes.
  lemma StillListed(list: seq<int>, a: int, d: int, i: int)
    requires 0 <= d < 7 && 0 <= i < PerArena(d) && CountFree(list, a, BlockSize(d), PerArena(d)) == PerArena(d)
    ensures BlockAt(a, BlockSize(d), i) in OneByOne(list, a, BlockSize(d), i)
  {
    var x := BlockAt(a, BlockSize(d), i);
    CountFull(list, a, BlockSize(d), PerArena(d));
    forall j | 0 <= j < i ensures BlockAt(a, BlockSize(d), j) != x { BlocksApart(a, BlockSize(d), j, i); }
    OneByOneIs(list, a, d, i);
    MinusKeeps(list, Blocks(a, d, i));
  }

  class Allocator {
    var arenas: map<int, Arena>
    var free: seq<seq<int>>

    constructor ()
      ensures View() == Heap(map[], seq(7, _ => []))
    {
      arenas := map[];
      free := seq(7, _ => []);
    }

    ghost function View(): (h: Heap)
      reads this
    {
      Heap(arenas, free)
    }

    // Puts a header on page A and its blocks on list D.
    method AddArena(a: int, d: int)
      requires 0 <= d < 7 && |free| == 7
      modifies this
      ensures View() == NewArena(old(View()), a, d)
    {
      arenas := arenas[a := Small(d, PerArena(d))];
      var i := 0;
      ghost var list := free[d];
      while i < PerArena(d)
        invariant 0 <= i <= PerArena(d) && |free| == 7
        invariant arenas == old(arenas)[a := Small(d, PerArena(d))]
        invariant free == old(free)[d := free[d]] && free[d] == list + Carved(a, BlockSize(d), i)
      {
        free := free[d := free[d] + [BlockAt(a, BlockSize(d), i)]];
        i := i + 1;
      }
    }

    method Pop(d: int) returns (b: int)
      requires CanTake(View(), d)
      modifies this
      ensures b == old(free)[d][0] && View() == Take(old(View()), d)
    {
      b := free[d][0];
      free := free[d := free[d][1..]];
      var a := PageOf(b);
      arenas := arenas[a := arenas[a].(freeCnt := arenas[a].freeCnt - 1)];
    }

    // GRANT is what the page allocator would answer.
    method MallocBlock(size: int, grant: Option<int>) returns (b: Option<int>)
      requires Ready(View()) && 0 <= size && (grant.Some? ==> grant.value % 4096 == 0)
      modifies this
      ensures (View(), b) == Malloc(old(View()), size, grant)
    {
      if size == 0 { return None; }
      var d := 0;
      while d < 7 && BlockSize(d) < size
        invariant 0 <= d <= 7
        invariant forall e | 0 <= e < d :: BlockSize(e) < size
      {
        d := d + 1;
      }
      assert d == DescFor(size);
      if d == 7 {
        var pageCnt := PagesFor(size);
        if pageCnt == 0 || grant == None { return None; }
        arenas := arenas[grant.value := Big(pageCnt)];
        return Some(grant.value + 12);
      }
      if free[d] == [] {
        if grant == None { return None; }
        NewArenaIs(View(), grant.value, d);
        AddArena(grant.value, d);
      }
      var block := Pop(d);
      b := Some(block);
    }

    method ListRemove(d: int, x: int)
      requires 0 <= d < |free| && x in free[d]
      modifies `free
      ensures free == old(free)[d := Minus(old(free)[d], {x})]
    {
      free := free[d := Minus(free[d], {x})];
    }

    // Takes a full arena's blocks off list D.
    method Strip(a: int, d: int)
      requires 0 <= d < 7 && |free| == 7 && CountFree(free[d], a, BlockSize(d), PerArena(d)) == PerArena(d)
      modifies `free
      ensures free == old(free)[d := Minus(old(free)[d], Blocks(a, d, PerArena(d)))]
    {
      ghost var list := free[d];
      var i := 0;
      while i < PerArena(d)
        invariant 0 <= i <= PerArena(d)
        invariant |free| == 7 && free == old(free)[d := free[d]] && free[d] == OneByOne(list, a, BlockSize(d), i)
      {
        StillListed(list, a, d, i);
        ListRemove(d, BlockAt(a, BlockSize(d), i));
        i := i + 1;
      }
      OneByOneIs(list, a, d, i);
    }

    // A small block goes on its list, and a full arena back to the page allocator.
    method FreeSmall(b: int, a: int, d: int, c: int) returns (kept: bool)
      requires Freeable(View(), b) && a == PageOf(b) && arenas[a] == Small(d, c)
      modifies this
      ensures View() == Put(old(View()), b) && kept == (a in arenas)
    {
      free := free[d := [b] + free[d]];
      if c + 1 >= PerArena(d) {
        assert c + 1 == PerArena(d);
        Strip(a, d);
        arenas := arenas - {a};
        return false;
      }
      arenas := arenas[a := Small(d, c + 1)];
      return true;
    }

    // RETURNED is what goes back to the page allocator.
    method FreeBlock(b: int) returns (returned: Option<(int, int)>)
      requires Freeable(View(), b)
      modifies this
      ensures View() == Put(old(View()), b)
      ensures returned == if PageOf(b) in arenas then None else Some((PageOf(b), Span(old(arenas)[PageOf(b)])))
    {
      var a := PageOf(b);
      match arenas[a] {
        case Big(n) =>
          arenas := arenas - {a};
          return Some((a, n));
        case Small(d, c) =>
          var kept := FreeSmall(b, a, d, c);
          return if kept then None else Some((a, 1));
      }
    }
  }
}
