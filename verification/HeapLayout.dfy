// threads/malloc.c: where blocks lie.  Blocks of seven sizes are cut from one-page
// arenas; bigger blocks take whole pages.

module HeapLayout {
  import opened Arithmetic

  // Size of a descriptor's blocks and number of blocks in an arena.
  datatype Desc = Desc(blockSize: int, blocksPerArena: int)

  function DescOf(size: int): (d: Desc)
    requires 0 < size
  {
    Desc(size, (4096 - 12) / size)
  }

  const DESCS: seq<Desc> :=
    [Desc(16, 255), Desc(32, 127), Desc(64, 63), Desc(128, 31), Desc(256, 15), Desc(512, 7), Desc(1024, 3)]

  // The table of descriptors, with the assertion that it has room for ten.
  method MallocInit() returns (descs: seq<Desc>)
    ensures descs == DESCS
    ensures forall i | 0 <= i < |descs| :: descs[i] == DescOf(descs[i].blockSize)
    ensures forall i | 0 < i < |descs| :: descs[i].blockSize == 2 * descs[i - 1].blockSize
  {
    descs := [];
    var size := 16;
    while size < 4096 / 2
      invariant |descs| <= 7 && descs == DESCS[..|descs|]
      invariant size == if |descs| == 0 then 16 else 2 * DESCS[|descs| - 1].blockSize
      decreases 7 - |descs|
    {
      descs := descs + [DescOf(size)];
      assert |descs| <= 10;
      size := size * 2;
    }
  }

  function BlockSize(d: int): (size: int)
    requires 0 <= d < 7
    ensures 16 <= size <= 1024
  {
    DESCS[d].blockSize
  }

  function PerArena(d: int): (n: int)
    requires 0 <= d < 7
    ensures 3 <= n <= 255
  {
    DESCS[d].blocksPerArena
  }

  // Blocks of SIZE bytes, N of them, fit in a page behind the arena header.
  predicate Fits(size: int, n: int) { 0 < size && 0 <= n && 12 + n * size <= 4096 }

  lemma Geometry(d: int)
    requires 0 <= d < 7
    ensures Fits(BlockSize(d), PerArena(d))
  {}

  function PageOf(b: int): (a: int) { b - b % 4096 }

  // arena_to_block.
  function BlockAt(a: int, size: int, i: int): (b: int) { a + 12 + i * size }

  function IndexOf(b: int, size: int): (i: int)
    requires 0 < size
  {
    (b % 4096 - 12) / size
  }

  // block_to_arena's checks on the place of a small block.
  predicate IsBlock(b: int, size: int, n: int)
    requires 0 < size
  {
    12 <= b % 4096 && (b % 4096 - 12) % size == 0 && IndexOf(b, size) < n
  }

  lemma Bounds(size: int, n: int, i: int)
    requires Fits(size, n) && 0 <= i < n
    ensures 0 <= i * size && i * size + size <= 4084
  {
    MulMono(i + 1, n, size);
    MulMono(0, i, size);
    Distribute(i, 1, size);
  }

  lemma PageOffset(a: int, o: int)
    requires a % 4096 == 0 && 0 <= o < 4096
    ensures (a + o) % 4096 == o
  {}

  lemma DivExact(i: int, size: int)
    requires 0 < size
    ensures (i * size) / size == i && (i * size) % size == 0
  {
    FloorIs(i * size, size, i);
    Floor(i * size, size);
  }

  // block_to_arena undoes arena_to_block.
  lemma ArenaOfBlock(a: int, size: int, n: int, i: int)
    requires a % 4096 == 0 && Fits(size, n) && 0 <= i < n
    ensures PageOf(BlockAt(a, size, i)) == a
    ensures IsBlock(BlockAt(a, size, i), size, n) && IndexOf(BlockAt(a, size, i), size) == i
  {
    Bounds(size, n, i);
    PageOffset(a, 12 + i * size);
    DivExact(i, size);
  }

  // And every checked block is one that arena_to_block gives.
  lemma BlockOfArena(b: int, size: int, n: int)
    requires 0 < size && IsBlock(b, size, n)
    ensures 0 <= IndexOf(b, size) < n && b == BlockAt(PageOf(b), size, IndexOf(b, size))
    ensures PageOf(b) % 4096 == 0
  {
    Floor(b % 4096 - 12, size);
    FloorNonNeg(b % 4096 - 12, size);
  }

  lemma BlocksApart(a: int, size: int, i: int, j: int)
    requires 0 < size && i < j
    ensures BlockAt(a, size, i) + size <= BlockAt(a, size, j)
  {
    MulMono(i + 1, j, size);
    Distribute(i, 1, size);
  }

  // All blocks of the arena at A.
  function Carved(a: int, size: int, n: int): (s: seq<int>)
    requires 0 <= n
    ensures |s| == n && forall i | 0 <= i < n :: s[i] == BlockAt(a, size, i)
  {
    seq(n, i => BlockAt(a, size, i))
  }

  // How many of its N blocks are on LIST.
  function CountFree(list: seq<int>, a: int, size: int, n: int): (c: int)
    ensures 0 <= c && (0 <= n ==> c <= n)
    decreases n
  {
    if n <= 0 then 0 else CountFree(list, a, size, n - 1) + if BlockAt(a, size, n - 1) in list then 1 else 0
  }

  lemma {:induction false} CountSame(l1: seq<int>, l2: seq<int>, a: int, size: int, n: int)
    requires forall i | 0 <= i < n :: BlockAt(a, size, i) in l1 <==> BlockAt(a, size, i) in l2
    ensures CountFree(l1, a, size, n) == CountFree(l2, a, size, n)
    decreases n
  {
    if n > 0 { CountSame(l1, l2, a, size, n - 1); }
  }

  // L2 holds one more of the blocks than L1: block K.
  lemma {:induction false} CountOneMore(l1: seq<int>, l2: seq<int>, a: int, size: int, n: int, k: int)
    requires 0 <= k < n && BlockAt(a, size, k) !in l1 && BlockAt(a, size, k) in l2
    requires forall i | 0 <= i < n && i != k :: BlockAt(a, size, i) in l1 <==> BlockAt(a, size, i) in l2
    ensures CountFree(l2, a, size, n) == CountFree(l1, a, size, n) + 1
    decreases n
  {
    if k < n - 1 {
      CountOneMore(l1, l2, a, size, n - 1, k);
    } else {
      CountSame(l1, l2, a, size, n - 1);
    }
  }

  lemma {:induction false} CountFull(list: seq<int>, a: int, size: int, n: int)
    requires 0 <= n
    ensures CountFree(list, a, size, n) == n <==> forall i | 0 <= i < n :: BlockAt(a, size, i) in list
    decreases n
  {
    if n > 0 { CountFull(list, a, size, n - 1); }
  }
}
