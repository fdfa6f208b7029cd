// threads/palloc.c: two pools of pages handed out next-fit.

module PagePools {
  import opened Options
  import opened BitRuns
  import BitWords

  // A pool: the address of its first page and its bitmap of used pages.
  datatype Pool = Pool(base: int, used: seq<bool>)

  datatype Memory = Memory(kernel: Pool, user: Pool, cursor: int)

  // What a request ends in; Panic is a failed assertion or PANIC.
  datatype Outcome = Panic | Null | Pages(addr: int)

  function PoolFor(m: Memory, user: bool): (p: Pool) { if user then m.user else m.kernel }

  function WithUsed(m: Memory, user: bool, used: seq<bool>): (r: Memory) {
    if user then m.(user := m.user.(used := used)) else m.(kernel := m.kernel.(used := used))
  }

  // PAGES whole pages from BASE on lie in a 32-bit address space and leave out address 0.
  predicate Placed(base: int, pages: int) {
    0 < base && base % 4096 == 0 && base + 4096 * pages <= 0x1_0000_0000
  }

  predicate PoolOk(p: Pool) { Placed(p.base, |p.used|) }

  // Whole pools, one before the other.
  predicate MemoryOk(m: Memory) {
    PoolOk(m.kernel) && PoolOk(m.user) && m.kernel.base + 4096 * |m.kernel.used| <= m.user.base && 0 <= m.cursor
  }

  // First free group from the cursor on, then from the start.
  function NextFit(used: seq<bool>, cursor: int, cnt: int): (r: Option<int>) {
    var r := Search(used, cursor, cnt, false);
    if r.Some? then r else Search(used, 0, cnt, false)
  }

  // The cursor as left behind: a byte address, with BITMAP_ERROR standing in for a missing index.
  function CursorAfter(base: int, r: Option<int>, cnt: int): (c: int) {
    (base + 4096 * ((if r.Some? then r.value else 0xFFFF_FFFF) + cnt)) % 0x1_0000_0000
  }

  function Get(m: Memory, user: bool, mustSucceed: bool, cnt: int): (r: (Memory, Outcome))
    requires MemoryOk(m) && 0 <= cnt
  {
    var p := PoolFor(m, user);
    if cnt == 0 then (m, Null)
    else if m.cursor > |p.used| then (m, Panic)
    else
      var r := NextFit(p.used, m.cursor, cnt);
      NextFitFree(p.used, m.cursor, cnt);
      var moved := m.(cursor := CursorAfter(p.base, r, cnt));
      if r.Some? then (WithUsed(moved, user, Filled(p.used, r.value, cnt, true)), Pages(p.base + 4096 * r.value))
      else (moved, if mustSucceed then Panic else Null)
  }

  predicate FromPool(p: Pool, addr: int) {
    p.base / 4096 <= addr / 4096 < p.base / 4096 + |p.used|
  }

  // None is a failed assertion.
  function Free(m: Memory, addr: int, cnt: int): (r: Option<Memory>)
    requires 0 <= cnt
  {
    if addr % 4096 != 0 then None
    else if addr == 0 || cnt == 0 then Some(m)
    else if !FromPool(m.kernel, addr) && !FromPool(m.user, addr) then None
    else
      var user := !FromPool(m.kernel, addr);
      var p := PoolFor(m, user);
      var i := addr / 4096 - p.base / 4096;
      if RunAt(p.used, i, cnt, true) then Some(WithUsed(m, user, Filled(p.used, i, cnt, false))) else None
  }

  // ---------- start-up ----------

  // Bytes for a bitmap of N bits with its header.
  function BitmapBufSize(n: int): (b: int) { 8 + BitWords.ByteCnt(n) }

  function BitmapPages(n: int): (b: int) { (BitmapBufSize(n) + 4095) / 4096 }

  // A pool of PAGES pages at START keeps its bitmap in its first pages; None is a PANIC.
  function InitPool(start: int, pages: int): (p: Option<Pool>)
    requires 0 <= pages
  {
    var bm := BitmapPages(pages);
    if bm > pages then None else Some(Pool(start + 4096 * bm, seq(pages - bm, _ => false)))
  }

  // The free memory between START and END, at most USERLIMIT pages of it for the user pool.
  function Init(start: int, end: int, userLimit: int): (m: Option<Memory>)
    requires start <= end && 0 <= userLimit
  {
    var free := (end - start) / 4096;
    var user := UserShare(free, userLimit);
    var kernel := free - user;
    var k := InitPool(start, kernel);
    if k == None then None
    else
      var u := InitPool(start + 4096 * kernel, user);
      if u == None then None else Some(Memory(k.value, u.value, 0))
  }

  // The bitmap fits below the pool's first page, and the pages below the end.
  lemma InitPoolFits(start: int, pages: int)
    requires 0 <= pages && InitPool(start, pages).Some?
    ensures var p := InitPool(start, pages).value;
      && start + BitmapBufSize(|p.used|) <= p.base < start + BitmapBufSize(pages) + 4096
      && p.base + 4096 * |p.used| == start + 4096 * pages
      && p.base % 4096 == start % 4096 && RunAt(p.used, 0, |p.used|, false)
  {}

  function UserShare(free: int, userLimit: int): (user: int) {
    if free / 2 > userLimit then userLimit else free / 2
  }

  // Start-up yields whole pools, apart, inside the free memory, with every page free.
  lemma InitOk(start: int, end: int, userLimit: int)
    requires 0 <= start && start % 4096 == 0 && start <= end <= 0x1_0000_0000 && 0 <= userLimit
    requires Init(start, end, userLimit).Some?
    ensures var m := Init(start, end, userLimit).value;
      && MemoryOk(m) && start < m.kernel.base
      && m.user.base + 4096 * |m.user.used| <= end < m.user.base + 4096 * |m.user.used| + 4096
      && RunAt(m.kernel.used, 0, |m.kernel.used|, false) && RunAt(m.user.used, 0, |m.user.used|, false)
    ensures var m := Init(start, end, userLimit).value; var half := (end - start) / 4096 / 2;
      m.user.base + 4096 * |m.user.used| - (m.kernel.base + 4096 * |m.kernel.used|)
        == 4096 * if half < userLimit then half else userLimit
  {
    var free := (end - start) / 4096;
    var user := UserShare(free, userLimit);
    InitPoolFits(start, free - user);
    InitPoolFits(start + 4096 * (free - user), user);
  }

  // The same with every number spelled out.
  lemma InitIs(start: int, end: int, userLimit: int, kernel: int, user: int)
    requires 0 <= start && start % 4096 == 0 && start <= end <= 0x1_0000_0000 && 0 <= userLimit
    requires user == UserShare((end - start) / 4096, userLimit) && kernel == (end - start) / 4096 - user
    requires Init(start, end, userLimit).Some?
    ensures BitmapPages(kernel) <= kernel && BitmapPages(user) <= user
    ensures var m := Init(start, end, userLimit).value;
      && MemoryOk(m) && m.cursor == 0
      && m.kernel.base == start + 4096 * BitmapPages(kernel)
      && m.kernel.used == seq(kernel - BitmapPages(kernel), _ => false)
      && m.user.base == start + 4096 * kernel + 4096 * BitmapPages(user)
      && m.user.used == seq(user - BitmapPages(user), _ => false)
  {
    InitOk(start, end, userLimit);
  }

  // ---------- one request ----------

  lemma NextFitFree(used: seq<bool>, cursor: int, cnt: int)
    requires 0 <= cursor && 0 <= cnt
    ensures NextFit(used, cursor, cnt).Some? ==> RunAt(used, NextFit(used, cursor, cnt).value, cnt, false)
  {
    SearchFinds(used, cursor, cnt, false);
    SearchFinds(used, 0, cnt, false);
  }

  // Next fit misses no free group, wherever the cursor stands.
  lemma NextFitComplete(used: seq<bool>, cursor: int, cnt: int)
    requires 0 <= cursor && 0 <= cnt
    ensures NextFit(used, cursor, cnt) == None <==> NoRun(used, 0, cnt, false)
  {
    SearchFinds(used, cursor, cnt, false);
    SearchFinds(used, 0, cnt, false);
    var r := NextFit(used, cursor, cnt);
    if r.Some? { assert RunAt(used, r.value, cnt, false); }
  }

  // Which requests are granted, which come back empty and which stop the kernel.
  lemma GetOutcome(m: Memory, user: bool, mustSucceed: bool, cnt: int)
    requires MemoryOk(m) && 0 < cnt
    ensures var used := PoolFor(m, user).used; var o := Get(m, user, mustSucceed, cnt).1;
      && (o.Panic? <==> m.cursor > |used| || (mustSucceed && NoRun(used, 0, cnt, false)))
      && (o.Null? <==> m.cursor <= |used| && !mustSucceed && NoRun(used, 0, cnt, false))
      && (o.Pages? <==> m.cursor <= |used| && !NoRun(used, 0, cnt, false))
  {
    NextFitComplete(PoolFor(m, user).used, m.cursor, cnt);
  }

  // A request that fails leaves the address of the page before its CNT pages, were they at the pool's start.
  lemma FailureCursor(base: int, cnt: int)
    ensures CursorAfter(base, None, cnt) == (base + 4096 * (cnt - 1)) % 0x1_0000_0000
  {
    var x := base + 4096 * (cnt - 1);
    assert base + 4096 * (0xFFFF_FFFF + cnt) == x + 4096 * 0x1_0000_0000;
  }

  // So what the next request meets can be told from the size of the one that failed.
  lemma AfterFailure(m: Memory, user: bool, cnt: int, user2: bool, cnt2: int)
    requires MemoryOk(m) && 0 < cnt && 0 < cnt2 && Get(m, user, false, cnt).1 == Null
    ensures MemoryOk(Get(m, user, false, cnt).0)
    ensures Get(Get(m, user, false, cnt).0, user2, false, cnt2).1 == Panic
       <==> (PoolFor(m, user).base + 4096 * (cnt - 1)) % 0x1_0000_0000 > |PoolFor(m, user2).used|
  {
    FailureCursor(PoolFor(m, user).base, cnt);
    var m1 := Get(m, user, false, cnt).0;
    assert m1.cursor == CursorAfter(PoolFor(m, user).base, None, cnt);
    GetOutcome(m1, user2, false, cnt2);
  }

  // Page index I of pool P, and the group of CNT pages at ADDR as indices.
  function IndexIn(p: Pool, addr: int): (i: int) { (addr - p.base) / 4096 }

  // A grant takes free pages of its own pool and touches nothing else but the cursor.
  lemma GetGrants(m: Memory, user: bool, mustSucceed: bool, cnt: int)
    requires MemoryOk(m) && 0 < cnt && Get(m, user, mustSucceed, cnt).1.Pages?
    ensures var (m1, o) := Get(m, user, mustSucceed, cnt); var p := PoolFor(m, user); var i := IndexIn(p, o.addr);
      && o.addr == p.base + 4096 * i && RunAt(p.used, i, cnt, false)
      && m1 == WithUsed(m, user, Filled(p.used, i, cnt, true)).(cursor := m1.cursor)
  {
    var p := PoolFor(m, user);
    NextFitFree(p.used, m.cursor, cnt);
    var r := NextFit(p.used, m.cursor, cnt);
    assert (p.base + 4096 * r.value - p.base) / 4096 == r.value;
  }

  // The pages granted are the first free group at or after the cursor or, for want of one, the first of all.
  lemma GrantIsNext(m: Memory, user: bool, mustSucceed: bool, cnt: int)
    requires MemoryOk(m) && 0 < cnt && Get(m, user, mustSucceed, cnt).1.Pages?
    ensures var p := PoolFor(m, user); var i := IndexIn(p, Get(m, user, mustSucceed, cnt).1.addr);
      FirstRun(p.used, if NoRun(p.used, m.cursor, cnt, false) then 0 else m.cursor, cnt, false, Some(i))
  {
    var p := PoolFor(m, user);
    SearchFinds(p.used, m.cursor, cnt, false);
    SearchFinds(p.used, 0, cnt, false);
    var r, s := NextFit(p.used, m.cursor, cnt), Search(p.used, m.cursor, cnt, false);
    if s.Some? { assert RunAt(p.used, s.value, cnt, false); }
    assert (p.base + 4096 * r.value - p.base) / 4096 == r.value;
  }

  // Freeing what was just granted gives both pools back bit for bit.
  lemma FreeRestores(m: Memory, user: bool, mustSucceed: bool, cnt: int)
    requires MemoryOk(m) && 0 < cnt && Get(m, user, mustSucceed, cnt).1.Pages?
    ensures var (m1, o) := Get(m, user, mustSucceed, cnt);
      Free(m1, o.addr, cnt) == Some(m.(cursor := m1.cursor))
  {
    var (m1, o) := Get(m, user, mustSucceed, cnt);
    var p := PoolFor(m, user);
    var i := IndexIn(p, o.addr);
    GetGrants(m, user, mustSucceed, cnt);
    FillUndone(p.used, i, cnt, false);
    assert FromPool(m1.kernel, o.addr) <==> !user;
    assert o.addr / 4096 - p.base / 4096 == i;
  }
}
