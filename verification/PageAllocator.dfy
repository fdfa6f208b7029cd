// threads/palloc.c: the code, on two word-packed bitmaps.

module PageAllocator {
  import opened Options
  import opened BitRuns
  import opened PagePools
  import Bitmaps

  class Allocator {
    const kernelBase: int
    const kernelMap: Bitmaps.Bitmap
    const userBase: int
    const userMap: Bitmaps.Bitmap
    var nextfitStart: int

    ghost predicate Valid()
      reads this
    {
      && kernelMap.Valid() && userMap.Valid() && kernelMap.bits != userMap.bits
      && Placed(kernelBase, kernelMap.bitCnt) && Placed(userBase, userMap.bitCnt)
      && kernelBase + 4096 * kernelMap.bitCnt <= userBase && 0 <= nextfitStart
    }

    ghost function View(): (m: Memory)
      requires Valid()
      reads this, kernelMap.bits, userMap.bits
      ensures MemoryOk(m)
    {
      Memory(Pool(kernelBase, kernelMap.Bits()), Pool(userBase, userMap.Bits()), nextfitStart)
    }

    // Start-up that does not end in a PANIC.
    constructor (start: int, end: int, userLimit: int)
      requires 0 <= start && start % 4096 == 0 && start <= end <= 0x1_0000_0000 && 0 <= userLimit
      requires Init(start, end, userLimit).Some?
      ensures Valid() && View() == Init(start, end, userLimit).value
    {
      var user := UserShare((end - start) / 4096, userLimit);
      var kernel := (end - start) / 4096 - user;
      InitIs(start, end, userLimit, kernel, user);
      kernelBase := start + 4096 * BitmapPages(kernel);
      kernelMap := new Bitmaps.Bitmap(kernel - BitmapPages(kernel));
      userBase := start + 4096 * kernel + 4096 * BitmapPages(user);
      userMap := new Bitmaps.Bitmap(user - BitmapPages(user));
      nextfitStart := 0;
    }

    method FindPages(bm: Bitmaps.Bitmap, pageCnt: int) returns (r: Option<int>)
      requires bm.Valid() && 0 <= nextfitStart <= bm.bitCnt && 0 <= pageCnt
      modifies `nextfitStart, bm.bits
      ensures 0 <= nextfitStart && r == NextFit(old(bm.Bits()), old(nextfitStart), pageCnt)
      ensures r == None ==> bm.Bits() == old(bm.Bits())
      ensures r.Some? ==> RunAt(old(bm.Bits()), r.value, pageCnt, false)
      ensures r.Some? ==> bm.Bits() == Filled(old(bm.Bits()), r.value, pageCnt, true)
    {
      r := bm.ScanAndFlip(nextfitStart, pageCnt, false);
      if r == None {
        nextfitStart := 0;
        r := bm.ScanAndFlip(nextfitStart, pageCnt, false);
      }
    }

    method GetMultiple(user: bool, mustSucceed: bool, pageCnt: int) returns (o: Outcome)
      requires Valid() && 0 <= pageCnt
      modifies this, kernelMap.bits, userMap.bits
      ensures Valid() && (View(), o) == Get(old(View()), user, mustSucceed, pageCnt)
    {
      if pageCnt == 0 { return Null; }
      var bm, base := if user then userMap else kernelMap, if user then userBase else kernelBase;
      if nextfitStart > bm.bitCnt { return Panic; }
      var r := FindPages(bm, pageCnt);
      nextfitStart := CursorAfter(base, r, pageCnt);
      if r.Some? {
        o := Pages(base + 4096 * r.value);
      } else {
        o := if mustSucceed then Panic else Null;
      }
    }

    method FreeMultiple(pages: int, pageCnt: int) returns (ok: bool)
      requires Valid() && 0 <= pageCnt
      modifies kernelMap.bits, userMap.bits
      ensures Valid() && ok == Free(old(View()), pages, pageCnt).Some?
      ensures View() == if ok then Free(old(View()), pages, pageCnt).value else old(View())
    {
      if pages % 4096 != 0 { return false; }
      if pages == 0 || pageCnt == 0 { return true; }
      var bm, base := kernelMap, kernelBase;
      if !(kernelBase / 4096 <= pages / 4096 < kernelBase / 4096 + kernelMap.bitCnt) {
        if !(userBase / 4096 <= pages / 4096 < userBase / 4096 + userMap.bitCnt) { return false; }
        bm, base := userMap, userBase;
      }
      var i := pages / 4096 - base / 4096;
      if i + pageCnt > bm.bitCnt { return false; }
      var unset := bm.Contains(i, pageCnt, false);
      if unset { return false; }
      bm.SetMultiple(i, pageCnt, false);
      return true;
    }
  }
}
