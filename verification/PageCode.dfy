// userprog/pagedir.c: the code.

module PageCode {
  import opened Options
  import opened PageEntries
  import opened PageTables
  import opened PageDestroy

  class Paging {
    var t: Tables

    // lookup_page: the table and the index in it; GRANT is what the page allocator would answer.
    method LookupPage(pd: int, va: int, create: bool, grant: Option<int>) returns (r: Option<(int, int)>)
      requires DirOk(t, pd) && 0 <= va < 0x1_0000_0000 && (grant.Some? ==> IsPage(grant.value) && grant.value !in t)
      requires PdNo(va) < 768 || (PdNo(va) < 1024 && !create && PdeOk(t, pd, PdNo(va)))
      modifies this
      ensures DirOk(t, pd) && 0 <= PdNo(va) < 1024 && 0 <= PtNo(va) < 1024
      ensures t == if create then WithTable(old(t), pd, PdNo(va), grant) else old(t)
      ensures r == None <==> t[pd][PdNo(va)] == 0
      ensures r.Some? ==> r.value == (PageOf(t[pd][PdNo(va)]), PtNo(va)) && IsTable(t, r.value.0)
      ensures forall k, l | 0 <= k < 768 && 0 <= l < 1024 :: Mapped(t, pd, k, l) == old(Mapped(t, pd, k, l))
    {
      var i := PdNo(va);
      assert i < 768 ==> PdeOk(t, pd, i);
      if t[pd][i] == 0 {
        if !create || grant == None { return None; }
        NewTable(t, pd, i, grant.value);
        t := t[grant.value := seq(1024, _ => 0)][pd := t[pd][i := PdeCreate(grant.value)]];
        assert PdeOk(t, pd, i);
      }
      return Some((PageOf(t[pd][i]), PtNo(va)));
    }

    // pagedir_set_page; the page must not be mapped yet.
    method SetPage(pd: int, upage: int, kpage: int, writable: bool, grant: Option<int>) returns (ok: bool)
      requires DirOk(t, pd) && 0 <= upage < PHYS_BASE && upage % 4096 == 0 && IsPage(kpage)
      requires MappedAt(t, pd, upage) == None && (grant.Some? ==> IsPage(grant.value) && grant.value !in t)
      modifies this
      ensures SameBut(old(t), t, pd, PdNo(upage), PtNo(upage))
      ensures t == SetIn(old(t), pd, upage, kpage, writable, grant)
      ensures ok ==> MappedAt(t, pd, upage) == Some(Mapping(kpage, writable))
      ensures !ok ==> t == old(t)
      ensures 0 <= PdNo(upage) < 768 && (ok <==> old(t[pd][PdNo(upage)]) != 0 || grant.Some?)
    {
      IndicesSplit(upage);
      var pte := LookupPage(pd, upage, true, grant);
      if pte == None { return false; }
      var (pt, j) := pte.value;
      EntriesPoint(kpage, writable);
      EntryWritten(t, pd, PdNo(upage), j, PteCreateUser(kpage, writable));
      t := t[pt := t[pt][j := PteCreateUser(kpage, writable)]];
      return true;
    }

    // pagedir_get_page: the kernel address of the byte at UADDR.
    method GetPage(pd: int, uaddr: int) returns (r: Option<int>)
      requires DirOk(t, pd) && 0 <= uaddr < PHYS_BASE
      modifies this
      ensures t == old(t)
      ensures r == if MappedAt(t, pd, uaddr) == None then None
        else Some(MappedAt(t, pd, uaddr).value.page + uaddr % 4096)
    {
      IndicesSplit(uaddr);
      var pte := LookupPage(pd, uaddr, false, None);
      if pte == None { return None; }
      var e := t[pte.value.0][pte.value.1];
      return if Present(e) then Some(PageOf(e) + uaddr % 4096) else None;
    }

    // pagedir_clear_page; the page need not be mapped.
    method ClearPage(pd: int, upage: int)
      requires DirOk(t, pd) && 0 <= upage < PHYS_BASE && upage % 4096 == 0
      modifies this
      ensures SameBut(old(t), t, pd, PdNo(upage), PtNo(upage)) && MappedAt(t, pd, upage) == None
      ensures t == ClearIn(old(t), pd, upage)
    {
      IndicesSplit(upage);
      var pte := LookupPage(pd, upage, false, None);
      if pte == None { return; }
      var (pt, j) := pte.value;
      var e := t[pt][j];
      if Present(e) {
        AbsentKeeps(e);
        EntryWritten(t, pd, PdNo(upage), j, Absent(e));
        t := t[pt := t[pt][j := Absent(e)]];
      }
    }

    // pagedir_destroy: the pages given back, in order.
    method Destroy(pd: int) returns (freed: seq<int>)
      requires DirOk(t, pd)
      ensures freed == Destroyed(t, pd)
    {
      freed := [];
      var i := 0;
      while i < 768
        invariant 0 <= i <= 768 && freed == Freed(t, pd, i)
      {
        assert PdeOk(t, pd, i);
        if Present(t[pd][i]) {
          var pt := PageOf(t[pd][i]);
          var frames := FreeFrames(t[pt]);
          freed := freed + frames + [pt];
        }
        i := i + 1;
      }
      freed := freed + [pd];
    }

    method FreeFrames(table: seq<int>) returns (frames: seq<int>)
      requires |table| == 1024
      ensures frames == Frames(table, 1024)
    {
      frames := [];
      var j := 0;
      while j < 1024
        invariant 0 <= j <= 1024 && frames == Frames(table, j)
      {
        if Present(table[j]) { frames := frames + [PageOf(table[j])]; }
        j := j + 1;
      }
    }
  }
}
