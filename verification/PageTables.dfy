// userprog/pagedir.c: the two-level page tables of the 80x86 as a map.

module PageTables {
  import opened Options
  import opened PageEntries

  // Page directories and page tables, by the address of their page.
  type Tables = map<int, seq<int>>

  predicate IsTable(t: Tables, a: int) { a in t && |t[a]| == 1024 }

  predicate PdeOk(t: Tables, pd: int, i: int)
    requires IsTable(t, pd) && 0 <= i < 1024
  {
    t[pd][i] == 0 || (Present(t[pd][i]) && IsTable(t, PageOf(t[pd][i])) && PageOf(t[pd][i]) != pd)
  }

  // Each user entry of the directory is empty or points to a table of its own.
  predicate DirOk(t: Tables, pd: int) {
    && IsTable(t, pd)
    && (forall i | 0 <= i < 768 :: PdeOk(t, pd, i))
    && (forall i, k | 0 <= i < 768 && 0 <= k < 768 && i != k && t[pd][i] != 0 && t[pd][k] != 0 ::
          PageOf(t[pd][i]) != PageOf(t[pd][k]))
  }

  // The entry for table index J under directory index I.
  function EntryAt(t: Tables, pd: int, i: int, j: int): (e: Option<int>)
    requires DirOk(t, pd) && 0 <= i < 768 && 0 <= j < 1024
  {
    assert PdeOk(t, pd, i);
    if t[pd][i] == 0 then None else Some(t[PageOf(t[pd][i])][j])
  }

  datatype Mapping = Mapping(page: int, writable: bool)

  // The map that the tables stand for.
  function Mapped(t: Tables, pd: int, i: int, j: int): (m: Option<Mapping>)
    requires DirOk(t, pd) && 0 <= i < 768 && 0 <= j < 1024
  {
    var e := EntryAt(t, pd, i, j);
    if e.Some? && Present(e.value) then Some(Mapping(PageOf(e.value), Writable(e.value))) else None
  }

  function MappedAt(t: Tables, pd: int, va: int): (m: Option<Mapping>)
    requires DirOk(t, pd) && 0 <= va < PHYS_BASE
  {
    IndicesSplit(va);
    Mapped(t, pd, PdNo(va), PtNo(va))
  }

  // Only the mapping of index pair (I, J) may differ.
  ghost predicate SameBut(t: Tables, t1: Tables, pd: int, i: int, j: int) {
    && DirOk(t, pd) && DirOk(t1, pd)
    && (forall k, l | 0 <= k < 768 && 0 <= l < 1024 && !(k == i && l == j) ::
        Mapped(t1, pd, k, l) == Mapped(t, pd, k, l))
    && (forall k | 768 <= k < 1024 :: t1[pd][k] == t[pd][k])
  }

  // lookup_page with CREATE: a new, zeroed table at GRANT where there is none.
  function WithTable(t: Tables, pd: int, i: int, grant: Option<int>): (t1: Tables)
    requires IsTable(t, pd) && 0 <= i < 1024
  {
    if t[pd][i] == 0 && grant.Some? then
      t[grant.value := seq(1024, _ => 0)][pd := t[pd][i := PdeCreate(grant.value)]]
    else t
  }

  // Entry J of the table under directory index I written.
  function WithEntry(t: Tables, pd: int, i: int, j: int, e: int): (t1: Tables)
    requires DirOk(t, pd) && 0 <= i < 768 && 0 <= j < 1024 && t[pd][i] != 0
  {
    assert PdeOk(t, pd, i);
    var pt := PageOf(t[pd][i]);
    t[pt := t[pt][j := e]]
  }

  // A new, zeroed table at GRANT under directory index I.
  lemma NewTable(t: Tables, pd: int, i: int, grant: int)
    requires DirOk(t, pd) && 0 <= i < 768 && t[pd][i] == 0 && IsPage(grant) && grant !in t
    ensures var t1 := WithTable(t, pd, i, Some(grant));
      && DirOk(t1, pd) && t1[pd][i] != 0 && PageOf(t1[pd][i]) == grant
      && (forall k | 0 <= k < 1024 && k != i :: t1[pd][k] == t[pd][k])
      && (forall k, l | 0 <= k < 768 && 0 <= l < 1024 :: Mapped(t1, pd, k, l) == Mapped(t, pd, k, l))
  {
    var t1 := t[grant := seq(1024, _ => 0)][pd := t[pd][i := PdeCreate(grant)]];
    EntriesPoint(grant, true);
    forall k | 0 <= k < 768 ensures PdeOk(t1, pd, k) { assert PdeOk(t, pd, k); }
    forall k, m | 0 <= k < 768 && 0 <= m < 768 && k != m && t1[pd][k] != 0 && t1[pd][m] != 0
      ensures PageOf(t1[pd][k]) != PageOf(t1[pd][m])
    {
      assert PdeOk(t, pd, k) && PdeOk(t, pd, m);
    }
    forall k, l | 0 <= k < 768 && 0 <= l < 1024 ensures Mapped(t1, pd, k, l) == Mapped(t, pd, k, l) {
      assert PdeOk(t, pd, k);
    }
  }

  // One entry of one table written.
  lemma EntryWritten(t: Tables, pd: int, i: int, j: int, e: int)
    requires DirOk(t, pd) && 0 <= i < 768 && 0 <= j < 1024 && t[pd][i] != 0
    ensures var t1 := WithEntry(t, pd, i, j, e);
      && SameBut(t, t1, pd, i, j) && t1[pd] == t[pd]
      && Mapped(t1, pd, i, j) == if Present(e) then Some(Mapping(PageOf(e), Writable(e))) else None
  {
    assert PdeOk(t, pd, i);
    var pt := PageOf(t[pd][i]);
    var t1 := t[pt := t[pt][j := e]];
    forall k | 0 <= k < 768 ensures PdeOk(t1, pd, k) { assert PdeOk(t, pd, k); }
    forall k, l | 0 <= k < 768 && 0 <= l < 1024 && !(k == i && l == j)
      ensures Mapped(t1, pd, k, l) == Mapped(t, pd, k, l)
    {
      assert PdeOk(t, pd, k);
    }
  }

  // The tables after pagedir_set_page; they are as before if it fails.
  function SetIn(t: Tables, pd: int, upage: int, kpage: int, writable: bool, grant: Option<int>): (t1: Tables)
    requires DirOk(t, pd) && 0 <= upage < PHYS_BASE && (grant.Some? ==> IsPage(grant.value) && grant.value !in t)
  {
    IndicesSplit(upage);
    var i := PdNo(upage);
    if t[pd][i] == 0 && grant == None then t
    else
      if t[pd][i] == 0 then NewTable(t, pd, i, grant.value);
        WithEntry(WithTable(t, pd, i, grant), pd, i, PtNo(upage), PteCreateUser(kpage, writable))
      else WithEntry(t, pd, i, PtNo(upage), PteCreateUser(kpage, writable))
  }

  // The tables after pagedir_clear_page.
  function ClearIn(t: Tables, pd: int, upage: int): (t1: Tables)
    requires DirOk(t, pd) && 0 <= upage < PHYS_BASE
  {
    IndicesSplit(upage);
    var e := EntryAt(t, pd, PdNo(upage), PtNo(upage));
    if e == None || !Present(e.value) then t else WithEntry(t, pd, PdNo(upage), PtNo(upage), Absent(e.value))
  }
}
