// userprog/pagedir.c: from pagedir_create to pagedir_destroy, every page is given back once.

module PageTaken {
  import opened Options
  import opened Seqs
  import opened PageEntries
  import opened PageTables
  import opened PageDestroy

  // ---------- pages in use ----------

  predicate IsTableOf(t: Tables, pd: int, x: int)
    requires DirOk(t, pd)
  {
    exists k | 0 <= k < 768 :: t[pd][k] != 0 && PageOf(t[pd][k]) == x
  }

  predicate Maps(t: Tables, pd: int, k: int, l: int, x: int)
    requires DirOk(t, pd) && 0 <= k < 768 && 0 <= l < 1024
  {
    Mapped(t, pd, k, l).Some? && Mapped(t, pd, k, l).value.page == x
  }

  predicate IsMapped(t: Tables, pd: int, x: int)
    requires DirOk(t, pd)
  {
    exists k, l | 0 <= k < 768 && 0 <= l < 1024 :: Maps(t, pd, k, l, x)
  }

  predicate InUse(t: Tables, pd: int, x: int)
    requires DirOk(t, pd)
  {
    x == pd || IsTableOf(t, pd, x) || IsMapped(t, pd, x)
  }

  // What pagedir_destroy gives back is what is in use.
  lemma InUseIsFreed(t: Tables, pd: int, x: int)
    requires DirOk(t, pd)
    ensures x in Destroyed(t, pd) <==> InUse(t, pd, x)
  {
    DestroyedAre(t, pd, x);
    forall k | 0 <= k < 768 ensures Under(t, pd, k, x) ==> InUse(t, pd, x) {
      UnderMapped(t, pd, k, x);
      if l :| 0 <= l < 1024 && Mapped(t, pd, k, l).Some? && Mapped(t, pd, k, l).value.page == x {
        assert Maps(t, pd, k, l, x);
      }
    }
    if IsTableOf(t, pd, x) {
      var k :| 0 <= k < 768 && t[pd][k] != 0 && PageOf(t[pd][k]) == x;
      UnderMapped(t, pd, k, x);
    } else if IsMapped(t, pd, x) {
      var k, l :| 0 <= k < 768 && 0 <= l < 1024 && Maps(t, pd, k, l, x);
      UnderMapped(t, pd, k, x);
    }
  }

  // ---------- one change ----------

  // A new table: its page joins the tables, and is no frame exactly when it was none.
  lemma TableAdded(t: Tables, pd: int, i: int, grant: int)
    requires DirOk(t, pd) && 0 <= i < 768 && t[pd][i] == 0 && IsPage(grant) && grant !in t
    ensures var t1 := WithTable(t, pd, i, Some(grant));
      && DirOk(t1, pd) && (forall x :: IsMapped(t1, pd, x) <==> IsMapped(t, pd, x))
      && (forall x :: IsTableOf(t1, pd, x) <==> IsTableOf(t, pd, x) || x == grant)
  {
    NewTable(t, pd, i, grant);
    var t1 := WithTable(t, pd, i, Some(grant));
    forall x ensures IsMapped(t1, pd, x) <==> IsMapped(t, pd, x) { SameMapped(t, t1, pd, x); }
    forall x ensures IsTableOf(t1, pd, x) <==> IsTableOf(t, pd, x) || x == grant {
      if IsTableOf(t, pd, x) {
        var k :| 0 <= k < 768 && t[pd][k] != 0 && PageOf(t[pd][k]) == x;
        assert t1[pd][k] == t[pd][k];
      }
    }
  }

  lemma SameMapped(t: Tables, t1: Tables, pd: int, x: int)
    requires DirOk(t, pd) && DirOk(t1, pd)
    requires forall k, l | 0 <= k < 768 && 0 <= l < 1024 :: Mapped(t1, pd, k, l) == Mapped(t, pd, k, l)
    ensures IsMapped(t1, pd, x) <==> IsMapped(t, pd, x)
  {
    if IsMapped(t, pd, x) {
      var k, l :| 0 <= k < 768 && 0 <= l < 1024 && Maps(t, pd, k, l, x);
      assert Maps(t1, pd, k, l, x);
    }
    if IsMapped(t1, pd, x) {
      var k, l :| 0 <= k < 768 && 0 <= l < 1024 && Maps(t1, pd, k, l, x);
      assert Maps(t, pd, k, l, x);
    }
  }

  lemma TableInjective(t: Tables, pd: int, i: int, grant: int)
    requires DirOk(t, pd) && Injective(t, pd) && 0 <= i < 768 && t[pd][i] == 0 && IsPage(grant) && grant !in t
    ensures var t1 := WithTable(t, pd, i, Some(grant));
      DirOk(t1, pd) && (Injective(t1, pd) <==> !IsMapped(t, pd, grant))
  {
    NewTable(t, pd, i, grant);
    var t1 := WithTable(t, pd, i, Some(grant));
    if IsMapped(t, pd, grant) {
      var k, l :| 0 <= k < 768 && 0 <= l < 1024 && Maps(t, pd, k, l, grant);
      assert Mapped(t1, pd, k, l).Some? && Mapped(t1, pd, k, l).value.page == PageOf(t1[pd][i]);
    } else {
      forall k, l | 0 <= k < 768 && 0 <= l < 1024 && Mapped(t1, pd, k, l).Some?
        ensures Mapped(t1, pd, k, l).value.page != grant
      {
        assert !Maps(t, pd, k, l, grant);
      }
    }
  }

  // A new entry: its frame joins the mapping, and nothing is shared exactly when it was not in use.
  lemma EntryAdded(t: Tables, pd: int, i: int, j: int, e: int)
    requires DirOk(t, pd) && 0 <= i < 768 && 0 <= j < 1024 && t[pd][i] != 0
    requires Mapped(t, pd, i, j) == None && Present(e)
    ensures var t1 := WithEntry(t, pd, i, j, e);
      && DirOk(t1, pd) && (forall x :: IsTableOf(t1, pd, x) <==> IsTableOf(t, pd, x))
      && (forall x :: IsMapped(t1, pd, x) <==> IsMapped(t, pd, x) || x == PageOf(e))
  {
    EntryWritten(t, pd, i, j, e);
    var t1 := WithEntry(t, pd, i, j, e);
    assert Maps(t1, pd, i, j, PageOf(e));
    forall x ensures IsMapped(t1, pd, x) <==> IsMapped(t, pd, x) || x == PageOf(e) {
      if IsMapped(t, pd, x) {
        var k, l :| 0 <= k < 768 && 0 <= l < 1024 && Maps(t, pd, k, l, x);
        assert Maps(t1, pd, k, l, x);
      }
      if IsMapped(t1, pd, x) {
        var k, l :| 0 <= k < 768 && 0 <= l < 1024 && Maps(t1, pd, k, l, x);
        assert (k == i && l == j) || Maps(t, pd, k, l, x);
      }
    }
  }

  lemma EntryInjective(t: Tables, pd: int, i: int, j: int, e: int)
    requires DirOk(t, pd) && 0 <= i < 768 && 0 <= j < 1024 && t[pd][i] != 0
    requires Mapped(t, pd, i, j) == None && Present(e)
    ensures var t1 := WithEntry(t, pd, i, j, e);
      DirOk(t1, pd) && (Injective(t1, pd) <==> Injective(t, pd) && !InUse(t, pd, PageOf(e)))
  {
    EntryWritten(t, pd, i, j, e);
    var t1 := WithEntry(t, pd, i, j, e);
    if Injective(t1, pd) { EntryNeeds(t, t1, pd, i, j, PageOf(e)); }
    if Injective(t, pd) && !InUse(t, pd, PageOf(e)) { EntryKeeps(t, t1, pd, i, j, PageOf(e)); }
  }

  lemma EntryNeeds(t: Tables, t1: Tables, pd: int, i: int, j: int, x: int)
    requires SameBut(t, t1, pd, i, j) && t1[pd] == t[pd] && 0 <= i < 768 && 0 <= j < 1024
    requires Mapped(t, pd, i, j) == None && Maps(t1, pd, i, j, x) && Injective(t1, pd)
    ensures Injective(t, pd) && !InUse(t, pd, x)
  {
    forall k, l | 0 <= k < 768 && 0 <= l < 1024 ensures !Maps(t, pd, k, l, x) {
      assert (k == i && l == j) || Mapped(t1, pd, k, l) == Mapped(t, pd, k, l);
    }
  }

  lemma EntryKeeps(t: Tables, t1: Tables, pd: int, i: int, j: int, x: int)
    requires SameBut(t, t1, pd, i, j) && t1[pd] == t[pd] && 0 <= i < 768 && 0 <= j < 1024
    requires Mapped(t, pd, i, j) == None && Maps(t1, pd, i, j, x) && Injective(t, pd) && !InUse(t, pd, x)
    ensures Injective(t1, pd)
  {
    forall k, l | 0 <= k < 768 && 0 <= l < 1024 && (k != i || l != j) && Mapped(t1, pd, k, l).Some?
      ensures Mapped(t1, pd, k, l).value.page != x
    {
      assert !Maps(t, pd, k, l, x);
    }
  }

  // An entry cleared: its frame leaves the mapping.
  lemma EntryCleared(t: Tables, pd: int, i: int, j: int, e: int)
    requires DirOk(t, pd) && Injective(t, pd) && 0 <= i < 768 && 0 <= j < 1024 && t[pd][i] != 0
    requires Mapped(t, pd, i, j).Some? && !Present(e)
    ensures var t1 := WithEntry(t, pd, i, j, e); var y := Mapped(t, pd, i, j).value.page;
      && DirOk(t1, pd) && Injective(t1, pd) && (forall x :: IsTableOf(t1, pd, x) <==> IsTableOf(t, pd, x))
      && (forall x :: IsMapped(t1, pd, x) <==> IsMapped(t, pd, x) && x != y)
  {
    EntryWritten(t, pd, i, j, e);
    var t1 := WithEntry(t, pd, i, j, e);
    var y := Mapped(t, pd, i, j).value.page;
    forall x ensures IsMapped(t1, pd, x) <==> IsMapped(t, pd, x) && x != y {
      if IsMapped(t, pd, x) && x != y {
        var k, l :| 0 <= k < 768 && 0 <= l < 1024 && Maps(t, pd, k, l, x);
        assert Maps(t1, pd, k, l, x);
      }
      if IsMapped(t1, pd, x) {
        var k, l :| 0 <= k < 768 && 0 <= l < 1024 && Maps(t1, pd, k, l, x);
        assert Maps(t, pd, k, l, x);
      }
    }
  }

  // ---------- calls ----------

  datatype Change = Set(upage: int, kpage: int, writable: bool, grant: Option<int>) | Clear(upage: int)

  // What the assertions of the two calls demand, and that a page for a table is none.
  predicate MayChange(t: Tables, pd: int, c: Change) {
    && DirOk(t, pd) && 0 <= c.upage < PHYS_BASE && c.upage % 4096 == 0
    && match c
       case Set(upage, kpage, _, grant) =>
         IsPage(kpage) && MappedAt(t, pd, upage) == None && (grant.Some? ==> IsPage(grant.value) && grant.value !in t)
       case Clear(_) => true
  }

  function Changed(t: Tables, pd: int, c: Change): (t1: Tables)
    requires MayChange(t, pd, c)
  {
    match c
    case Set(upage, kpage, writable, grant) => SetIn(t, pd, upage, kpage, writable, grant)
    case Clear(upage) => ClearIn(t, pd, upage)
  }

  // The call makes a table.
  predicate MakesTable(t: Tables, pd: int, c: Change)
    requires MayChange(t, pd, c)
  {
    IndicesSplit(c.upage);
    c.Set? && t[pd][PdNo(c.upage)] == 0 && c.grant.Some?
  }

  // The call maps its page.
  predicate Succeeds(t: Tables, pd: int, c: Change)
    requires MayChange(t, pd, c)
  {
    IndicesSplit(c.upage);
    c.Set? && (t[pd][PdNo(c.upage)] != 0 || c.grant.Some?)
  }

  // The pages that a call uses are not in use, and are two if it uses two.
  predicate Fresh(t: Tables, pd: int, c: Change)
    requires MayChange(t, pd, c)
  {
    && (Succeeds(t, pd, c) ==> !InUse(t, pd, c.kpage))
    && (MakesTable(t, pd, c) ==> !InUse(t, pd, c.grant.value) && c.grant.value != c.kpage)
  }

  lemma SetChanges(t: Tables, pd: int, c: Change)
    requires MayChange(t, pd, c) && c.Set?
    ensures var t1 := Changed(t, pd, c);
      && DirOk(t1, pd)
      && forall x :: InUse(t1, pd, x) <==>
           InUse(t, pd, x) || (Succeeds(t, pd, c) && x == c.kpage) || (MakesTable(t, pd, c) && x == c.grant.value)
  {
    IndicesSplit(c.upage);
    var i, e := PdNo(c.upage), PteCreateUser(c.kpage, c.writable);
    EntriesPoint(c.kpage, c.writable);
    if MakesTable(t, pd, c) {
      NewTable(t, pd, i, c.grant.value);
      TableAdded(t, pd, i, c.grant.value);
      EntryAdded(WithTable(t, pd, i, c.grant), pd, i, PtNo(c.upage), e);
    } else if Succeeds(t, pd, c) {
      EntryAdded(t, pd, i, PtNo(c.upage), e);
    }
  }

  lemma SetInjective(t: Tables, pd: int, c: Change)
    requires MayChange(t, pd, c) && c.Set? && Injective(t, pd)
    ensures DirOk(Changed(t, pd, c), pd) && (Injective(Changed(t, pd, c), pd) <==> Fresh(t, pd, c))
  {
    IndicesSplit(c.upage);
    var i, e := PdNo(c.upage), PteCreateUser(c.kpage, c.writable);
    EntriesPoint(c.kpage, c.writable);
    if MakesTable(t, pd, c) {
      NewTable(t, pd, i, c.grant.value);
      TableAdded(t, pd, i, c.grant.value);
      TableInjective(t, pd, i, c.grant.value);
      EntryInjective(WithTable(t, pd, i, c.grant), pd, i, PtNo(c.upage), e);
      NotTable(t, pd, c.grant.value);
    } else if Succeeds(t, pd, c) {
      EntryInjective(t, pd, i, PtNo(c.upage), e);
    }
  }

  lemma NotTable(t: Tables, pd: int, x: int)
    requires DirOk(t, pd) && x !in t
    ensures x != pd && !IsTableOf(t, pd, x)
  {
    forall k | 0 <= k < 768 && t[pd][k] != 0 ensures PageOf(t[pd][k]) != x { assert PdeOk(t, pd, k); }
  }

  // The page that a call takes out of the mapping.
  function Dropped(t: Tables, pd: int, c: Change): (s: set<int>)
    requires MayChange(t, pd, c)
  {
    var m := MappedAt(t, pd, c.upage);
    if c.Clear? && m.Some? then {m.value.page} else {}
  }

  // The pages that a call takes into use.
  function Added(t: Tables, pd: int, c: Change): (s: set<int>)
    requires MayChange(t, pd, c)
  {
    (if Succeeds(t, pd, c) then {c.kpage} else {}) + (if MakesTable(t, pd, c) then {c.grant.value} else {})
  }

  lemma ClearChanges(t: Tables, pd: int, c: Change)
    requires MayChange(t, pd, c) && c.Clear? && Injective(t, pd)
    ensures var t1 := Changed(t, pd, c);
      DirOk(t1, pd) && Injective(t1, pd) && forall x :: InUse(t1, pd, x) <==> InUse(t, pd, x) && x !in Dropped(t, pd, c)
  {
    IndicesSplit(c.upage);
    var i, j := PdNo(c.upage), PtNo(c.upage);
    if Mapped(t, pd, i, j).Some? {
      var e := EntryAt(t, pd, i, j).value;
      AbsentKeeps(e);
      EntryCleared(t, pd, i, j, Absent(e));
      FrameOnly(t, pd, i, j);
    }
  }

  // A frame in the mapping is nothing else.
  lemma FrameOnly(t: Tables, pd: int, i: int, j: int)
    requires DirOk(t, pd) && Injective(t, pd) && 0 <= i < 768 && 0 <= j < 1024 && Mapped(t, pd, i, j).Some?
    ensures Mapped(t, pd, i, j).value.page != pd && !IsTableOf(t, pd, Mapped(t, pd, i, j).value.page)
  {}

  // A call keeps frames and tables apart exactly when what it uses is fresh; then the pages in use
  // change by what it adds and drops.
  lemma ChangeExact(t: Tables, pd: int, c: Change)
    requires MayChange(t, pd, c) && Injective(t, pd)
    ensures var t1 := Changed(t, pd, c);
      && DirOk(t1, pd) && (Injective(t1, pd) <==> Fresh(t, pd, c))
      && forall x :: InUse(t1, pd, x) <==> (InUse(t, pd, x) && x !in Dropped(t, pd, c)) || x in Added(t, pd, c)
  {
    if c.Set? {
      SetChanges(t, pd, c);
      SetInjective(t, pd, c);
    } else {
      ClearChanges(t, pd, c);
    }
  }

  // ---------- runs ----------

  ghost predicate IsRun(ts: seq<Tables>, pd: int, cs: seq<Change>) {
    && |ts| == |cs| + 1
    && forall i | 0 <= i < |cs| ::
         MayChange(ts[i], pd, cs[i]) && Fresh(ts[i], pd, cs[i]) && ts[i + 1] == Changed(ts[i], pd, cs[i])
  }

  // pagedir_create: no user entries.
  predicate Empty(t: Tables, pd: int) {
    IsTable(t, pd) && forall k | 0 <= k < 768 :: t[pd][k] == 0
  }

  // The pages taken since, and not dropped.
  function Taken(ts: seq<Tables>, pd: int, cs: seq<Change>): (s: set<int>)
    requires IsRun(ts, pd, cs)
    decreases |cs|
  {
    if cs == [] then {pd}
    else
      var n := |cs| - 1;
      assert IsRun(ts[..n + 1], pd, cs[..n]);
      Taken(ts[..n + 1], pd, cs[..n]) - Dropped(ts[n], pd, cs[n]) + Added(ts[n], pd, cs[n])
  }

  lemma {:induction false} TakenInUse(ts: seq<Tables>, pd: int, cs: seq<Change>)
    requires IsRun(ts, pd, cs) && Empty(ts[0], pd)
    ensures DirOk(ts[|cs|], pd) && Injective(ts[|cs|], pd)
    ensures forall x :: x in Taken(ts, pd, cs) <==> InUse(ts[|cs|], pd, x)
    decreases |cs|
  {
    if cs != [] {
      var n := |cs| - 1;
      assert IsRun(ts[..n + 1], pd, cs[..n]);
      TakenInUse(ts[..n + 1], pd, cs[..n]);
      assert ts[..n + 1][n] == ts[n];
      ChangeExact(ts[n], pd, cs[n]);
    }
  }

  // From pagedir_create on, with fresh pages, pagedir_destroy gives back exactly the pages that were
  // taken and not dropped, each once.
  lemma AllGivenBack(ts: seq<Tables>, pd: int, cs: seq<Change>, x: int)
    requires IsRun(ts, pd, cs) && Empty(ts[0], pd)
    ensures DirOk(ts[|cs|], pd) && NoDup(Destroyed(ts[|cs|], pd))
    ensures x in Destroyed(ts[|cs|], pd) <==> x in Taken(ts, pd, cs)
  {
    TakenInUse(ts, pd, cs);
    DestroyedOnce(ts[|cs|], pd);
    InUseIsFreed(ts[|cs|], pd, x);
  }
}
