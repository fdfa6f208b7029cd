// userprog/pagedir.c: everything that pagedir_destroy gives back.

module PageDestroy {
  import opened Seqs
  import opened PageEntries
  import opened PageTables

  // Pages of the present entries among the first J of a table.
  function Frames(table: seq<int>, j: int): (s: seq<int>)
    requires 0 <= j <= |table|
    decreases j
  {
    if j == 0 then []
    else if Present(table[j - 1]) then Frames(table, j - 1) + [PageOf(table[j - 1])]
    else Frames(table, j - 1)
  }

  // What the first I entries of the directory give back: their frames, then their table.
  function Freed(t: Tables, pd: int, i: int): (s: seq<int>)
    requires DirOk(t, pd) && 0 <= i <= 768
    decreases i
  {
    if i == 0 then []
    else if Present(t[pd][i - 1]) then
      assert PdeOk(t, pd, i - 1);
      var pt := PageOf(t[pd][i - 1]);
      Freed(t, pd, i - 1) + Frames(t[pt], 1024) + [pt]
    else Freed(t, pd, i - 1)
  }

  function Destroyed(t: Tables, pd: int): (s: seq<int>)
    requires DirOk(t, pd)
  {
    Freed(t, pd, 768) + [pd]
  }

  // ---------- what is freed ----------

  predicate IsFrame(table: seq<int>, j: int, x: int)
    requires 0 <= j <= |table|
  {
    exists l | 0 <= l < j :: Present(table[l]) && PageOf(table[l]) == x
  }

  lemma {:induction false} FramesAre(table: seq<int>, j: int, x: int)
    requires 0 <= j <= |table|
    ensures x in Frames(table, j) <==> IsFrame(table, j, x)
    decreases j
  {
    if j > 0 {
      FramesAre(table, j - 1, x);
      if IsFrame(table, j, x) {
        var l :| 0 <= l < j && Present(table[l]) && PageOf(table[l]) == x;
        assert l < j - 1 ==> IsFrame(table, j - 1, x);
      }
      if IsFrame(table, j - 1, x) {
        var l :| 0 <= l < j - 1 && Present(table[l]) && PageOf(table[l]) == x;
        assert IsFrame(table, j, x);
      }
    }
  }

  // Page X is the table or a frame under directory index K.
  predicate Under(t: Tables, pd: int, k: int, x: int)
    requires DirOk(t, pd) && 0 <= k < 768
  {
    assert PdeOk(t, pd, k);
    t[pd][k] != 0 && (x == PageOf(t[pd][k]) || IsFrame(t[PageOf(t[pd][k])], 1024, x))
  }

  lemma {:induction false} FreedAre(t: Tables, pd: int, i: int, x: int)
    requires DirOk(t, pd) && 0 <= i <= 768
    ensures x in Freed(t, pd, i) <==> exists k | 0 <= k < i :: Under(t, pd, k, x)
    decreases i
  {
    if i > 0 {
      FreedAre(t, pd, i - 1, x);
      assert PdeOk(t, pd, i - 1);
      if t[pd][i - 1] != 0 { FramesAre(t[PageOf(t[pd][i - 1])], 1024, x); }
      assert x in Freed(t, pd, i) <==> x in Freed(t, pd, i - 1) || Under(t, pd, i - 1, x);
      if exists k | 0 <= k < i :: Under(t, pd, k, x) {
        var k :| 0 <= k < i && Under(t, pd, k, x);
        assert k < i - 1 || k == i - 1;
      }
    }
  }

  // Every frame in the mapping, every table and the directory are given back, and nothing else.
  lemma DestroyedAre(t: Tables, pd: int, x: int)
    requires DirOk(t, pd)
    ensures x in Destroyed(t, pd) <==> x == pd || exists k | 0 <= k < 768 :: Under(t, pd, k, x)
  {
    FreedAre(t, pd, 768, x);
  }

  lemma UnderMapped(t: Tables, pd: int, k: int, x: int)
    requires DirOk(t, pd) && 0 <= k < 768
    ensures Under(t, pd, k, x) <==>
      (t[pd][k] != 0 && x == PageOf(t[pd][k]))
      || exists l | 0 <= l < 1024 :: Mapped(t, pd, k, l).Some? && Mapped(t, pd, k, l).value.page == x
  {
    assert PdeOk(t, pd, k);
    if t[pd][k] != 0 {
      var table := t[PageOf(t[pd][k])];
      if IsFrame(table, 1024, x) {
        var l :| 0 <= l < 1024 && Present(table[l]) && PageOf(table[l]) == x;
        assert Mapped(t, pd, k, l).Some? && Mapped(t, pd, k, l).value.page == x;
      }
      if l :| 0 <= l < 1024 && Mapped(t, pd, k, l).Some? && Mapped(t, pd, k, l).value.page == x {
        assert Present(table[l]) && PageOf(table[l]) == x;
      }
    }
  }

  // ---------- once each ----------

  // No frame is mapped twice, and none is a table or the directory.
  ghost predicate Injective(t: Tables, pd: int)
    requires DirOk(t, pd)
  {
    && (forall i, j, k, l | 0 <= i < 768 && 0 <= j < 1024 && 0 <= k < 768 && 0 <= l < 1024 && (i != k || j != l)
          && Mapped(t, pd, i, j).Some? && Mapped(t, pd, k, l).Some? ::
            Mapped(t, pd, i, j).value.page != Mapped(t, pd, k, l).value.page)
    && (forall i, j | 0 <= i < 768 && 0 <= j < 1024 && Mapped(t, pd, i, j).Some? ::
          Mapped(t, pd, i, j).value.page != pd && forall k | 0 <= k < 768 && t[pd][k] != 0 ::
            Mapped(t, pd, i, j).value.page != PageOf(t[pd][k]))
  }

  lemma {:induction false} FramesOnce(t: Tables, pd: int, k: int, j: int)
    requires DirOk(t, pd) && Injective(t, pd) && 0 <= k < 768 && t[pd][k] != 0 && 0 <= j <= 1024
    ensures PdeOk(t, pd, k) && NoDup(Frames(t[PageOf(t[pd][k])], j))
    decreases j
  {
    assert PdeOk(t, pd, k);
    var table := t[PageOf(t[pd][k])];
    if j > 0 {
      FramesOnce(t, pd, k, j - 1);
      if Present(table[j - 1]) {
        var x := PageOf(table[j - 1]);
        FramesAre(table, j - 1, x);
        forall l | 0 <= l < j - 1 && Present(table[l]) ensures PageOf(table[l]) != x {
          assert Mapped(t, pd, k, l).Some? && Mapped(t, pd, k, j - 1).Some?;
        }
        PushBack(Frames(table, j - 1), x);
      }
    }
  }

  lemma NoDupConcat(a: seq<int>, b: seq<int>)
    requires NoDup(a) && NoDup(b) && forall x | x in a :: x !in b
    ensures NoDup(a + b)
  {
    var s := a + b;
    forall i, j | 0 <= i < j < |s| ensures s[i] != s[j] {
      if i < |a| <= j { assert s[i] in a && s[j] == b[j - |a|]; }
    }
  }

  // A page is under one directory index at most, and a table is no frame of its own.
  lemma UnderOnce(t: Tables, pd: int, i: int, k: int, x: int)
    requires DirOk(t, pd) && Injective(t, pd) && 0 <= i < 768 && 0 <= k < 768 && i != k && Under(t, pd, i, x)
    ensures !Under(t, pd, k, x) && x != pd
  {
    assert PdeOk(t, pd, i) && PdeOk(t, pd, k);
    var ti := t[PageOf(t[pd][i])];
    if x == PageOf(t[pd][i]) {
      forall l | 0 <= l < 1024 && Mapped(t, pd, k, l).Some? ensures Mapped(t, pd, k, l).value.page != x {}
    } else {
      var j :| 0 <= j < 1024 && Present(ti[j]) && PageOf(ti[j]) == x;
      assert Mapped(t, pd, i, j).Some? && Mapped(t, pd, i, j).value.page == x;
    }
    UnderMapped(t, pd, k, x);
  }

  lemma OwnTable(t: Tables, pd: int, k: int)
    requires DirOk(t, pd) && Injective(t, pd) && 0 <= k < 768 && t[pd][k] != 0
    ensures PdeOk(t, pd, k) && !IsFrame(t[PageOf(t[pd][k])], 1024, PageOf(t[pd][k]))
  {
    assert PdeOk(t, pd, k);
    var pt := PageOf(t[pd][k]);
    forall l | 0 <= l < 1024 && Present(t[pt][l]) ensures PageOf(t[pt][l]) != pt { assert Mapped(t, pd, k, l).Some?; }
  }

  lemma {:induction false} FreedOnce(t: Tables, pd: int, i: int)
    requires DirOk(t, pd) && Injective(t, pd) && 0 <= i <= 768
    ensures NoDup(Freed(t, pd, i))
    decreases i
  {
    if i > 0 {
      FreedOnce(t, pd, i - 1);
      assert PdeOk(t, pd, i - 1);
      if t[pd][i - 1] != 0 {
        var pt := PageOf(t[pd][i - 1]);
        var frames := Frames(t[pt], 1024);
        FramesOnce(t, pd, i - 1, 1024);
        OwnTable(t, pd, i - 1);
        FramesAre(t[pt], 1024, pt);
        PushBack(frames, pt);
        forall x | x in Freed(t, pd, i - 1) ensures x !in frames + [pt] { FreedEarlier(t, pd, i - 1, x); }
        NoDupConcat(Freed(t, pd, i - 1), frames + [pt]);
        assert Freed(t, pd, i - 1) + frames + [pt] == Freed(t, pd, i - 1) + (frames + [pt]);
      }
    }
  }

  lemma FreedEarlier(t: Tables, pd: int, i: int, x: int)
    requires DirOk(t, pd) && Injective(t, pd) && 0 <= i < 768 && t[pd][i] != 0 && x in Freed(t, pd, i)
    ensures PdeOk(t, pd, i) && x !in Frames(t[PageOf(t[pd][i])], 1024) && x != PageOf(t[pd][i])
  {
    assert PdeOk(t, pd, i);
    FreedAre(t, pd, i, x);
    var k :| 0 <= k < i && Under(t, pd, k, x);
    UnderOnce(t, pd, k, i, x);
    FramesAre(t[PageOf(t[pd][i])], 1024, x);
  }

  // When no frame is shared, nothing is given back twice.
  lemma DestroyedOnce(t: Tables, pd: int)
    requires DirOk(t, pd) && Injective(t, pd)
    ensures NoDup(Destroyed(t, pd))
  {
    FreedOnce(t, pd, 768);
    forall x | x in Freed(t, pd, 768) ensures x != pd {
      FreedAre(t, pd, 768, x);
      var k :| 0 <= k < 768 && Under(t, pd, k, x);
      UnderOnce(t, pd, k, if k == 0 then 1 else 0, x);
    }
    PushBack(Freed(t, pd, 768), pd);
  }
}
