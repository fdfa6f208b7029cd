// The file system: the invariant, kept by every operation.

module FsInvariant {
  import opened Extents
  import opened Options
  import opened BitRuns
  import opened FsModel
  import opened FsOwners

  function NamedSet(dir: seq<Entry>): (r: set<int>) { set i | 0 <= i < |dir| && dir[i].inUse :: dir[i].sector }

  function OpenSet(open: seq<Inode>): (r: set<int>) { set i | 0 <= i < |open| :: open[i].sector }

  // An inode is live while it has a name or an opener; the free map and the root directory always are.
  function LiveSet(dir: seq<Entry>, open: seq<Inode>): (r: set<int>) {
    {FREE_MAP, ROOT_DIR} + NamedSet(dir) + OpenSet(open)
  }

  // ---------- the directory ----------

  predicate EntryOk(e: Entry) { e.inUse ==> ValidName(e.name) && e.sector != FREE_MAP && e.sector != ROOT_DIR }

  // Names are valid, and no two entries in use name the same inode.
  predicate DirOk(dir: seq<Entry>) {
    && (forall i | 0 <= i < |dir| :: EntryOk(dir[i]))
    && (forall i, j | 0 <= i < |dir| && 0 <= j < |dir| && i != j && dir[i].inUse && dir[j].inUse ::
          dir[i].sector != dir[j].sector)
  }

  // One entry more, in a slot that may have been in use.
  lemma DirAdded(dir: seq<Entry>, slot: int, name: string, s: int)
    requires DirOk(dir) && 0 <= slot < |dir| && ValidName(name)
    requires s !in NamedSet(dir) && s != FREE_MAP && s != ROOT_DIR
    ensures var dir1 := dir[slot := Entry(s, name, true)];
      DirOk(dir1) && s in NamedSet(dir1) && NamedSet(dir1) <= NamedSet(dir) + {s}
  {
    var dir1 := dir[slot := Entry(s, name, true)];
    assert dir1[slot].sector == s;
    forall i | 0 <= i < |dir| && dir[i].inUse ensures dir[i].sector != s {
      assert dir[i].sector in NamedSet(dir);
    }
    forall x | x in NamedSet(dir1) ensures x in NamedSet(dir) + {s} {
      var i :| 0 <= i < |dir1| && dir1[i].inUse && dir1[i].sector == x;
      assert i != slot ==> dir1[i] == dir[i];
    }
  }

  lemma DirErased(dir: seq<Entry>, i: int)
    requires DirOk(dir) && 0 <= i < |dir| && dir[i].inUse
    ensures var dir1 := dir[i := dir[i].(inUse := false)];
      DirOk(dir1) && NamedSet(dir1) == NamedSet(dir) - {dir[i].sector}
  {
    var dir1 := dir[i := dir[i].(inUse := false)];
    forall x | x in NamedSet(dir) - {dir[i].sector} ensures x in NamedSet(dir1) {
      var j :| 0 <= j < |dir| && dir[j].inUse && dir[j].sector == x;
      assert dir1[j] == dir[j];
    }
    forall x | x in NamedSet(dir1) ensures x in NamedSet(dir) - {dir[i].sector} {
      var j :| 0 <= j < |dir1| && dir1[j].inUse && dir1[j].sector == x;
      assert dir[j] == dir1[j];
    }
  }

  // ---------- open inodes and handles ----------

  function Openers(handles: map<int, int>, s: int): (r: set<int>) { set h | h in handles && handles[h] == s }

  // One in-memory inode for each sector.
  predicate OpenDistinct(open: seq<Inode>) {
    forall i, j | 0 <= i < |open| && 0 <= j < |open| && i != j :: open[i].sector != open[j].sector
  }

  predicate InodeOk(headers: map<int, Header>, dir: seq<Entry>, n: Inode) {
    && 1 <= n.openCnt && n.sector in headers && n.data == headers[n.sector]
    && (n.removed ==> n.sector !in NamedSet(dir) && n.sector != FREE_MAP && n.sector != ROOT_DIR)
  }

  predicate InodesOk(headers: map<int, Header>, dir: seq<Entry>, open: seq<Inode>) {
    forall i | 0 <= i < |open| :: InodeOk(headers, dir, open[i])
  }

  // open_cnt counts the handles on the inode, apart from EXTRA uses of the inode at AT by a call under way.
  predicate CountsOk(open: seq<Inode>, handles: map<int, int>, at: int, extra: int) {
    && (forall i | 0 <= i < |open| ::
          open[i].openCnt == |Openers(handles, open[i].sector)| + if open[i].sector == at then extra else 0)
    && (forall h | h in handles :: handles[h] in OpenSet(open))
  }

  // ---------- the invariant ----------

  // EXTRA counts a call's own use of the inode at AT; between calls there is none.
  ghost predicate InvPlus(fs: Fs, at: int, extra: int) {
    && !fs.panicked
    && Owners(fs.used, fs.headers, LiveSet(fs.dir, fs.open))
    && DirOk(fs.dir) && OpenDistinct(fs.open)
    && InodesOk(fs.headers, fs.dir, fs.open) && CountsOk(fs.open, fs.handles, at, extra)
  }

  ghost predicate Inv(fs: Fs) { InvPlus(fs, FREE_MAP, 0) }

  // ---------- inode_open ----------

  lemma Reopened(fs: Fs, s: int, i: int, at: int)
    requires InvPlus(fs, at, 0) && 0 <= i < |fs.open| && fs.open[i].sector == s
    ensures InvPlus(fs.(open := fs.open[i := fs.open[i].(openCnt := fs.open[i].openCnt + 1)]), s, 1)
  {
    var open1 := fs.open[i := fs.open[i].(openCnt := fs.open[i].openCnt + 1)];
    assert OpenSet(open1) == OpenSet(fs.open) by { SameSectors(fs.open, open1); }
    forall j | 0 <= j < |open1|
      ensures InodeOk(fs.headers, fs.dir, open1[j])
    {
      assert InodeOk(fs.headers, fs.dir, fs.open[j]);
    }
  }

  lemma SameSectors(open: seq<Inode>, open1: seq<Inode>)
    requires |open| == |open1| && forall j | 0 <= j < |open| :: open1[j].sector == open[j].sector
    ensures OpenSet(open1) == OpenSet(open)
  {
    forall x | x in OpenSet(open) ensures x in OpenSet(open1) {
      var j :| 0 <= j < |open| && open[j].sector == x;
      assert open1[j].sector == x;
    }
    forall x | x in OpenSet(open1) ensures x in OpenSet(open) {
      var j :| 0 <= j < |open1| && open1[j].sector == x;
      assert open[j].sector == x;
    }
  }

  lemma FirstOpened(fs: Fs, s: int, at: int)
    requires InvPlus(fs, at, 0) && s in LiveSet(fs.dir, fs.open) && s !in OpenSet(fs.open)
    ensures s in fs.headers
    ensures InvPlus(fs.(open := [Inode(s, 1, false, fs.headers[s])] + fs.open), s, 1)
  {
    assert Solid(fs.used, fs.headers, s);
    var n := Inode(s, 1, false, fs.headers[s]);
    var open1 := [n] + fs.open;
    PushedSectors(fs.open, n);
    assert LiveSet(fs.dir, open1) == LiveSet(fs.dir, fs.open);
    forall j | 0 <= j < |open1| ensures InodeOk(fs.headers, fs.dir, open1[j]) {
      if j > 0 { assert InodeOk(fs.headers, fs.dir, fs.open[j - 1]); }
    }
    NoOpeners(fs.open, fs.handles, s);
  }

  lemma NoOpeners(open: seq<Inode>, handles: map<int, int>, s: int)
    requires (forall h | h in handles :: handles[h] in OpenSet(open)) && s !in OpenSet(open)
    ensures Openers(handles, s) == {}
  {
    forall h | h in handles ensures handles[h] != s { assert handles[h] in OpenSet(open); }
  }

  lemma PushedSectors(open: seq<Inode>, n: Inode)
    ensures OpenSet([n] + open) == OpenSet(open) + {n.sector}
    ensures n.sector !in OpenSet(open) && OpenDistinct(open) ==> OpenDistinct([n] + open)
  {
    var open1 := [n] + open;
    forall x | x in OpenSet(open) ensures x in OpenSet(open1) {
      var j :| 0 <= j < |open| && open[j].sector == x;
      assert open1[j + 1] == open[j];
    }
    assert open1[0] == n;
    forall j | 0 <= j < |open| ensures open[j].sector in OpenSet(open) {}
  }

  lemma OpenedPlus(fs: Fs, s: int, memOk: bool, at: int)
    requires InvPlus(fs, at, 0) && s in LiveSet(fs.dir, fs.open) && InodeOpen(fs.open, fs.headers, s, memOk).Some?
    ensures InvPlus(fs.(open := InodeOpen(fs.open, fs.headers, s, memOk).value), s, 1)
    ensures s in OpenSet(InodeOpen(fs.open, fs.headers, s, memOk).value)
  {
    var i := FindOpen(fs.open, s);
    if i.Some? {
      Reopened(fs, s, i.value, at);
      SameSectors(fs.open, InodeOpen(fs.open, fs.headers, s, memOk).value);
    } else {
      FirstOpened(fs, s, at);
      PushedSectors(fs.open, Inode(s, 1, false, fs.headers[s]));
    }
  }

  // ---------- inode_close ----------

  lemma CutSectors(open: seq<Inode>, i: int)
    requires OpenDistinct(open) && 0 <= i < |open|
    ensures var open1 := open[..i] + open[i + 1..];
      OpenDistinct(open1) && OpenSet(open1) == OpenSet(open) - {open[i].sector}
  {
    var open1 := open[..i] + open[i + 1..];
    forall x | x in OpenSet(open) - {open[i].sector} ensures x in OpenSet(open1) {
      var j :| 0 <= j < |open| && open[j].sector == x;
      assert open1[if j < i then j else j - 1] == open[j];
    }
    forall x | x in OpenSet(open1) ensures x in OpenSet(open) - {open[i].sector} {
      var j :| 0 <= j < |open1| && open1[j].sector == x;
      var k := if j < i then j else j + 1;
      assert open[k] == open1[j] && k != i;
    }
  }

  lemma CutInodes(headers: map<int, Header>, dir: seq<Entry>, open: seq<Inode>, handles: map<int, int>, i: int, at: int)
    requires InodesOk(headers, dir, open) && OpenDistinct(open) && 0 <= i < |open|
    requires CountsOk(open, handles, open[i].sector, 1) && open[i].openCnt == 1
    ensures var open1 := open[..i] + open[i + 1..]; InodesOk(headers, dir, open1) && CountsOk(open1, handles, at, 0)
  {
    var open1 := open[..i] + open[i + 1..];
    CutSectors(open, i);
    forall j | 0 <= j < |open1|
      ensures InodeOk(headers, dir, open1[j]) && open1[j].openCnt == |Openers(handles, open1[j].sector)|
    {
      var k := if j < i then j else j + 1;
      assert open1[j] == open[k] && InodeOk(headers, dir, open[k]);
    }
    assert |Openers(handles, open[i].sector)| == 0;
    forall h | h in handles ensures handles[h] in OpenSet(open1) {
      assert h in Openers(handles, handles[h]);
    }
  }

  lemma LoweredInodes(headers: map<int, Header>, dir: seq<Entry>, open: seq<Inode>, handles: map<int, int>, i: int,
                      at: int)
    requires InodesOk(headers, dir, open) && OpenDistinct(open) && 0 <= i < |open|
    requires CountsOk(open, handles, open[i].sector, 1) && open[i].openCnt != 1
    ensures var open1 := open[i := open[i].(openCnt := open[i].openCnt - 1)];
      OpenSet(open1) == OpenSet(open) && OpenDistinct(open1) && InodesOk(headers, dir, open1)
        && CountsOk(open1, handles, at, 0)
  {
    var open1 := open[i := open[i].(openCnt := open[i].openCnt - 1)];
    SameSectors(open, open1);
    forall j | 0 <= j < |open1|
      ensures InodeOk(headers, dir, open1[j]) && open1[j].openCnt == |Openers(handles, open1[j].sector)|
    {
      assert InodeOk(headers, dir, open[j]);
    }
  }

  // Closing one use of the inode at S.
  lemma ClosedPlus(fs: Fs, s: int, at: int)
    requires InvPlus(fs, s, 1) && s in OpenSet(fs.open)
    ensures InvPlus(InodeClose(fs, s), at, 0)
  {
    var i := FindOpen(fs.open, s).value;
    var n := fs.open[i];
    assert InodeOk(fs.headers, fs.dir, n);
    if n.openCnt != 1 {
      LoweredInodes(fs.headers, fs.dir, fs.open, fs.handles, i, at);
    } else {
      CutSectors(fs.open, i);
      CutInodes(fs.headers, fs.dir, fs.open, fs.handles, i, at);
      LastClose(fs, s, i);
    }
  }

  lemma LastClose(fs: Fs, s: int, i: int)
    requires Owners(fs.used, fs.headers, LiveSet(fs.dir, fs.open)) && InodesOk(fs.headers, fs.dir, fs.open)
    requires OpenDistinct(fs.open) && 0 <= i < |fs.open| && FindOpen(fs.open, s) == Some(i) && fs.open[i].openCnt == 1
      && !fs.panicked
    ensures var fs1 := InodeClose(fs, s);
      !fs1.panicked && Owners(fs1.used, fs1.headers, LiveSet(fs1.dir, fs1.open))
  {
    var live, n := LiveSet(fs.dir, fs.open), fs.open[i];
    assert InodeOk(fs.headers, fs.dir, n);
    CutSectors(fs.open, i);
    var live1 := LiveSet(fs.dir, fs.open[..i] + fs.open[i + 1..]);
    assert n.sector in OpenSet(fs.open);
    if n.removed {
      ReleaseOwner(fs.used, fs.headers, live, s);
      assert live1 == live - {s};
    } else {
      Fewer(fs.used, fs.headers, live, live1);
    }
  }

  // ---------- file_close ----------

  lemma OneFewer(handles: map<int, int>, h: int, s: int)
    requires h in handles
    ensures |Openers(handles - {h}, s)| == |Openers(handles, s)| - if handles[h] == s then 1 else 0
  {
    if handles[h] == s {
      assert Openers(handles, s) == Openers(handles - {h}, s) + {h};
    } else {
      assert Openers(handles, s) == Openers(handles - {h}, s);
    }
  }

  lemma CloseInv(fs: Fs, h: int)
    requires Inv(fs) && h in fs.handles
    ensures Inv(Close(fs, h))
  {
    var s, handles1 := fs.handles[h], fs.handles - {h};
    assert s in OpenSet(fs.open);
    forall i | 0 <= i < |fs.open|
      ensures fs.open[i].openCnt == |Openers(handles1, fs.open[i].sector)| + if fs.open[i].sector == s then 1 else 0
    {
      OneFewer(fs.handles, h, fs.open[i].sector);
    }
    ClosedPlus(fs.(handles := handles1), s, FREE_MAP);
  }

  // ---------- filesys_open ----------

  lemma OneMore(handles: map<int, int>, h: int, s: int, t: int)
    requires h !in handles
    ensures |Openers(handles[h := s], t)| == |Openers(handles, t)| + if t == s then 1 else 0
  {
    if t == s {
      assert Openers(handles[h := s], t) == Openers(handles, t) + {h};
    } else {
      assert Openers(handles[h := s], t) == Openers(handles, t);
    }
  }

  lemma NamedLive(dir: seq<Entry>, cut: nat, open: seq<Inode>, name: string)
    requires Lookup(Seen(dir, cut), name).Some?
    ensures var i := Lookup(Seen(dir, cut), name).value;
      0 <= i < |dir| && dir[i].inUse && dir[i].name == name && dir[i].sector in LiveSet(dir, open)
  {
    LookupInside(Seen(dir, cut), name, 0);
    assert dir[Lookup(Seen(dir, cut), name).value].sector in NamedSet(dir);
  }

  lemma OpenInv(fs: Fs, name: string, h: int, rootOk: bool, cut: nat, memOk: bool, fileOk: bool)
    requires Inv(fs) && h !in fs.handles
    ensures Inv(Open(fs, name, h, rootOk, cut, memOk, fileOk).0)
  {
    if Lookup(Seen(fs.dir, cut), name).Some? {
      NamedLive(fs.dir, cut, fs.open, name);
      var s := fs.dir[Lookup(Seen(fs.dir, cut), name).value].sector;
      var open := InodeOpen(fs.open, fs.headers, s, memOk);
      if open.Some? {
        OpenedPlus(fs, s, memOk, FREE_MAP);
        ClosedPlus(fs.(open := open.value), s, FREE_MAP);
        Registered(fs.(open := open.value), h, s);
      }
    }
  }

  lemma ReopenInv(fs: Fs, h: int, h1: int, fileOk: bool)
    requires Inv(fs) && h in fs.handles && h1 !in fs.handles
    ensures Inv(Reopen(fs, h, h1, fileOk))
  {
    var s := fs.handles[h];
    assert s in OpenSet(fs.open) && s in LiveSet(fs.dir, fs.open);
    OpenedPlus(fs, s, true, FREE_MAP);
    var fs1 := fs.(open := InodeOpen(fs.open, fs.headers, s, true).value);
    ClosedPlus(fs1, s, FREE_MAP);
    Registered(fs1, h1, s);
  }

  lemma Registered(fs: Fs, h: int, s: int)
    requires InvPlus(fs, s, 1) && h !in fs.handles && s in OpenSet(fs.open)
    ensures Inv(fs.(handles := fs.handles[h := s]))
  {
    var handles1 := fs.handles[h := s];
    forall i | 0 <= i < |fs.open| ensures fs.open[i].openCnt == |Openers(handles1, fs.open[i].sector)| {
      OneMore(fs.handles, h, s, fs.open[i].sector);
    }
  }

  // ---------- filesys_remove ----------

  lemma ErasedPlus(fs: Fs, i: int, s: int)
    requires InvPlus(fs, s, 1) && 0 <= i < |fs.dir| && fs.dir[i].inUse && fs.dir[i].sector == s && s in OpenSet(fs.open)
    ensures InvPlus(fs.(dir := fs.dir[i := fs.dir[i].(inUse := false)], open := SetRemoved(fs.open, s)), s, 1)
    ensures s in OpenSet(SetRemoved(fs.open, s))
  {
    var dir1, open1 := fs.dir[i := fs.dir[i].(inUse := false)], SetRemoved(fs.open, s);
    DirErased(fs.dir, i);
    SameSectors(fs.open, open1);
    assert EntryOk(fs.dir[i]);
    assert s in NamedSet(fs.dir);
    assert LiveSet(dir1, open1) == LiveSet(fs.dir, fs.open);
    forall j | 0 <= j < |open1| ensures InodeOk(fs.headers, dir1, open1[j]) {
      assert InodeOk(fs.headers, fs.dir, fs.open[j]);
    }
  }

  lemma RemoveInv(fs: Fs, name: string, rootOk: bool, cut: nat, memOk: bool, writeOk: bool)
    requires Inv(fs)
    ensures Inv(Remove(fs, name, rootOk, cut, memOk, writeOk).0)
  {
    if Lookup(Seen(fs.dir, cut), name).Some? {
      NamedLive(fs.dir, cut, fs.open, name);
      var i := Lookup(Seen(fs.dir, cut), name).value;
      var s := fs.dir[i].sector;
      var open := InodeOpen(fs.open, fs.headers, s, memOk);
      if open.Some? {
        OpenedPlus(fs, s, memOk, FREE_MAP);
        if writeOk {
          RemovedInv(fs.(open := open.value), i, s);
        } else {
          ClosedPlus(fs.(open := open.value), s, FREE_MAP);
        }
      }
    }
  }

  // The entry erased, the inode marked as removed and closed.
  lemma RemovedInv(fs: Fs, i: int, s: int)
    requires InvPlus(fs, s, 1) && 0 <= i < |fs.dir| && fs.dir[i].inUse && fs.dir[i].sector == s && s in OpenSet(fs.open)
    ensures Inv(InodeClose(fs.(open := SetRemoved(fs.open, s), dir := fs.dir[i := fs.dir[i].(inUse := false)]), s))
  {
    ErasedPlus(fs, i, s);
    ClosedPlus(fs.(open := SetRemoved(fs.open, s), dir := fs.dir[i := fs.dir[i].(inUse := false)]), s, FREE_MAP);
  }

  // ---------- filesys_create ----------

  // The sectors that a creation finds are free and distinct.
  lemma CreateFinds(used: seq<bool>, size: int)
    requires 0 <= size && Search(used, 0, 1, false).Some?
    ensures var s := Search(used, 0, 1, false).value; RunAt(used, s, 1, false)
    ensures var s := Search(used, 0, 1, false).value; var used1 := Filled(used, s, 1, true);
      Search(used1, 0, Sectors(size), false).Some? ==>
        WasFree(used, s, Header(Search(used1, 0, Sectors(size), false).value, size))
  {
    SearchFinds(used, 0, 1, false);
    var s := Search(used, 0, 1, false).value;
    var used1 := Filled(used, s, 1, true);
    SearchFinds(used1, 0, Sectors(size), false);
    var d := Search(used1, 0, Sectors(size), false);
    if d.Some? {
      assert used1[s];
      forall k | d.value <= k < d.value + Sectors(size) ensures !used[k] { assert !used1[k]; }
    }
  }

  lemma InodesKept(fs: Fs, headers1: map<int, Header>, dir1: seq<Entry>, s: int)
    requires InodesOk(fs.headers, fs.dir, fs.open) && NamedSet(dir1) <= NamedSet(fs.dir) + {s} && s !in OpenSet(fs.open)
    requires forall t | t in OpenSet(fs.open) && t in fs.headers :: t in headers1 && headers1[t] == fs.headers[t]
    ensures InodesOk(headers1, dir1, fs.open)
  {
    forall i | 0 <= i < |fs.open| ensures InodeOk(headers1, dir1, fs.open[i]) {
      assert InodeOk(fs.headers, fs.dir, fs.open[i]);
      assert fs.open[i].sector in OpenSet(fs.open);
    }
  }

  lemma NewHeadersKept(fs: Fs, live: set<int>, s: int, h: Header)
    requires Owners(fs.used, fs.headers, live) && WasFree(fs.used, s, h)
    ensures s !in live
    ensures forall t | t in live && t in fs.headers ::
      t in NewHeaders(fs.headers, s, h) && NewHeaders(fs.headers, s, h)[t] == fs.headers[t]
  {
    forall t | t in live ensures t != s && Keeps(fs.used, fs.headers, fs.used, NewHeaders(fs.headers, s, h), t) {
      assert Solid(fs.used, fs.headers, t);
      NewKeeps(fs.used, fs.headers, s, h, fs.used, t);
    }
  }

  // A new file: one more live inode.
  lemma CreatedInv(fs: Fs, name: string, s: int, h: Header, io: DirIo)
    requires Inv(fs) && WasFree(fs.used, s, h) && DirAdd(fs.dir, name, s, io).Some?
    ensures Inv(fs.(used := Marked(fs.used, s, h), headers := NewHeaders(fs.headers, s, h),
                    dir := DirAdd(fs.dir, name, s, io).value))
  {
    var live, dir1 := LiveSet(fs.dir, fs.open), DirAdd(fs.dir, name, s, io).value;
    NewOwner(fs.used, fs.headers, live, s, h);
    NewHeadersKept(fs, live, s, h);
    DirAdded(fs.dir, Slot(fs.dir, io.slotCut), name, s);
    assert LiveSet(dir1, fs.open) <= live + {s};
    Fewer(Marked(fs.used, s, h), NewHeaders(fs.headers, s, h), live + {s}, LiveSet(dir1, fs.open));
    InodesKept(fs, NewHeaders(fs.headers, s, h), dir1, s);
  }

  // No directory entry after all: the data sectors stay marked, and every live inode is as it was.
  lemma LeakedInv(fs: Fs, s: int, h: Header)
    requires Inv(fs) && WasFree(fs.used, s, h)
    ensures Inv(fs.(used := Filled(Marked(fs.used, s, h), s, 1, false), headers := NewHeaders(fs.headers, s, h)))
  {
    var live := LiveSet(fs.dir, fs.open);
    var used1, headers1 := Filled(Marked(fs.used, s, h), s, 1, false), NewHeaders(fs.headers, s, h);
    NewHeadersKept(fs, live, s, h);
    forall t | t in live ensures Keeps(fs.used, fs.headers, used1, headers1, t) {
      assert Solid(fs.used, fs.headers, t);
      NewKeeps(fs.used, fs.headers, s, h, used1, t);
    }
    OwnersKept(fs.used, fs.headers, used1, headers1, live);
    InodesKept(fs, headers1, fs.dir, s);
  }

  lemma CreateInv(fs: Fs, name: string, size: int, env: Env)
    requires Inv(fs) && 0 <= size
    ensures Inv(Create(fs, name, size, env).0)
  {
    var s := Search(fs.used, 0, 1, false);
    if s.Some? {
      CreateFinds(fs.used, size);
      var d := Search(Filled(fs.used, s.value, 1, true), 0, Sectors(size), false);
      if d.Some? {
        var h := Header(d.value, size);
        if DirAdd(fs.dir, name, s.value, env.io).Some? {
          CreatedInv(fs, name, s.value, h, env.io);
        } else {
          LeakedInv(fs, s.value, h);
        }
      }
    }
  }

  // ---------- writes ----------

  // Writing a file's data wipes out whatever inodes its sectors held.
  function Write(fs: Fs, sector: int): (r: Fs) {
    var i := FindOpen(fs.open, sector);
    if i == None then fs
    else fs.(headers := map k | k in fs.headers && !InExtent(fs.open[i.value].data, k) :: fs.headers[k])
  }

  lemma WriteInv(fs: Fs, s: int)
    requires Inv(fs) && s in OpenSet(fs.open)
    ensures Inv(Write(fs, s))
  {
    var live, fs1 := LiveSet(fs.dir, fs.open), Write(fs, s);
    var n := fs.open[FindOpen(fs.open, s).value];
    assert InodeOk(fs.headers, fs.dir, n) && n.sector in live;
    forall t | t in live ensures Keeps(fs.used, fs.headers, fs.used, fs1.headers, t) {
      assert Solid(fs.used, fs.headers, t);
      if t != s { assert Apart(fs.headers, t, s) && Owns(fs.headers, t, t); }
    }
    OwnersKept(fs.used, fs.headers, fs.used, fs1.headers, live);
    forall i | 0 <= i < |fs.open| ensures InodeOk(fs1.headers, fs.dir, fs.open[i]) {
      assert InodeOk(fs.headers, fs.dir, fs.open[i]);
      assert fs.open[i].sector in live;
      assert Keeps(fs.used, fs.headers, fs.used, fs1.headers, fs.open[i].sector);
    }
  }
}
