// The file system: what holds on every run, and what single operations do.

module FsRuns {
  import opened Extents
  import opened Options
  import opened BitRuns
  import opened FsModel
  import opened FsOwners
  import opened FsInvariant

  datatype Action =
    | CreateFile(name: string, size: int, env: Env)
    | OpenFile(name: string, h: int, rootOk: bool, cut: nat, memOk: bool, fileOk: bool)
    | ReopenFile(h: int, h1: int, fileOk: bool)
    | RemoveFile(name: string, rootOk: bool, cut: nat, memOk: bool, writeOk: bool)
    | CloseFile(h: int)
    | WriteFile(h: int)

  // The handle that keeps the free map file open is never closed.
  predicate Enabled(fs: Fs, act: Action) {
    match act
    case CreateFile(_, size, _) => 0 <= size
    case OpenFile(_, h, _, _, _, _) => h !in fs.handles
    case ReopenFile(h, h1, _) => h in fs.handles && h >= 0 && h1 !in fs.handles
    case RemoveFile(_, _, _, _, _) => true
    case CloseFile(h) => h in fs.handles && h >= 0
    case WriteFile(h) => h in fs.handles
  }

  function Step(fs: Fs, act: Action): (r: Fs)
    requires Enabled(fs, act)
  {
    match act
    case CreateFile(name, size, env) => Create(fs, name, size, env).0
    case OpenFile(name, h, rootOk, cut, memOk, fileOk) => Open(fs, name, h, rootOk, cut, memOk, fileOk).0
    case ReopenFile(h, h1, fileOk) => Reopen(fs, h, h1, fileOk)
    case RemoveFile(name, rootOk, cut, memOk, writeOk) => Remove(fs, name, rootOk, cut, memOk, writeOk).0
    case CloseFile(h) => Close(fs, h)
    case WriteFile(h) => Write(fs, fs.handles[h])
  }

  predicate Legal(fs: Fs, acts: seq<Action>)
    decreases |acts|
  {
    acts == [] || (Enabled(fs, acts[0]) && Legal(Step(fs, acts[0]), acts[1..]))
  }

  function After(fs: Fs, acts: seq<Action>): (r: Fs)
    requires Legal(fs, acts)
    decreases |acts|
  {
    if acts == [] then fs else After(Step(fs, acts[0]), acts[1..])
  }

  lemma {:induction false} RunInv(fs: Fs, acts: seq<Action>)
    requires Inv(fs) && Legal(fs, acts)
    ensures Inv(After(fs, acts))
    decreases |acts|
  {
    if acts != [] {
      match acts[0] {
        case CreateFile(name, size, env) => CreateInv(fs, name, size, env);
        case OpenFile(name, h, rootOk, cut, memOk, fileOk) => OpenInv(fs, name, h, rootOk, cut, memOk, fileOk);
        case ReopenFile(h, h1, fileOk) => ReopenInv(fs, h, h1, fileOk);
        case RemoveFile(name, rootOk, cut, memOk, writeOk) => RemoveInv(fs, name, rootOk, cut, memOk, writeOk);
        case CloseFile(h) => CloseInv(fs, h);
        case WriteFile(h) => WriteInv(fs, fs.handles[h]);
      }
      RunInv(Step(fs, acts[0]), acts[1..]);
    }
  }

  // ---------- formatting ----------

  // A device of N sectors after free_map_init: the two inode sectors are marked.
  function InitialMap(n: int): (used: seq<bool>)
    requires 2 <= n
  {
    seq(n, k => k == FREE_MAP || k == ROOT_DIR)
  }

  // do_format and free_map_open; None is a PANIC for want of room.
  function Format(n: int): (r: Option<Fs>)
    requires 2 <= n
  {
    var mapLen, dirLen := 4 * ((n + 31) / 32), 16 * 20;
    var used0 := InitialMap(n);
    var a := Search(used0, 0, Sectors(mapLen), false);
    if a == None then None
    else
      SearchFinds(used0, 0, Sectors(mapLen), false);
      var used1 := Filled(used0, a.value, Sectors(mapLen), true);
      var b := Search(used1, 0, Sectors(dirLen), false);
      if b == None then None
      else
        SearchFinds(used1, 0, Sectors(dirLen), false);
        var h0, h1 := Header(a.value, mapLen), Header(b.value, dirLen);
        Some(Fs(Filled(used1, b.value, Sectors(dirLen), true), map[FREE_MAP := h0, ROOT_DIR := h1],
                seq(16, _ => Entry(0, "", false)), [Inode(FREE_MAP, 1, false, h0)], map[-1 := FREE_MAP], false))
  }

  lemma FormatSolid(used0: seq<bool>, h0: Header, h1: Header)
    requires 2 <= |used0| && used0[0] && used0[1] && 0 <= h0.length && 0 <= h1.length
    requires RunAt(used0, h0.start, Sectors(h0.length), false)
    requires RunAt(Filled(used0, h0.start, Sectors(h0.length), true), h1.start, Sectors(h1.length), false)
    ensures var used2 := Filled(Filled(used0, h0.start, Sectors(h0.length), true), h1.start, Sectors(h1.length), true);
      var headers := map[FREE_MAP := h0, ROOT_DIR := h1];
      Solid(used2, headers, FREE_MAP) && Solid(used2, headers, ROOT_DIR)
  {
    var used1 := Filled(used0, h0.start, Sectors(h0.length), true);
    var used2 := Filled(used1, h1.start, Sectors(h1.length), true);
    assert used1[0] && used1[1] && used2[0] && used2[1];
  }

  lemma FormatApart(used0: seq<bool>, h0: Header, h1: Header, k: int)
    requires 2 <= |used0| && used0[0] && used0[1]
    requires RunAt(used0, h0.start, Sectors(h0.length), false)
    requires RunAt(Filled(used0, h0.start, Sectors(h0.length), true), h1.start, Sectors(h1.length), false)
    ensures !((k == FREE_MAP || InExtent(h0, k)) && (k == ROOT_DIR || InExtent(h1, k)))
  {
    var used1 := Filled(used0, h0.start, Sectors(h0.length), true);
    assert used1[0] && used1[1];
    if 0 <= k < |used0| { assert used1[k] || !used1[k]; }
  }

  lemma FormatOwners(used0: seq<bool>, h0: Header, h1: Header)
    requires 2 <= |used0| && used0[0] && used0[1] && 0 <= h0.length && 0 <= h1.length
    requires RunAt(used0, h0.start, Sectors(h0.length), false)
    requires RunAt(Filled(used0, h0.start, Sectors(h0.length), true), h1.start, Sectors(h1.length), false)
    ensures Owners(Filled(Filled(used0, h0.start, Sectors(h0.length), true), h1.start, Sectors(h1.length), true),
                   map[FREE_MAP := h0, ROOT_DIR := h1], {FREE_MAP, ROOT_DIR})
  {
    FormatSolid(used0, h0, h1);
    var headers := map[FREE_MAP := h0, ROOT_DIR := h1];
    forall k ensures !(Owns(headers, FREE_MAP, k) && Owns(headers, ROOT_DIR, k)) { FormatApart(used0, h0, h1, k); }
  }

  lemma FormatInv(n: int)
    requires 2 <= n && Format(n).Some?
    ensures Inv(Format(n).value)
    ensures var fs := Format(n).value;
      && fs.headers[ROOT_DIR].length == 20 * |fs.dir| == 320 && n <= 8 * fs.headers[FREE_MAP].length < n + 32
      && forall i | 0 <= i < |fs.dir| :: !fs.dir[i].inUse
  {
    var fs := Format(n).value;
    var h0, h1 := fs.headers[FREE_MAP], fs.headers[ROOT_DIR];
    SearchFinds(InitialMap(n), 0, Sectors(h0.length), false);
    SearchFinds(Filled(InitialMap(n), h0.start, Sectors(h0.length), true), 0, Sectors(h1.length), false);
    FormatOwners(InitialMap(n), h0, h1);
    assert LiveSet(fs.dir, fs.open) == {FREE_MAP, ROOT_DIR};
    assert Openers(fs.handles, FREE_MAP) == {-1};
    assert fs.open[0].sector in OpenSet(fs.open);
  }

  lemma Reached(n: int, acts: seq<Action>)
    requires 2 <= n && Format(n).Some? && Legal(Format(n).value, acts)
    ensures Inv(After(Format(n).value, acts))
  {
    FormatInv(n);
    RunInv(Format(n).value, acts);
  }

  // ---------- every run ----------

  // No assertion of the free map fails, live inodes own disjoint, marked sectors, and no two names
  // name the same inode, whatever fails.
  lemma FilesApart(n: int, acts: seq<Action>)
    requires 2 <= n && Format(n).Some? && Legal(Format(n).value, acts)
    ensures var fs := After(Format(n).value, acts);
      !fs.panicked && Owners(fs.used, fs.headers, LiveSet(fs.dir, fs.open)) && DirOk(fs.dir)
  {
    Reached(n, acts);
  }

  // Each sector has at most one in-memory inode, and its open_cnt is the number of handles on it.
  lemma OpenCounts(n: int, acts: seq<Action>, i: int)
    requires 2 <= n && Format(n).Some? && Legal(Format(n).value, acts) && 0 <= i < |After(Format(n).value, acts).open|
    ensures var fs := After(Format(n).value, acts);
      && fs.open[i].openCnt == |Openers(fs.handles, fs.open[i].sector)| >= 1
      && forall j | 0 <= j < |fs.open| && j != i :: fs.open[j].sector != fs.open[i].sector
  {
    Reached(n, acts);
    var fs := After(Format(n).value, acts);
    assert InodeOk(fs.headers, fs.dir, fs.open[i]);
  }

  // USED1 is USED without the sectors of the inode at S.
  ghost predicate GivenBack(used: seq<bool>, used1: seq<bool>, headers: map<int, Header>, s: int) {
    |used1| == |used| && forall k | 0 <= k < |used| :: used1[k] == (used[k] && !Owns(headers, s, k))
  }

  lemma CloseEffect(fs: Fs, s: int)
    requires InvPlus(fs, s, 1) && s in OpenSet(fs.open)
    ensures var i := FindOpen(fs.open, s).value; var fs1 := InodeClose(fs, s);
      if |Openers(fs.handles, s)| == 0 && fs.open[i].removed then GivenBack(fs.used, fs1.used, fs.headers, s)
      else fs1.used == fs.used
  {
    var i := FindOpen(fs.open, s).value;
    assert InodeOk(fs.headers, fs.dir, fs.open[i]);
    assert fs.open[i].sector in LiveSet(fs.dir, fs.open);
    assert Solid(fs.used, fs.headers, s);
    ReleaseOk(fs.used, fs.headers, s);
  }

  // A removed file's sectors come free exactly at its last close.
  lemma LastCloseFrees(fs: Fs, h: int)
    requires Inv(fs) && h in fs.handles
    ensures FindOpen(fs.open, fs.handles[h]).Some?
    ensures var s := fs.handles[h]; var node := fs.open[FindOpen(fs.open, s).value]; var fs1 := Close(fs, h);
      if node.removed && Openers(fs.handles, s) == {h} then GivenBack(fs.used, fs1.used, fs.headers, s)
      else fs1.used == fs.used
  {
    var s, handles1 := fs.handles[h], fs.handles - {h};
    assert s in OpenSet(fs.open);
    forall i | 0 <= i < |fs.open|
      ensures fs.open[i].openCnt == |Openers(handles1, fs.open[i].sector)| + if fs.open[i].sector == s then 1 else 0
    {
      OneFewer(fs.handles, h, fs.open[i].sector);
    }
    CloseEffect(fs.(handles := handles1), s);
    assert Openers(fs.handles, s) == Openers(handles1, s) + {h};
    if Openers(fs.handles, s) == {h} { assert Openers(handles1, s) == {}; }
    if |Openers(handles1, s)| == 0 { assert Openers(handles1, s) == {}; }
  }

  lemma CloseKeepsDir(fs: Fs, s: int)
    ensures InodeClose(fs, s).dir == fs.dir
  {}

  lemma OpenKeepsDir(fs: Fs, name: string, h: int, rootOk: bool, cut: nat, memOk: bool, fileOk: bool)
    ensures Open(fs, name, h, rootOk, cut, memOk, fileOk).0.dir == fs.dir
  {
    if Lookup(Seen(fs.dir, cut), name).Some? {
      LookupInside(Seen(fs.dir, cut), name, 0);
      var s := fs.dir[Lookup(Seen(fs.dir, cut), name).value].sector;
      var open := InodeOpen(fs.open, fs.headers, s, memOk);
      if open.Some? { CloseKeepsDir(fs.(open := open.value), s); }
    }
  }

  // The directory after a removal.
  lemma RemovedDir(fs: Fs, name: string, rootOk: bool, cut: nat, memOk: bool, writeOk: bool)
    ensures var i := Lookup(Seen(fs.dir, cut), name);
      && (i.Some? ==> 0 <= i.value < |fs.dir|)
      && Remove(fs, name, rootOk, cut, memOk, writeOk).0.dir
         == if rootOk && writeOk && i.Some? && InodeOpen(fs.open, fs.headers, fs.dir[i.value].sector, memOk).Some?
            then fs.dir[i.value := fs.dir[i.value].(inUse := false)] else fs.dir
  {
    var i := Lookup(Seen(fs.dir, cut), name);
    if i.Some? {
      LookupInside(Seen(fs.dir, cut), name, 0);
      var s := fs.dir[i.value].sector;
      var open := InodeOpen(fs.open, fs.headers, s, memOk);
      if open.Some? {
        CloseKeepsDir(fs.(open := open.value), s);
        var dir := fs.dir[i.value := fs.dir[i.value].(inUse := false)];
        CloseKeepsDir(fs.(open := SetRemoved(open.value, s), dir := dir), s);
      }
    }
  }

  // Removing a file erases the entry that was found, and frees its sectors only if no handle is on it.
  lemma RemoveEffect(fs: Fs, name: string, rootOk: bool, cut: nat, memOk: bool, writeOk: bool)
    requires Inv(fs) && Remove(fs, name, rootOk, cut, memOk, writeOk).1
    ensures Lookup(fs.dir, name).Some? && 0 <= Lookup(fs.dir, name).value < |fs.dir|
    ensures var fs1 := Remove(fs, name, rootOk, cut, memOk, writeOk).0; var i := Lookup(fs.dir, name).value;
      var s := fs.dir[i].sector;
      && fs1.dir == fs.dir[i := fs.dir[i].(inUse := false)] && Lookup(fs1.dir, name) == LookupFrom(fs.dir, name, i + 1)
      && if Openers(fs.handles, s) == {} then GivenBack(fs.used, fs1.used, fs.headers, s) else fs1.used == fs.used
  {
    NamedLive(fs.dir, cut, fs.open, name);
    SeenLookup(fs.dir, cut, name);
    var i := Lookup(fs.dir, name).value;
    var s := fs.dir[i].sector;
    var open := InodeOpen(fs.open, fs.headers, s, memOk).value;
    var fs2 := fs.(open := SetRemoved(open, s), dir := fs.dir[i := fs.dir[i].(inUse := false)]);
    OpenedPlus(fs, s, memOk, FREE_MAP);
    ErasedPlus(fs.(open := open), i, s);
    CloseEffect(fs2, s);
    ErasedLookup(fs.dir, name, i, 0);
    assert |Openers(fs.handles, s)| == 0 <==> Openers(fs.handles, s) == {};
  }

  // Without its first entry for NAME, the directory is searched further.
  lemma {:induction false} ErasedLookup(dir: seq<Entry>, name: string, i: int, j: int)
    requires 0 <= j <= i < |dir| && LookupFrom(dir, name, j) == Some(i)
    ensures LookupFrom(dir[i := dir[i].(inUse := false)], name, j) == LookupFrom(dir, name, i + 1)
    decreases i - j
  {
    if j < i {
      ErasedLookup(dir, name, i, j + 1);
    } else {
      SameFrom(dir[i := dir[i].(inUse := false)], dir, name, i + 1);
    }
  }

  lemma {:induction false} SameFrom(a: seq<Entry>, b: seq<Entry>, name: string, j: int)
    requires 0 <= j && |a| == |b| && forall k | j <= k < |a| :: a[k] == b[k]
    ensures LookupFrom(a, name, j) == LookupFrom(b, name, j)
    decreases |a| - j
  {
    if j < |a| { SameFrom(a, b, name, j + 1); }
  }

  // A lookup cut short finds what the whole one finds, or nothing.
  lemma SeenLookup(dir: seq<Entry>, cut: nat, name: string)
    ensures var r := Lookup(dir, name);
      Lookup(Seen(dir, cut), name) == if r.Some? && r.value < cut then r else None
  {
    SeenLookupFrom(dir, cut, name, 0);
  }

  lemma {:induction false} SeenLookupFrom(dir: seq<Entry>, cut: nat, name: string, i: int)
    requires 0 <= i
    ensures var r := LookupFrom(dir, name, i);
      LookupFrom(Seen(dir, cut), name, i) == if r.Some? && r.value < cut then r else None
    decreases |dir| - i
  {
    if i < |dir| {
      SeenLookupFrom(dir, cut, name, i + 1);
      if i >= cut { LookupInside(dir, name, i); }
    } else {
      LookupInside(dir, name, i);
    }
  }

  // A search for a slot cut short ends where it was cut or at the first free slot.
  lemma SlotWhere(dir: seq<Entry>, cut: nat)
    ensures var f := FreeSlotFrom(dir, 0); Slot(dir, cut) == if cut < f then cut else f
  {
    SlotWhereFrom(dir, cut, 0);
  }

  lemma {:induction false} SlotWhereFrom(dir: seq<Entry>, cut: nat, i: int)
    requires 0 <= i <= |Seen(dir, cut)|
    ensures var f := FreeSlotFrom(dir, i); FreeSlotFrom(Seen(dir, cut), i) == if cut < f then cut else f
    decreases |dir| - i
  {
    if i < |Seen(dir, cut)| && dir[i].inUse { SlotWhereFrom(dir, cut, i + 1); }
  }

  // A creation that succeeds puts an inode of its own, of the size asked for, behind the name.
  lemma CreateEffect(fs: Fs, name: string, size: int, env: Env)
    requires Inv(fs) && 0 <= size && Create(fs, name, size, env).1
    ensures var fs1 := Create(fs, name, size, env).0; var k := Slot(fs.dir, env.io.slotCut);
      && 0 <= k < |fs.dir| && fs1.dir == fs.dir[k := fs1.dir[k]] && fs1.dir[k].inUse && fs1.dir[k].name == name
      && fs1.dir[k].sector in fs1.headers && fs1.headers[fs1.dir[k].sector].length == size
      && fs1.dir[k].sector !in LiveSet(fs.dir, fs.open)
      && (Lookup(fs.dir, name) == None ==> Lookup(fs1.dir, name) == Some(k))
  {
    var s := Search(fs.used, 0, 1, false).value;
    CreateFinds(fs.used, size);
    var h := Header(Search(Filled(fs.used, s, 1, true), 0, Sectors(size), false).value, size);
    NewHeadersKept(fs, LiveSet(fs.dir, fs.open), s, h);
    var k := Slot(fs.dir, env.io.slotCut);
    var dir1 := fs.dir[k := Entry(s, name, true)];
    LookupInside(fs.dir, name, 0);
    LookupInside(dir1, name, 0);
    assert dir1[k] == Entry(s, name, true);
  }

  // The checks that filesys_create passes before it comes to the directory.
  predicate ReachesDirectory(fs: Fs, size: int, env: Env) {
    && env.rootOk && env.mapOk && env.memOk && env.dataMapOk
    && Search(fs.used, 0, 1, false).Some?
    && (RunAt(fs.used, Search(fs.used, 0, 1, false).value, 1, false) ==>
          Search(Filled(fs.used, Search(fs.used, 0, 1, false).value, 1, true), 0, Sectors(size), false).Some?)
  }

  // The directory takes the name: it is valid, lookup does not come to an entry for it, and the search
  // for a slot ends before the end of the directory, at a slot that can be written.
  predicate Takes(dir: seq<Entry>, name: string, io: DirIo) {
    var i, f := Lookup(dir, name), FreeSlotFrom(dir, 0);
    ValidName(name) && (i == None || io.lookupCut <= i.value) && (io.slotCut < |dir| || f < |dir|) && io.writeOk
  }

  lemma TakesAdds(dir: seq<Entry>, name: string, s: int, io: DirIo)
    ensures DirAdd(dir, name, s, io).Some? <==> Takes(dir, name, io)
  {
    SeenLookup(dir, io.lookupCut, name);
    SlotWhere(dir, io.slotCut);
  }

  // A creation that fails should leave the free map alone.  The data sectors stay marked exactly when
  // the file has data and it is the directory that does not take the name.
  lemma FailedCreateLeaks(fs: Fs, name: string, size: int, env: Env)
    requires 0 <= size
    ensures Create(fs, name, size, env).1 <==> ReachesDirectory(fs, size, env) && Takes(fs.dir, name, env.io)
    ensures !Create(fs, name, size, env).1 && Create(fs, name, size, env).0.used != fs.used
            <==> ReachesDirectory(fs, size, env) && 0 < size && !Takes(fs.dir, name, env.io)
  {
    if Search(fs.used, 0, 1, false).Some? {
      CreateFinds(fs.used, size);
      var s := Search(fs.used, 0, 1, false).value;
      var used1 := Filled(fs.used, s, 1, true);
      var d := Search(used1, 0, Sectors(size), false);
      if d.Some? && ReachesDirectory(fs, size, env) {
        TakesAdds(fs.dir, name, s, env.io);
        LeakShows(fs.used, s, Header(d.value, size));
      }
    }
  }

  lemma LeakShows(used: seq<bool>, s: int, h: Header)
    requires WasFree(used, s, h)
    ensures Filled(Marked(used, s, h), s, 1, false) == used <==> h.length == 0
  {
    var used3 := Filled(Marked(used, s, h), s, 1, false);
    if h.length > 0 {
      assert !used[h.start] && used3[h.start];
    } else {
      assert used3 == used;
    }
  }

  // ---------- a freshly formatted device ----------

  const ALL_OK := Env(true, true, true, true, DirIo(16, 16, true))

  // The free map file and the directory take one sector each, and from 4 on all is free.
  lemma FormatRoom(n: int)
    requires 6 <= n <= 4096
    ensures Format(n).Some? && |Format(n).value.used| == n
    ensures forall k | 4 <= k < n :: !Format(n).value.used[k]
  {
    var used0 := InitialMap(n);
    SearchFinds(used0, 0, 1, false);
    assert RunAt(used0, 2, 1, false);
    var a := Search(used0, 0, 1, false).value;
    assert used0[0] && used0[1];
    assert a == 2;
    var used1 := Filled(used0, 2, 1, true);
    SearchFinds(used1, 0, 1, false);
    assert RunAt(used1, 3, 1, false);
    assert used1[0] && used1[1] && used1[2];
    assert Search(used1, 0, 1, false).value == 3;
  }

  // Two free sectors are enough for a file of one sector.
  lemma TwoEnough(fs: Fs, size: int, env: Env, k: int)
    requires 0 <= size <= 512 && 0 <= k && k + 1 < |fs.used| && !fs.used[k] && !fs.used[k + 1]
    requires env.rootOk && env.mapOk && env.memOk && env.dataMapOk
    ensures ReachesDirectory(fs, size, env)
  {
    SearchFinds(fs.used, 0, 1, false);
    assert RunAt(fs.used, k, 1, false);
    var s := Search(fs.used, 0, 1, false).value;
    var used1 := Filled(fs.used, s, 1, true);
    SearchFinds(used1, 0, Sectors(size), false);
    assert RunAt(used1, if s == k then k + 1 else k, Sectors(size), false);
  }

  // An input that leaks: a name of fifteen characters on a freshly formatted device.
  lemma LongNameLeaks(n: int)
    requires 6 <= n <= 4096
    ensures Format(n).Some?
    ensures var fs := Format(n).value; var (fs1, ok) := Create(fs, "fifteen-letters", 512, ALL_OK);
      !ok && fs1.used != fs.used && fs1.dir == fs.dir
  {
    FormatRoom(n);
    var fs := Format(n).value;
    TwoEnough(fs, 512, ALL_OK, 4);
    assert !Takes(fs.dir, "fifteen-letters", ALL_OK.io);
    FailedCreateLeaks(fs, "fifteen-letters", 512, ALL_OK);
  }
}
