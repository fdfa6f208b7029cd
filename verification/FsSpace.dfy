// The file system: every sector that is marked belongs to a file, unless a creation leaks.

module FsSpace {
  import opened Extents
  import opened BitRuns
  import opened FsModel
  import opened FsOwners
  import opened FsInvariant
  import opened FsRuns
  import opened FsBytes
  import opened FsEffects

  // ---------- marked sectors and their owners ----------

  ghost predicate Owned(headers: map<int, Header>, live: set<int>, k: int) {
    exists s :: s in live && Owns(headers, s, k)
  }

  ghost predicate Exact(used: seq<bool>, headers: map<int, Header>, live: set<int>) {
    forall k | 0 <= k < |used| :: used[k] <==> Owned(headers, live, k)
  }

  // An open inode is to be given back at its last close, or has a name; the free map's has neither.
  predicate Kept(dir: seq<Entry>, n: Inode) { n.removed || n.sector == FREE_MAP || n.sector in NamedSet(dir) }

  predicate AllKept(dir: seq<Entry>, open: seq<Inode>) { forall i | 0 <= i < |open| :: Kept(dir, open[i]) }

  // No sector is marked in vain, now or after the next close.
  ghost predicate Tidy(fs: Fs) {
    Exact(fs.used, fs.headers, LiveSet(fs.dir, fs.open)) && AllKept(fs.dir, fs.open)
  }

  lemma ExactSame(used: seq<bool>, headers: map<int, Header>, headers1: map<int, Header>, live: set<int>)
    requires forall s | s in live :: s in headers && s in headers1 && headers1[s] == headers[s]
    ensures Exact(used, headers1, live) <==> Exact(used, headers, live)
  {
    forall k ensures Owned(headers1, live, k) <==> Owned(headers, live, k) {
      if s :| s in live && Owns(headers, s, k) { assert Owns(headers1, s, k); }
      if s :| s in live && Owns(headers1, s, k) { assert Owns(headers, s, k); }
    }
  }

  lemma ExactAdded(used: seq<bool>, headers: map<int, Header>, live: set<int>, s: int, h: Header)
    requires Owners(used, headers, live) && WasFree(used, s, h) && Exact(used, headers, live)
    ensures Exact(Marked(used, s, h), NewHeaders(headers, s, h), live + {s})
  {
    var used1, headers1 := Marked(used, s, h), NewHeaders(headers, s, h);
    forall t | t in live ensures t in headers && t in headers1 && headers1[t] == headers[t] {
      assert Solid(used, headers, t);
      NewKeeps(used, headers, s, h, used, t);
    }
    assert headers1[s] == h;
    forall k | 0 <= k < |used1| ensures used1[k] <==> Owned(headers1, live + {s}, k) {
      assert used1[k] <==> used[k] || Owns(headers1, s, k);
      if t :| t in live && Owns(headers, t, k) { assert Owns(headers1, t, k); }
      if t :| t in live + {s} && Owns(headers1, t, k) { assert t != s ==> Owns(headers, t, k); }
      assert Owns(headers1, s, k) ==> s in live + {s};
    }
  }

  lemma ExactGiven(used: seq<bool>, used1: seq<bool>, headers: map<int, Header>, live: set<int>, s: int)
    requires Owners(used, headers, live) && Exact(used, headers, live) && s in live
    requires GivenBack(used, used1, headers, s)
    ensures Exact(used1, headers, live - {s})
  {
    forall k | 0 <= k < |used1| ensures used1[k] <==> Owned(headers, live - {s}, k) {
      if t :| t in live && Owns(headers, t, k) { assert t != s ==> t in live - {s}; }
      if t :| t in live - {s} && Owns(headers, t, k) {
        assert Apart(headers, t, s);
        OwnedIn(used, headers, live, t, k);
      }
    }
  }

  lemma OwnedIn(used: seq<bool>, headers: map<int, Header>, live: set<int>, t: int, k: int)
    requires Owners(used, headers, live) && t in live && Owns(headers, t, k)
    ensures 0 <= k < |used| && used[k] && Owned(headers, live, k)
  {
    assert Solid(used, headers, t);
    OwnedUsed(used, headers, t, k);
  }

  // ---------- open inodes ----------

  // The inodes in memory are those that handles are on.
  lemma OpenIsHandles(fs: Fs, s: int)
    requires Inv(fs)
    ensures s in OpenSet(fs.open) <==> Openers(fs.handles, s) != {}
  {
    if s in OpenSet(fs.open) {
      var i :| 0 <= i < |fs.open| && fs.open[i].sector == s;
      assert InodeOk(fs.headers, fs.dir, fs.open[i]);
    }
    if Openers(fs.handles, s) != {} {
      var h := Member(Openers(fs.handles, s));
      assert fs.handles[h] in OpenSet(fs.open);
    }
  }

  lemma SameOpen(fs: Fs, fs1: Fs)
    requires Inv(fs) && Inv(fs1) && fs1.handles == fs.handles
    ensures OpenSet(fs1.open) == OpenSet(fs.open)
  {
    forall s ensures s in OpenSet(fs1.open) <==> s in OpenSet(fs.open) {
      OpenIsHandles(fs, s);
      OpenIsHandles(fs1, s);
    }
  }

  lemma ClosedKept(fs: Fs, s: int)
    requires AllKept(fs.dir, fs.open)
    ensures AllKept(fs.dir, InodeClose(fs, s).open)
  {
    var open1 := InodeClose(fs, s).open;
    var i := FindOpen(fs.open, s);
    if i.Some? {
      forall j | 0 <= j < |open1| ensures Kept(fs.dir, open1[j]) {
        var k := if |open1| == |fs.open| || j < i.value then j else j + 1;
        assert Kept(fs.dir, fs.open[k]);
      }
    }
  }

  lemma OpenedKept(dir: seq<Entry>, open: seq<Inode>, headers: map<int, Header>, s: int, memOk: bool)
    requires AllKept(dir, open) && (s in NamedSet(dir) || FindOpen(open, s).Some?)
    requires InodeOpen(open, headers, s, memOk).Some?
    ensures AllKept(dir, InodeOpen(open, headers, s, memOk).value)
  {
    var open1 := InodeOpen(open, headers, s, memOk).value;
    var i := FindOpen(open, s);
    forall j | 0 <= j < |open1| ensures Kept(dir, open1[j]) {
      if i.Some? { assert Kept(dir, open[j]); } else if j > 0 { assert open1[j] == open[j - 1]; }
    }
  }

  // ---------- operations ----------

  lemma OpenTidy(fs: Fs, name: string, h: int, rootOk: bool, cut: nat, memOk: bool, fileOk: bool)
    requires Inv(fs) && Tidy(fs) && h !in fs.handles
    ensures Tidy(Open(fs, name, h, rootOk, cut, memOk, fileOk).0)
  {
    OpenExact(fs, name, h, rootOk, cut, memOk, fileOk);
    var (fs1, ok) := Open(fs, name, h, rootOk, cut, memOk, fileOk);
    if ok {
      NamedLive(fs.dir, cut, fs.open, name);
      var i := Lookup(Seen(fs.dir, cut), name).value;
      ScanFinds(fs.dir, cut, name, i);
      var s := fs.dir[i].sector;
      assert s in NamedSet(fs.dir);
      OpenedKept(fs.dir, fs.open, fs.headers, s, memOk);
      OpenInv(fs, name, h, rootOk, cut, memOk, fileOk);
      OneHandleMore(fs, fs1, h, s);
    }
  }

  lemma OneHandleMore(fs: Fs, fs1: Fs, h: int, s: int)
    requires Inv(fs) && Inv(fs1) && h !in fs.handles && fs1.handles == fs.handles[h := s]
    ensures OpenSet(fs1.open) == OpenSet(fs.open) + {s}
  {
    forall t ensures t in OpenSet(fs1.open) <==> t in OpenSet(fs.open) + {s} {
      OpenIsHandles(fs, t);
      OpenIsHandles(fs1, t);
      assert Openers(fs1.handles, t) == Openers(fs.handles, t) + if t == s then {h} else {};
    }
  }

  lemma ReopenTidy(fs: Fs, h: int, h1: int, fileOk: bool)
    requires Inv(fs) && Tidy(fs) && h in fs.handles && h1 !in fs.handles
    ensures Tidy(Reopen(fs, h, h1, fileOk))
  {
    ReopenExact(fs, h, h1, fileOk);
    if fileOk {
      var s := fs.handles[h];
      assert s in OpenSet(fs.open);
      ReopenIs(fs, h, h1, fileOk);
      OpenedKept(fs.dir, fs.open, fs.headers, s, false);
      ReopenInv(fs, h, h1, fileOk);
      OneHandleMore(fs, Reopen(fs, h, h1, fileOk), h1, s);
      assert OpenSet(fs.open) + {s} == OpenSet(fs.open);
    }
  }

  lemma CloseTidy(fs: Fs, h: int)
    requires Inv(fs) && Tidy(fs) && h in fs.handles
    ensures Tidy(Close(fs, h))
  {
    var s, fs1 := fs.handles[h], Close(fs, h);
    LastCloseFrees(fs, h);
    ClosedKept(fs.(handles := fs.handles - {h}), s);
    CloseInv(fs, h);
    CloseFrame(fs.(handles := fs.handles - {h}), s);
    var node := fs.open[FindOpen(fs.open, s).value];
    assert InodeOk(fs.headers, fs.dir, node) && Kept(fs.dir, node);
    OneHandleLess(fs, fs1, h);
    if Openers(fs.handles, s) == {h} && node.removed {
      ExactGiven(fs.used, fs1.used, fs.headers, LiveSet(fs.dir, fs.open), s);
      assert LiveSet(fs1.dir, fs1.open) == LiveSet(fs.dir, fs.open) - {s};
    } else {
      assert LiveSet(fs1.dir, fs1.open) == LiveSet(fs.dir, fs.open);
    }
  }

  lemma OneHandleLess(fs: Fs, fs1: Fs, h: int)
    requires Inv(fs) && Inv(fs1) && h in fs.handles && fs1.handles == fs.handles - {h}
    ensures var s := fs.handles[h];
      OpenSet(fs1.open) == if Openers(fs.handles, s) == {h} then OpenSet(fs.open) - {s} else OpenSet(fs.open)
  {
    var s := fs.handles[h];
    forall t ensures t in OpenSet(fs1.open) <==> t in OpenSet(fs.open) && !(t == s && Openers(fs.handles, s) == {h}) {
      OpenIsHandles(fs, t);
      OpenIsHandles(fs1, t);
      assert Openers(fs1.handles, t) == Openers(fs.handles, t) - {h};
      assert Openers(fs.handles, t) - {h} == {} <==> Openers(fs.handles, t) <= {h};
      assert h in Openers(fs.handles, t) <==> t == s;
    }
  }

  lemma RemovedKept(dir: seq<Entry>, i: int, open: seq<Inode>)
    requires DirOk(dir) && 0 <= i < |dir| && dir[i].inUse && AllKept(dir, open) && OpenDistinct(open)
    ensures AllKept(dir[i := dir[i].(inUse := false)], SetRemoved(open, dir[i].sector))
  {
    var s, dir1 := dir[i].sector, dir[i := dir[i].(inUse := false)];
    var open1 := SetRemoved(open, s);
    DirErased(dir, i);
    forall j | 0 <= j < |open1| ensures Kept(dir1, open1[j]) { assert Kept(dir, open[j]); }
  }

  lemma RemoveTidy(fs: Fs, name: string, rootOk: bool, cut: nat, memOk: bool, writeOk: bool)
    requires Inv(fs) && Tidy(fs)
    ensures Tidy(Remove(fs, name, rootOk, cut, memOk, writeOk).0)
  {
    RemoveExact(fs, name, rootOk, cut, memOk, writeOk);
    var (fs1, ok) := Remove(fs, name, rootOk, cut, memOk, writeOk);
    if ok {
      RemoveEffect(fs, name, rootOk, cut, memOk, writeOk);
      RemoveInv(fs, name, rootOk, cut, memOk, writeOk);
      SameOpen(fs, fs1);
      RemovedList(fs, name, rootOk, cut, memOk, writeOk);
      LookupInside(fs.dir, name, 0);
      RemovedExact(fs, fs1, Lookup(fs.dir, name).value);
    }
  }

  lemma RemovedExact(fs: Fs, fs1: Fs, i: int)
    requires Inv(fs) && Tidy(fs) && 0 <= i < |fs.dir| && fs.dir[i].inUse
    requires fs1.dir == fs.dir[i := fs.dir[i].(inUse := false)] && fs1.headers == fs.headers
    requires OpenSet(fs1.open) == OpenSet(fs.open)
    requires var s := fs.dir[i].sector;
      if Openers(fs.handles, s) == {} then GivenBack(fs.used, fs1.used, fs.headers, s) else fs1.used == fs.used
    ensures Exact(fs1.used, fs1.headers, LiveSet(fs1.dir, fs1.open))
  {
    DirErased(fs.dir, i);
    var s, live := fs.dir[i].sector, LiveSet(fs.dir, fs.open);
    assert s in NamedSet(fs.dir) && EntryOk(fs.dir[i]);
    OpenIsHandles(fs, s);
    if Openers(fs.handles, s) == {} {
      ExactGiven(fs.used, fs1.used, fs.headers, live, s);
      assert LiveSet(fs1.dir, fs1.open) == live - {s};
    } else {
      assert LiveSet(fs1.dir, fs1.open) == live;
    }
  }

  lemma RemovedList(fs: Fs, name: string, rootOk: bool, cut: nat, memOk: bool, writeOk: bool)
    requires Inv(fs) && AllKept(fs.dir, fs.open) && Remove(fs, name, rootOk, cut, memOk, writeOk).1
    ensures var fs1 := Remove(fs, name, rootOk, cut, memOk, writeOk).0; AllKept(fs1.dir, fs1.open)
  {
    NamedLive(fs.dir, cut, fs.open, name);
    var i := Lookup(Seen(fs.dir, cut), name).value;
    ScanFinds(fs.dir, cut, name, i);
    var s := fs.dir[i].sector;
    assert s in NamedSet(fs.dir);
    var open := InodeOpen(fs.open, fs.headers, s, memOk).value;
    OpenedKept(fs.dir, fs.open, fs.headers, s, memOk);
    OpenedPlus(fs, s, memOk, FREE_MAP);
    RemovedKept(fs.dir, i, open);
    ClosedKept(fs.(open := SetRemoved(open, s), dir := fs.dir[i := fs.dir[i].(inUse := false)]), s);
    CloseFrame(fs.(open := SetRemoved(open, s), dir := fs.dir[i := fs.dir[i].(inUse := false)]), s);
  }

  lemma WriteTidy(fs: Fs, s: int)
    requires Inv(fs) && Tidy(fs) && s in OpenSet(fs.open)
    ensures Tidy(Write(fs, s))
  {
    WriteKeeps(fs, s);
    var live := LiveSet(fs.dir, fs.open);
    forall t | t in live ensures t in fs.headers { assert Solid(fs.used, fs.headers, t); }
    ExactSame(fs.used, fs.headers, Write(fs, s).headers, live);
  }

  // ---------- filesys_create ----------

  // The creation leaks: it fails in the directory after taking data sectors, or writes over an entry in use.
  predicate Leaks(fs: Fs, size: int, name: string, env: Env) {
    && ReachesDirectory(fs, size, env)
    && if FsRuns.Takes(fs.dir, name, env.io)
       then 0 <= Slot(fs.dir, env.io.slotCut) < |fs.dir| && fs.dir[Slot(fs.dir, env.io.slotCut)].inUse
       else 0 < size
  }

  lemma AddedKept(dir: seq<Entry>, k: int, name: string, s: int, open: seq<Inode>)
    requires 0 <= k < |dir| && !dir[k].inUse && AllKept(dir, open)
    ensures AllKept(dir[k := Entry(s, name, true)], open)
    ensures NamedSet(dir[k := Entry(s, name, true)]) == NamedSet(dir) + {s}
  {
    var dir1 := dir[k := Entry(s, name, true)];
    forall x | x in NamedSet(dir) ensures x in NamedSet(dir1) {
      var j :| 0 <= j < |dir| && dir[j].inUse && dir[j].sector == x;
      assert dir1[j] == dir[j];
    }
    assert dir1[k].sector == s;
    AddedSubset(dir, k, name, s);
    forall j | 0 <= j < |open| ensures Kept(dir1, open[j]) { assert Kept(dir, open[j]); }
  }

  lemma CreatedTidy(fs: Fs, name: string, s: int, h: Header, io: DirIo)
    requires Inv(fs) && Tidy(fs) && WasFree(fs.used, s, h) && DirAdd(fs.dir, name, s, io).Some?
    requires !fs.dir[Slot(fs.dir, io.slotCut)].inUse
    ensures Tidy(fs.(used := Marked(fs.used, s, h), headers := NewHeaders(fs.headers, s, h),
                     dir := DirAdd(fs.dir, name, s, io).value))
  {
    var k, live := Slot(fs.dir, io.slotCut), LiveSet(fs.dir, fs.open);
    ExactAdded(fs.used, fs.headers, live, s, h);
    AddedKept(fs.dir, k, name, s, fs.open);
    assert LiveSet(fs.dir[k := Entry(s, name, true)], fs.open) == live + {s};
  }

  // An entry written over: its inode is left without a name.
  lemma OverwrittenUntidy(fs: Fs, fs1: Fs, k: int, name: string, s: int, h: Header)
    requires Inv(fs) && WasFree(fs.used, s, h) && 0 <= k < |fs.dir| && fs.dir[k].inUse
    requires fs1 == fs.(used := Marked(fs.used, s, h), headers := NewHeaders(fs.headers, s, h),
                        dir := fs.dir[k := Entry(s, name, true)])
    ensures !Tidy(fs1)
  {
    var t, live := fs.dir[k].sector, LiveSet(fs.dir, fs.open);
    assert t in NamedSet(fs.dir) && EntryOk(fs.dir[k]);
    assert Solid(fs.used, fs.headers, t);
    OwnedUsed(fs.used, fs.headers, t, t);
    NewHeadersKept(fs, live, s, h);
    Unnamed(fs.dir, k, name, s);
    if t in OpenSet(fs.open) {
      var i :| 0 <= i < |fs.open| && fs.open[i].sector == t;
      assert InodeOk(fs.headers, fs.dir, fs.open[i]);
      assert !Kept(fs1.dir, fs1.open[i]);
    } else {
      OnlyOwner(fs, s, h, t);
      var live1 := LiveSet(fs1.dir, fs1.open);
      AddedSubset(fs.dir, k, name, s);
      forall u | u in live1 ensures !Owns(fs1.headers, u, t) {}
      assert fs1.used[t] && !Owned(fs1.headers, live1, t);
    }
  }

  lemma Unnamed(dir: seq<Entry>, k: int, name: string, s: int)
    requires DirOk(dir) && 0 <= k < |dir| && dir[k].inUse && s !in NamedSet(dir)
    ensures dir[k].sector !in NamedSet(dir[k := Entry(s, name, true)])
  {
    var dir1 := dir[k := Entry(s, name, true)];
    assert dir[k].sector in NamedSet(dir);
    forall j | 0 <= j < |dir1| && dir1[j].inUse ensures dir1[j].sector != dir[k].sector {}
  }

  // No inode but T, the new one included, has T's sector.
  lemma OnlyOwner(fs: Fs, s: int, h: Header, t: int)
    requires Inv(fs) && WasFree(fs.used, s, h) && t in LiveSet(fs.dir, fs.open)
    ensures forall u | u in LiveSet(fs.dir, fs.open) + {s} && u != t :: !Owns(NewHeaders(fs.headers, s, h), u, t)
  {
    var live := LiveSet(fs.dir, fs.open);
    NewHeadersKept(fs, live, s, h);
    assert Solid(fs.used, fs.headers, t) && Owns(fs.headers, t, t);
    OwnedUsed(fs.used, fs.headers, t, t);
    forall u | u in live + {s} && u != t ensures !Owns(NewHeaders(fs.headers, s, h), u, t) {
      if u != s { assert Solid(fs.used, fs.headers, u) && Apart(fs.headers, t, u) && !Owns(fs.headers, u, t); }
    }
  }

  // Data sectors taken for nothing.
  lemma LeakedUntidy(fs: Fs, s: int, h: Header)
    requires Inv(fs) && WasFree(fs.used, s, h) && 0 < h.length
    ensures !Tidy(fs.(used := Filled(Marked(fs.used, s, h), s, 1, false), headers := NewHeaders(fs.headers, s, h)))
  {
    var live, headers1 := LiveSet(fs.dir, fs.open), NewHeaders(fs.headers, s, h);
    var used1, k := Filled(Marked(fs.used, s, h), s, 1, false), h.start;
    NewHeadersKept(fs, live, s, h);
    assert InExtent(h, k) && !fs.used[k] && used1[k];
    forall u | u in live ensures !Owns(headers1, u, k) {
      assert Solid(fs.used, fs.headers, u);
      if Owns(fs.headers, u, k) { OwnedUsed(fs.used, fs.headers, u, k); }
    }
    assert !Owned(headers1, live, k);
  }

  lemma EmptyTidy(fs: Fs, s: int, h: Header)
    requires Inv(fs) && Tidy(fs) && WasFree(fs.used, s, h) && h.length == 0
    ensures Tidy(fs.(used := Filled(Marked(fs.used, s, h), s, 1, false), headers := NewHeaders(fs.headers, s, h)))
  {
    var live := LiveSet(fs.dir, fs.open);
    LeakShows(fs.used, s, h);
    NewHeadersKept(fs, live, s, h);
    forall t | t in live ensures t in fs.headers { assert Solid(fs.used, fs.headers, t); }
    ExactSame(fs.used, fs.headers, NewHeaders(fs.headers, s, h), live);
  }

  // A creation keeps the file system tidy exactly if it does not leak.
  lemma CreateTidyExact(fs: Fs, name: string, size: int, env: Env)
    requires Inv(fs) && Tidy(fs) && 0 <= size
    ensures Tidy(Create(fs, name, size, env).0) <==> !Leaks(fs, size, name, env)
  {
    if ReachesDirectory(fs, size, env) {
      CreateFinds(fs.used, size);
      var s := Search(fs.used, 0, 1, false).value;
      var d := Search(Filled(fs.used, s, 1, true), 0, Sectors(size), false).value;
      var h, k := Header(d, size), Slot(fs.dir, env.io.slotCut);
      TakesAdds(fs.dir, name, s, env.io);
      NewHeadersKept(fs, LiveSet(fs.dir, fs.open), s, h);
      if FsRuns.Takes(fs.dir, name, env.io) {
        if fs.dir[k].inUse {
          OverwrittenUntidy(fs, Create(fs, name, size, env).0, k, name, s, h);
        } else {
          CreatedTidy(fs, name, s, h, env.io);
        }
      } else if 0 < size {
        LeakedUntidy(fs, s, h);
      } else {
        EmptyTidy(fs, s, h);
      }
    } else {
      assert Create(fs, name, size, env).0 == fs by { NotReached(fs, name, size, env); }
    }
  }

  lemma NotReached(fs: Fs, name: string, size: int, env: Env)
    requires 0 <= size && !ReachesDirectory(fs, size, env)
    ensures Create(fs, name, size, env).0 == fs
  {
    if Search(fs.used, 0, 1, false).Some? { CreateFinds(fs.used, size); }
  }

  // ---------- runs ----------

  predicate LeaksIn(fs: Fs, act: Action) { act.CreateFile? && Leaks(fs, act.size, act.name, act.env) }

  // Every step keeps the file system tidy exactly if it is not a creation that leaks.
  lemma StepTidyExact(fs: Fs, act: Action)
    requires Inv(fs) && Tidy(fs) && Enabled(fs, act)
    ensures Tidy(Step(fs, act)) <==> !LeaksIn(fs, act)
  {
    match act
    case CreateFile(name, size, env) => CreateTidyExact(fs, name, size, env);
    case OpenFile(name, h, rootOk, cut, memOk, fileOk) => OpenTidy(fs, name, h, rootOk, cut, memOk, fileOk);
    case ReopenFile(h, h1, fileOk) => ReopenTidy(fs, h, h1, fileOk);
    case RemoveFile(name, rootOk, cut, memOk, writeOk) => RemoveTidy(fs, name, rootOk, cut, memOk, writeOk);
    case CloseFile(h) => CloseTidy(fs, h);
    case WriteFile(h) => WriteTidy(fs, fs.handles[h]);
  }

  predicate NoneLeaks(fs: Fs, acts: seq<Action>)
    requires Legal(fs, acts)
    decreases |acts|
  {
    acts == [] || (!LeaksIn(fs, acts[0]) && NoneLeaks(Step(fs, acts[0]), acts[1..]))
  }

  lemma {:induction false} TidyRun(fs: Fs, acts: seq<Action>)
    requires Inv(fs) && Tidy(fs) && Legal(fs, acts) && NoneLeaks(fs, acts)
    ensures Inv(After(fs, acts)) && Tidy(After(fs, acts))
    decreases |acts|
  {
    if acts != [] {
      StepTidyExact(fs, acts[0]);
      OneStepInv(fs, acts[0]);
      TidyRun(Step(fs, acts[0]), acts[1..]);
    }
  }

  lemma FormatTidy(n: int)
    requires 2 <= n && Format(n).Some?
    ensures Tidy(Format(n).value)
  {
    FormatInv(n);
    var fs := Format(n).value;
    var h0, h1 := fs.headers[FREE_MAP], fs.headers[ROOT_DIR];
    var used0 := InitialMap(n);
    SearchFinds(used0, 0, Sectors(h0.length), false);
    SearchFinds(Filled(used0, h0.start, Sectors(h0.length), true), 0, Sectors(h1.length), false);
    assert LiveSet(fs.dir, fs.open) == {FREE_MAP, ROOT_DIR};
    forall k | 0 <= k < n ensures fs.used[k] <==> Owned(fs.headers, {FREE_MAP, ROOT_DIR}, k) {
      assert fs.used[k] <==> Owns(fs.headers, FREE_MAP, k) || Owns(fs.headers, ROOT_DIR, k);
    }
  }

  // From formatting on, as long as no creation leaks, a sector is marked exactly if it belongs to the free map, the
  // root directory, or a file that has a name or a handle; so once all files are removed and closed, the
  // rest of the device is free.
  lemma SpaceExact(n: int, acts: seq<Action>, k: int)
    requires 2 <= n && Format(n).Some? && Legal(Format(n).value, acts) && NoneLeaks(Format(n).value, acts)
    requires 0 <= k < |After(Format(n).value, acts).used|
    ensures var fs := After(Format(n).value, acts);
      && (fs.used[k] <==> Owned(fs.headers, LiveSet(fs.dir, fs.open), k))
      && (FileSet(fs) == {} ==> (fs.used[k] <==> Owns(fs.headers, FREE_MAP, k) || Owns(fs.headers, ROOT_DIR, k)))
  {
    FormatTidy(n);
    FormatInv(n);
    TidyRun(Format(n).value, acts);
    var fs := After(Format(n).value, acts);
    if FileSet(fs) == {} { assert LiveSet(fs.dir, fs.open) == {FREE_MAP, ROOT_DIR}; }
  }
}
