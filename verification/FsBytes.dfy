// The file system: the bytes of every file along every run.

module FsBytes {
  import opened Extents
  import opened Options
  import opened BitRuns
  import opened FsModel
  import opened FsOwners
  import opened FsInvariant
  import opened FsRuns
  import IO = InodeIo

  // The device, and for each inode what has been written to its file: zeros at its creation, then
  // its own writes.
  datatype Disk = Disk(fs: Fs, bytes: seq<IO.Byte>, written: map<int, seq<IO.Byte>>)

  // A step of the file system, or DATA transferred to OFFSET of the file behind handle H.
  datatype Event = Plain(act: Action) | Data(h: int, offset: int, data: seq<IO.Byte>)

  function ActOf(e: Event): (act: Action) {
    match e
    case Plain(act) => act
    case Data(h, _, _) => WriteFile(h)
  }

  // The header of the inode behind a handle.
  function HeaderOf(fs: Fs, h: int): (r: Header)
    requires h in fs.handles
  {
    var i := FindOpen(fs.open, fs.handles[h]);
    if i == None then Header(0, 0) else fs.open[i.value].data
  }

  predicate MayHappen(fs: Fs, e: Event) {
    && Enabled(fs, ActOf(e))
    && match e
       case Plain(act) => !act.WriteFile?
       case Data(h, offset, data) => 0 <= offset && offset + |data| <= HeaderOf(fs, h).length
  }

  // The inode that inode_create writes.
  function NewFile(fs: Fs, act: Action): (r: Option<(int, Header)>) {
    match act
    case CreateFile(_, size, env) =>
      if 0 <= size && ReachesDirectory(fs, size, env) then
        CreateFinds(fs.used, size);
        var s := Search(fs.used, 0, 1, false).value;
        Some((s, Header(Search(Filled(fs.used, s, 1, true), 0, Sectors(size), false).value, size)))
      else None
    case _ => None
  }

  predicate IsMeta(fs: Fs, k: int) {
    InExtent(HeaderAt(fs.headers, FREE_MAP), k) || InExtent(HeaderAt(fs.headers, ROOT_DIR), k)
  }

  // The sectors that an event may write: those of the free map's file and the directory in any case.
  predicate Touched(fs: Fs, e: Event, k: int)
    requires MayHappen(fs, e)
  {
    || IsMeta(fs, k)
    || (NewFile(fs, ActOf(e)).Some?
        && (k == NewFile(fs, ActOf(e)).value.0 || InExtent(NewFile(fs, ActOf(e)).value.1, k)))
    || (e.Data? && InExtent(HeaderOf(fs, e.h), k))
  }

  // The file whose data starts at sector START holds W.
  predicate Holds(bytes: seq<IO.Byte>, start: int, w: seq<IO.Byte>) {
    forall i | 0 <= i < |w| :: ByteKept(bytes, start, w, i)
  }

  predicate ByteKept(bytes: seq<IO.Byte>, start: int, w: seq<IO.Byte>, i: int) {
    0 <= i < |w| && 0 <= 512 * start + i < |bytes| && bytes[512 * start + i] == w[i]
  }

  // W with DATA at OFFSET, as far as there is room.
  function Put(w: seq<IO.Byte>, offset: int, data: seq<IO.Byte>): (r: seq<IO.Byte>) {
    if 0 <= offset && offset + |data| <= |w| then IO.Overlaid(w, offset, data) else w
  }

  // The record of what was written.
  function Recorded(d: Disk, e: Event): (w: map<int, seq<IO.Byte>>)
    requires MayHappen(d.fs, e)
  {
    match e
    case Data(h, offset, data) =>
      var s := d.fs.handles[h];
      if s in d.written then d.written[s := Put(d.written[s], offset, data)] else d.written
    case Plain(CreateFile(name, size, env)) =>
      var f := NewFile(d.fs, e.act);
      if f.Some? && Create(d.fs, name, size, env).1 then d.written[f.value.0 := IO.Zeros(size)] else d.written
    case _ => d.written
  }

  // What an event does to the device.  Bytes of sectors that it does not write stay; a new file's
  // sectors are cleared; a transfer changes its range of its file and nothing else there.
  ghost predicate Moves(d: Disk, e: Event, d1: Disk)
    requires MayHappen(d.fs, e)
  {
    && d1.fs == Step(d.fs, ActOf(e)) && d1.written == Recorded(d, e) && |d1.bytes| == |d.bytes|
    && (forall x | 0 <= x < |d.bytes| && !Touched(d.fs, e, x / 512) :: d1.bytes[x] == d.bytes[x])
    && (NewFile(d.fs, ActOf(e)).Some? ==>
          var h := NewFile(d.fs, ActOf(e)).value.1;
          forall x | 0 <= x < |d.bytes| && InExtent(h, x / 512) && !IsMeta(d.fs, x / 512) :: d1.bytes[x] == 0)
    && (e.Data? ==>
          forall x | 0 <= x < |d.bytes| && InExtent(HeaderOf(d.fs, e.h), x / 512) && !IsMeta(d.fs, x / 512) ::
            d1.bytes[x] == Transferred(d.bytes, HeaderOf(d.fs, e.h).start, e.offset, e.data, x))
  }

  function Transferred(bytes: seq<IO.Byte>, start: int, offset: int, data: seq<IO.Byte>, x: int): (b: IO.Byte)
    requires 0 <= x < |bytes|
  {
    var i := x - 512 * start - offset;
    if 0 <= i < |data| then data[i] else bytes[x]
  }

  // ---------- what a step does to live inodes ----------

  // The inodes that files have: live, and neither the free map nor the root directory.
  function FileSet(fs: Fs): (r: set<int>) { LiveSet(fs.dir, fs.open) - {FREE_MAP, ROOT_DIR} }

  lemma ClosedSet(fs: Fs, s: int)
    ensures OpenSet(InodeClose(fs, s).open) <= OpenSet(fs.open) && InodeClose(fs, s).dir == fs.dir
    ensures InodeClose(fs, s).headers == fs.headers
  {
    var i := FindOpen(fs.open, s);
    if i.Some? {
      var node := fs.open[i.value];
      if node.openCnt != 1 {
        SameSectors(fs.open, fs.open[i.value := node.(openCnt := node.openCnt - 1)]);
      } else {
        CutSubset(fs.open, i.value);
      }
    }
  }

  lemma CutSubset(open: seq<Inode>, i: int)
    requires 0 <= i < |open|
    ensures OpenSet(open[..i] + open[i + 1..]) <= OpenSet(open)
  {
    var open1 := open[..i] + open[i + 1..];
    forall x | x in OpenSet(open1) ensures x in OpenSet(open) {
      var j :| 0 <= j < |open1| && open1[j].sector == x;
      assert open[if j < i then j else j + 1] == open1[j];
    }
  }

  lemma OpenedSet(fs: Fs, s: int, memOk: bool)
    requires InodeOpen(fs.open, fs.headers, s, memOk).Some?
    ensures OpenSet(InodeOpen(fs.open, fs.headers, s, memOk).value) <= OpenSet(fs.open) + {s}
  {
    var i := FindOpen(fs.open, s);
    if i.Some? {
      SameSectors(fs.open, InodeOpen(fs.open, fs.headers, s, memOk).value);
    } else {
      PushedSectors(fs.open, Inode(s, 1, false, HeaderAt(fs.headers, s)));
    }
  }

  lemma OpenKeeps(fs: Fs, name: string, h: int, rootOk: bool, cut: nat, memOk: bool, fileOk: bool)
    ensures var fs1 := Open(fs, name, h, rootOk, cut, memOk, fileOk).0;
      LiveSet(fs1.dir, fs1.open) <= LiveSet(fs.dir, fs.open) && fs1.headers == fs.headers
  {
    if Lookup(Seen(fs.dir, cut), name).Some? {
      NamedLive(fs.dir, cut, fs.open, name);
      var s := fs.dir[Lookup(Seen(fs.dir, cut), name).value].sector;
      var open := InodeOpen(fs.open, fs.headers, s, memOk);
      if open.Some? {
        OpenedSet(fs, s, memOk);
        ClosedSet(fs.(open := open.value), s);
      }
    }
  }

  lemma RemoveKeeps(fs: Fs, name: string, rootOk: bool, cut: nat, memOk: bool, writeOk: bool)
    ensures var fs1 := Remove(fs, name, rootOk, cut, memOk, writeOk).0;
      LiveSet(fs1.dir, fs1.open) <= LiveSet(fs.dir, fs.open) && fs1.headers == fs.headers
  {
    if Lookup(Seen(fs.dir, cut), name).Some? {
      NamedLive(fs.dir, cut, fs.open, name);
      var i := Lookup(Seen(fs.dir, cut), name).value;
      var s := fs.dir[i].sector;
      var open := InodeOpen(fs.open, fs.headers, s, memOk);
      if open.Some? {
        OpenedSet(fs, s, memOk);
        ErasedSubset(fs.dir, i);
        SameSectors(open.value, SetRemoved(open.value, s));
        ClosedSet(fs.(open := open.value), s);
        ClosedSet(fs.(open := SetRemoved(open.value, s), dir := fs.dir[i := fs.dir[i].(inUse := false)]), s);
      }
    }
  }

  lemma ErasedSubset(dir: seq<Entry>, i: int)
    requires 0 <= i < |dir|
    ensures NamedSet(dir[i := dir[i].(inUse := false)]) <= NamedSet(dir)
  {
    var dir1 := dir[i := dir[i].(inUse := false)];
    forall x | x in NamedSet(dir1) ensures x in NamedSet(dir) {
      var j :| 0 <= j < |dir1| && dir1[j].inUse && dir1[j].sector == x;
      assert dir[j] == dir1[j];
    }
  }

  lemma ReopenKeeps(fs: Fs, h: int, h1: int, fileOk: bool)
    requires h in fs.handles
    ensures var fs1 := Reopen(fs, h, h1, fileOk);
      LiveSet(fs1.dir, fs1.open) <= LiveSet(fs.dir, fs.open) && fs1.headers == fs.headers
  {
    var i := FindOpen(fs.open, fs.handles[h]);
    if i.Some? {
      var open := fs.open[i.value := fs.open[i.value].(openCnt := fs.open[i.value].openCnt + 1)];
      SameSectors(fs.open, open);
      assert LiveSet(fs.dir, open) == LiveSet(fs.dir, fs.open);
      if fileOk {
        assert Reopen(fs, h, h1, fileOk).open == open;
      } else {
        ClosedSet(fs.(open := open), fs.handles[h]);
        assert Reopen(fs, h, h1, fileOk) == InodeClose(fs.(open := open), fs.handles[h]);
      }
    }
  }

  // A creation makes at most its own inode live, and keeps the headers of those that are.
  lemma CreateKeeps(fs: Fs, name: string, size: int, env: Env)
    requires Inv(fs) && 0 <= size
    ensures var (fs1, ok) := Create(fs, name, size, env); var f := NewFile(fs, CreateFile(name, size, env));
      && (f.Some? ==> WasFree(fs.used, f.value.0, f.value.1) && f.value.1.length == size)
      && (ok ==> f.Some? && f.value.0 in fs1.headers && fs1.headers[f.value.0] == f.value.1)
      && LiveSet(fs1.dir, fs1.open) <= LiveSet(fs.dir, fs.open) + (if ok && f.Some? then {f.value.0} else {})
      && (forall t | t in LiveSet(fs.dir, fs.open) && t in fs.headers ::
            t in fs1.headers && fs1.headers[t] == fs.headers[t])
  {
    var f := NewFile(fs, CreateFile(name, size, env));
    if Search(fs.used, 0, 1, false).Some? { CreateFinds(fs.used, size); }
    if f.Some? {
      NewHeadersKept(fs, LiveSet(fs.dir, fs.open), f.value.0, f.value.1);
      var k := Slot(fs.dir, env.io.slotCut);
      if DirAdd(fs.dir, name, f.value.0, env.io).Some? { AddedSubset(fs.dir, k, name, f.value.0); }
    }
  }

  lemma AddedSubset(dir: seq<Entry>, k: int, name: string, s: int)
    requires 0 <= k < |dir|
    ensures NamedSet(dir[k := Entry(s, name, true)]) <= NamedSet(dir) + {s}
  {
    var dir1 := dir[k := Entry(s, name, true)];
    forall x | x in NamedSet(dir1) ensures x in NamedSet(dir) + {s} {
      var j :| 0 <= j < |dir1| && dir1[j].inUse && dir1[j].sector == x;
      assert j != k ==> dir1[j] == dir[j];
    }
  }

  lemma WriteKeeps(fs: Fs, s: int)
    requires Inv(fs) && s in OpenSet(fs.open)
    ensures LiveSet(Write(fs, s).dir, Write(fs, s).open) == LiveSet(fs.dir, fs.open)
    ensures forall t | t in LiveSet(fs.dir, fs.open) && t in fs.headers ::
      t in Write(fs, s).headers && Write(fs, s).headers[t] == fs.headers[t]
  {
    var live := LiveSet(fs.dir, fs.open);
    var n := fs.open[FindOpen(fs.open, s).value];
    assert InodeOk(fs.headers, fs.dir, n) && n.sector in live;
    forall t | t in live && t in fs.headers ensures !InExtent(n.data, t) {
      assert Solid(fs.used, fs.headers, t) && Solid(fs.used, fs.headers, s);
      if t != s { assert Apart(fs.headers, t, s) && Owns(fs.headers, t, t); }
    }
  }

  lemma SizeKept(fs: Fs, act: Action)
    requires Enabled(fs, act)
    ensures |Step(fs, act).used| == |fs.used|
  {
    match act
    case CreateFile(name, size, env) => if Search(fs.used, 0, 1, false).Some? { CreateFinds(fs.used, size); }
    case OpenFile(name, h, rootOk, cut, memOk, fileOk) => OpenSize(fs, name, h, rootOk, cut, memOk, fileOk);
    case ReopenFile(h, h1, fileOk) => ReopenSize(fs, h, h1, fileOk);
    case RemoveFile(name, rootOk, cut, memOk, writeOk) => RemoveSize(fs, name, rootOk, cut, memOk, writeOk);
    case CloseFile(h) => CloseSize(fs.(handles := fs.handles - {h}), fs.handles[h]);
    case WriteFile(h) =>
  }

  lemma CloseSize(fs: Fs, s: int)
    ensures |InodeClose(fs, s).used| == |fs.used|
  {
    var i := FindOpen(fs.open, s);
    if i.Some? && fs.open[i.value].openCnt == 1 && fs.open[i.value].removed {
      var used := ReleaseInode(fs.used, s, fs.open[i.value].data);
    }
  }

  lemma OpenSize(fs: Fs, name: string, h: int, rootOk: bool, cut: nat, memOk: bool, fileOk: bool)
    ensures |Open(fs, name, h, rootOk, cut, memOk, fileOk).0.used| == |fs.used|
  {
    if Lookup(Seen(fs.dir, cut), name).Some? {
      LookupInside(Seen(fs.dir, cut), name, 0);
      var s := fs.dir[Lookup(Seen(fs.dir, cut), name).value].sector;
      var open := InodeOpen(fs.open, fs.headers, s, memOk);
      if open.Some? { CloseSize(fs.(open := open.value), s); }
    }
  }

  lemma ReopenSize(fs: Fs, h: int, h1: int, fileOk: bool)
    requires h in fs.handles
    ensures |Reopen(fs, h, h1, fileOk).used| == |fs.used|
  {
    var i := FindOpen(fs.open, fs.handles[h]);
    if i.Some? && !fileOk {
      var open := fs.open[i.value := fs.open[i.value].(openCnt := fs.open[i.value].openCnt + 1)];
      CloseSize(fs.(open := open), fs.handles[h]);
    }
  }

  lemma RemoveSize(fs: Fs, name: string, rootOk: bool, cut: nat, memOk: bool, writeOk: bool)
    ensures |Remove(fs, name, rootOk, cut, memOk, writeOk).0.used| == |fs.used|
  {
    if Lookup(Seen(fs.dir, cut), name).Some? {
      LookupInside(Seen(fs.dir, cut), name, 0);
      var i := Lookup(Seen(fs.dir, cut), name).value;
      var s := fs.dir[i].sector;
      var open := InodeOpen(fs.open, fs.headers, s, memOk);
      if open.Some? {
        CloseSize(fs.(open := open.value), s);
        CloseSize(fs.(open := SetRemoved(open.value, s), dir := fs.dir[i := fs.dir[i].(inUse := false)]), s);
      }
    }
  }

  // The inode that a creation that succeeds makes live.
  function Created(fs: Fs, act: Action): (r: set<int>) {
    match act
    case CreateFile(name, size, env) =>
      if 0 <= size && Create(fs, name, size, env).1 && NewFile(fs, act).Some? then {NewFile(fs, act).value.0} else {}
    case _ => {}
  }

  lemma StepKeeps(fs: Fs, act: Action)
    requires Inv(fs) && Enabled(fs, act)
    ensures var fs1 := Step(fs, act);
      && LiveSet(fs1.dir, fs1.open) <= LiveSet(fs.dir, fs.open) + Created(fs, act)
      && (forall t | t in LiveSet(fs.dir, fs.open) && t in fs.headers ::
            t in fs1.headers && fs1.headers[t] == fs.headers[t])
  {
    match act
    case CreateFile(name, size, env) => CreateKeeps(fs, name, size, env);
    case OpenFile(name, h, rootOk, cut, memOk, fileOk) => OpenKeeps(fs, name, h, rootOk, cut, memOk, fileOk);
    case ReopenFile(h, h1, fileOk) => ReopenKeeps(fs, h, h1, fileOk);
    case RemoveFile(name, rootOk, cut, memOk, writeOk) => RemoveKeeps(fs, name, rootOk, cut, memOk, writeOk);
    case CloseFile(h) => ClosedSet(fs.(handles := fs.handles - {h}), fs.handles[h]);
    case WriteFile(h) => WriteKeeps(fs, fs.handles[h]);
  }

  // ---------- the bytes ----------

  predicate KeptAt(d: Disk, s: int) {
    && s in d.fs.headers && s in d.written && |d.written[s]| == d.fs.headers[s].length
    && Holds(d.bytes, d.fs.headers[s].start, d.written[s])
  }

  ghost predicate Faithful(d: Disk) {
    |d.bytes| == 512 * |d.fs.used| && forall s | s in FileSet(d.fs) :: KeptAt(d, s)
  }

  // Byte i of a file is in one of its sectors.
  lemma ByteInside(h: Header, i: int)
    requires 0 <= i < h.length
    ensures InExtent(h, (512 * h.start + i) / 512)
  {
    assert (512 * h.start + i) / 512 == h.start + i / 512;
  }

  // No event writes into the sectors of a file but a transfer to it.
  lemma NotTouched(fs: Fs, e: Event, t: int, k: int)
    requires Inv(fs) && MayHappen(fs, e) && t in FileSet(fs) && t in fs.headers && InExtent(fs.headers[t], k)
    ensures !IsMeta(fs, k) && (Touched(fs, e, k) ==> e.Data? && fs.handles[e.h] == t)
    ensures e.Data? && fs.handles[e.h] == t ==> HeaderOf(fs, e.h) == fs.headers[t]
  {
    var live := LiveSet(fs.dir, fs.open);
    assert Solid(fs.used, fs.headers, t) && Owns(fs.headers, t, k);
    OwnedUsed(fs.used, fs.headers, t, k);
    assert Solid(fs.used, fs.headers, FREE_MAP) && Solid(fs.used, fs.headers, ROOT_DIR);
    assert Apart(fs.headers, t, FREE_MAP) && Apart(fs.headers, t, ROOT_DIR);
    assert InExtent(fs.headers[FREE_MAP], k) ==> Owns(fs.headers, FREE_MAP, k);
    assert InExtent(fs.headers[ROOT_DIR], k) ==> Owns(fs.headers, ROOT_DIR, k);
    match e
    case Plain(CreateFile(name, size, env)) => CreateKeeps(fs, name, size, env);
    case Data(h, offset, data) => HandleOwns(fs, h, t, k);
    case _ =>
  }

  lemma HandleOwns(fs: Fs, h: int, t: int, k: int)
    requires Inv(fs) && h in fs.handles && t in FileSet(fs) && t in fs.headers && InExtent(fs.headers[t], k)
    ensures InExtent(HeaderOf(fs, h), k) ==> fs.handles[h] == t
    ensures fs.handles[h] == t ==> HeaderOf(fs, h) == fs.headers[t]
  {
    var s := fs.handles[h];
    assert s in OpenSet(fs.open);
    var i := FindOpen(fs.open, s).value;
    assert InodeOk(fs.headers, fs.dir, fs.open[i]) && s in LiveSet(fs.dir, fs.open);
    if s != t {
      assert Apart(fs.headers, t, s) && Owns(fs.headers, t, k);
      assert InExtent(fs.headers[s], k) ==> Owns(fs.headers, s, k);
    }
  }

  // A file that is live before and after.
  lemma OldFileKept(d: Disk, e: Event, d1: Disk, t: int)
    requires Inv(d.fs) && Faithful(d) && MayHappen(d.fs, e) && Moves(d, e, d1)
    requires t in FileSet(d.fs) && t !in Created(d.fs, ActOf(e))
    ensures KeptAt(d1, t)
  {
    StepKeeps(d.fs, ActOf(e));
    assert KeptAt(d, t);
    RecordedLen(d, e, t);
    forall i | 0 <= i < |d1.written[t]| ensures ByteKept(d1.bytes, d.fs.headers[t].start, d1.written[t], i) {
      OldByteKept(d, e, d1, t, i);
    }
  }

  lemma OldByteKept(d: Disk, e: Event, d1: Disk, t: int, i: int)
    requires Inv(d.fs) && MayHappen(d.fs, e) && Moves(d, e, d1)
    requires t in FileSet(d.fs) && t !in Created(d.fs, ActOf(e)) && KeptAt(d, t) && 0 <= i < |d.written[t]|
    ensures t in d1.written && ByteKept(d1.bytes, d.fs.headers[t].start, d1.written[t], i)
  {
    var x := 512 * d.fs.headers[t].start + i;
    assert ByteKept(d.bytes, d.fs.headers[t].start, d.written[t], i);
    ByteInside(d.fs.headers[t], i);
    NotTouched(d.fs, e, t, x / 512);
    RecordedAt(d, e, t, i);
  }

  lemma RecordedLen(d: Disk, e: Event, t: int)
    requires MayHappen(d.fs, e) && t in d.written && t !in Created(d.fs, ActOf(e))
    ensures t in Recorded(d, e) && |Recorded(d, e)[t]| == |d.written[t]|
  {}

  // Byte i of the record: the transferred byte, or the one before.
  lemma RecordedAt(d: Disk, e: Event, t: int, i: int)
    requires MayHappen(d.fs, e) && t in d.written && t !in Created(d.fs, ActOf(e)) && 0 <= i < |d.written[t]|
    ensures t in Recorded(d, e) && |Recorded(d, e)[t]| == |d.written[t]|
    ensures Recorded(d, e)[t][i]
      == if e.Data? && d.fs.handles[e.h] == t
            && e.offset + |e.data| <= |d.written[t]| && e.offset <= i < e.offset + |e.data|
         then e.data[i - e.offset] else d.written[t][i]
  {}

  lemma NewFileZero(d: Disk, e: Event, d1: Disk, t: int)
    requires Inv(d.fs) && |d.bytes| == 512 * |d.fs.used| && MayHappen(d.fs, e) && Moves(d, e, d1)
    requires t in Created(d.fs, ActOf(e))
    ensures KeptAt(d1, t)
  {
    var act := ActOf(e);
    CreateKeeps(d.fs, act.name, act.size, act.env);
    var h := NewFile(d.fs, act).value.1;
    forall i | 0 <= i < h.length ensures ByteKept(d1.bytes, h.start, IO.Zeros(h.length), i) {
      NewByteZero(d, e, d1, h, i);
    }
  }

  lemma NewByteZero(d: Disk, e: Event, d1: Disk, h: Header, i: int)
    requires Inv(d.fs) && |d.bytes| == 512 * |d.fs.used| && MayHappen(d.fs, e) && Moves(d, e, d1)
    requires NewFile(d.fs, ActOf(e)).Some? && h == NewFile(d.fs, ActOf(e)).value.1 && 0 <= i < h.length
    requires RunAt(d.fs.used, h.start, Sectors(h.length), false)
    ensures ByteKept(d1.bytes, h.start, IO.Zeros(h.length), i)
  {
    ByteInside(h, i);
    FreeNotMeta(d.fs, h, (512 * h.start + i) / 512);
  }

  // Sectors that were free are on the device and none of the free map's or the directory's.
  lemma FreeNotMeta(fs: Fs, h: Header, k: int)
    requires Inv(fs) && InExtent(h, k) && RunAt(fs.used, h.start, Sectors(h.length), false)
    ensures 0 <= k < |fs.used| && !IsMeta(fs, k)
  {
    assert Solid(fs.used, fs.headers, FREE_MAP) && Solid(fs.used, fs.headers, ROOT_DIR);
    assert !fs.used[k];
  }

  lemma FaithfulStep(d: Disk, e: Event, d1: Disk)
    requires Inv(d.fs) && Faithful(d) && MayHappen(d.fs, e) && Moves(d, e, d1)
    ensures Faithful(d1)
  {
    StepKeeps(d.fs, ActOf(e));
    SizeKept(d.fs, ActOf(e));
    forall t | t in FileSet(d1.fs) ensures KeptAt(d1, t) {
      if t in Created(d.fs, ActOf(e)) { NewFileZero(d, e, d1, t); } else { OldFileKept(d, e, d1, t); }
    }
  }

  // ---------- runs ----------

  ghost predicate IsRun(ds: seq<Disk>, es: seq<Event>) {
    && |ds| == |es| + 1
    && forall i | 0 <= i < |es| :: MayHappen(ds[i].fs, es[i]) && Moves(ds[i], es[i], ds[i + 1])
  }

  lemma {:induction false} FaithfulRun(ds: seq<Disk>, es: seq<Event>)
    requires IsRun(ds, es) && Inv(ds[0].fs) && Faithful(ds[0])
    ensures Inv(ds[|es|].fs) && Faithful(ds[|es|])
    decreases |es|
  {
    if es != [] {
      var n := |es| - 1;
      assert IsRun(ds[..n + 1], es[..n]);
      FaithfulRun(ds[..n + 1], es[..n]);
      assert ds[..n + 1][n] == ds[n];
      FaithfulStep(ds[n], es[n], ds[n + 1]);
      OneStepInv(ds[n].fs, ActOf(es[n]));
    }
  }

  lemma OneStepInv(fs: Fs, act: Action)
    requires Inv(fs) && Enabled(fs, act)
    ensures Inv(Step(fs, act))
  {
    assert [act][1..] == [];
    assert Legal(Step(fs, act), []);
    RunInv(fs, [act]);
    assert After(Step(fs, act), []) == Step(fs, act);
  }

  // After any run on a formatted device, whatever fails and whoever else writes, a file that is named
  // or open holds zeros overlaid by its own writes.
  lemma ContentsTrue(n: int, ds: seq<Disk>, es: seq<Event>, s: int)
    requires 2 <= n && Format(n).Some? && IsRun(ds, es)
    requires ds[0].fs == Format(n).value && |ds[0].bytes| == 512 * |ds[0].fs.used|
    requires s in FileSet(ds[|es|].fs)
    ensures KeptAt(ds[|es|], s)
  {
    FormatInv(n);
    assert FileSet(ds[0].fs) == {};
    FaithfulRun(ds, es);
  }
}
