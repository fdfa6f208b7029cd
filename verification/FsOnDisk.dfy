// The file system: what can be read back from the bytes of the device alone, along every run.

module FsOnDisk {
  import opened Options
  import opened BitRuns
  import opened FsModel
  import opened FsOwners
  import opened FsInvariant
  import opened FsRuns
  import opened FsBytes
  import opened DiskFormat
  import IO = InodeIo

  // ---------- reading the device ----------

  // LENGTH bytes from sector START on, nothing where the device has no such bytes.
  function Slice(bytes: seq<IO.Byte>, start: int, length: int): (r: seq<IO.Byte>) {
    if 0 <= start && 0 <= length && 512 * start + length <= |bytes| then
      bytes[512 * start..512 * start + length]
    else []
  }

  // The inode in sector S.
  function HeaderOn(bytes: seq<IO.Byte>, s: int): (h: Header) {
    var b := Slice(bytes, s, 512);
    if |b| == 512 then ReadHeader(b) else Header(0, 0)
  }

  function RootOn(bytes: seq<IO.Byte>): (dir: seq<Entry>) {
    var h := HeaderOn(bytes, ROOT_DIR);
    Entries(Slice(bytes, h.start, h.length))
  }

  // What the file called NAME holds.
  function FileOn(bytes: seq<IO.Byte>, name: string): (r: Option<seq<IO.Byte>>) {
    var dir := RootOn(bytes);
    var i := Lookup(dir, name);
    if i == None then None
    else
      LookupInside(dir, name, 0);
      var h := HeaderOn(bytes, dir[i.value].sector);
      Some(Slice(bytes, h.start, h.length))
  }

  // ---------- writing it ----------

  // dir_add on the directory's bytes.  WAS is what its buffer holds before it fills it in.
  function AddOn(content: seq<IO.Byte>, name: string, s: int, io: DirIo, was: seq<IO.Byte>): (r: seq<IO.Byte>)
    requires |was| == 20
    ensures |r| == |content|
  {
    var dir := Entries(content);
    if DirAdd(dir, name, s, io) == None then content
    else IO.Overlaid(content, 20 * Slot(dir, io.slotCut), NewSlot(was, name, s))
  }

  // dir_remove on the directory's bytes, once it has the inode.
  function EraseOn(content: seq<IO.Byte>, i: int): (r: seq<IO.Byte>)
    requires 0 <= i < |content| / 20
    ensures |r| == |content|
  {
    IO.Overlaid(content, 20 * i, ErasedSlot(content[20 * i..20 * i + 20]))
  }

  // The directory's bytes after an action.
  function DirAfter(content: seq<IO.Byte>, fs: Fs, act: Action, was: seq<IO.Byte>): (r: seq<IO.Byte>)
    requires |was| == 20
    ensures |r| == |content|
  {
    match act
    case CreateFile(name, size, env) =>
      var f := NewFile(fs, act);
      if f == None then content else AddOn(content, name, f.value.0, env.io, was)
    case RemoveFile(name, rootOk, cut, memOk, writeOk) =>
      var dir := Entries(content);
      var i := Lookup(Seen(dir, cut), name);
      if !rootOk || !writeOk || i == None then content
      else
        LookupInside(Seen(dir, cut), name, 0);
        if InodeOpen(fs.open, fs.headers, dir[i.value].sector, memOk) == None then content
        else EraseOn(content, i.value)
    case _ => content
  }

  function Root(fs: Fs): (h: Header) { HeaderAt(fs.headers, ROOT_DIR) }

  function RootBytes(fs: Fs, bytes: seq<IO.Byte>): (r: seq<IO.Byte>) { Slice(bytes, Root(fs).start, Root(fs).length) }

  // A name is a C string and a size an off_t.
  predicate MayUpdate(fs: Fs, e: Event, was: seq<IO.Byte>) {
    && MayHappen(fs, e) && |was| == 20
    && (ActOf(e).CreateFile? ==> PlainName(ActOf(e).name) && ActOf(e).size < 0x8000_0000)
  }

  // What an event does to the device, with the bytes of the new inode and of the directory.
  ghost predicate Updates(d: Disk, e: Event, was: seq<IO.Byte>, d1: Disk)
    requires MayUpdate(d.fs, e, was)
  {
    && Moves(d, e, d1)
    && (var f := NewFile(d.fs, ActOf(e)); f.Some? ==> Slice(d1.bytes, f.value.0, 512) == Image(f.value.1))
    && RootBytes(d.fs, d1.bytes) == DirAfter(RootBytes(d.fs, d.bytes), d.fs, ActOf(e), was)
  }

  // ---------- the invariant ----------

  predicate ImageAt(d: Disk, s: int) {
    && s in d.fs.headers && d.fs.headers[s].length < 0x8000_0000
    && Slice(d.bytes, s, 512) == Image(d.fs.headers[s])
  }

  ghost predicate OnDisk(d: Disk) {
    && |d.bytes| == 512 * |d.fs.used| && |d.fs.used| < 0x1_0000_0000
    && ROOT_DIR !in OpenSet(d.fs.open)
    && (forall s | s in LiveSet(d.fs.dir, d.fs.open) :: ImageAt(d, s))
    && Entries(RootBytes(d.fs, d.bytes)) == d.fs.dir
  }

  // ---------- inodes ----------

  // No event writes into the sector of a live inode.
  lemma InodeNotTouched(fs: Fs, e: Event, t: int)
    requires Inv(fs) && MayHappen(fs, e) && t in LiveSet(fs.dir, fs.open)
    ensures !Touched(fs, e, t)
  {
    assert Solid(fs.used, fs.headers, t);
    OwnedUsed(fs.used, fs.headers, t, t);
    NotIn(fs, t, FREE_MAP);
    NotIn(fs, t, ROOT_DIR);
    match e
    case Plain(CreateFile(name, size, env)) => CreateKeeps(fs, name, size, env);
    case Data(h, offset, data) => NotInOpen(fs, h, t);
    case _ =>
  }

  lemma NotIn(fs: Fs, t: int, s: int)
    requires Inv(fs) && t in LiveSet(fs.dir, fs.open) && s in LiveSet(fs.dir, fs.open)
    ensures s in fs.headers && !InExtent(fs.headers[s], t)
  {
    assert Solid(fs.used, fs.headers, t) && Owns(fs.headers, t, t) && Solid(fs.used, fs.headers, s);
    if s != t { assert Apart(fs.headers, t, s) && !Owns(fs.headers, s, t); }
  }

  lemma NotInOpen(fs: Fs, h: int, t: int)
    requires Inv(fs) && h in fs.handles && t in LiveSet(fs.dir, fs.open)
    ensures !InExtent(HeaderOf(fs, h), t)
  {
    var s := fs.handles[h];
    assert s in OpenSet(fs.open);
    var i := FindOpen(fs.open, s).value;
    assert InodeOk(fs.headers, fs.dir, fs.open[i]);
    NotIn(fs, t, s);
  }

  lemma SectorKept(d: Disk, e: Event, d1: Disk, t: int)
    requires MayHappen(d.fs, e) && Moves(d, e, d1) && !Touched(d.fs, e, t)
    ensures Slice(d1.bytes, t, 512) == Slice(d.bytes, t, 512)
  {
    if 0 <= t && 512 * t + 512 <= |d.bytes| {
      forall x | 512 * t <= x < 512 * t + 512 ensures d1.bytes[x] == d.bytes[x] { assert x / 512 == t; }
    }
  }

  lemma ImageKept(d: Disk, e: Event, was: seq<IO.Byte>, d1: Disk, t: int)
    requires Inv(d.fs) && OnDisk(d) && MayUpdate(d.fs, e, was) && Updates(d, e, was, d1)
    requires t in LiveSet(d1.fs.dir, d1.fs.open)
    ensures ImageAt(d1, t)
  {
    var act := ActOf(e);
    StepKeeps(d.fs, act);
    if t in Created(d.fs, act) {
      CreateKeeps(d.fs, act.name, act.size, act.env);
    } else {
      assert ImageAt(d, t);
      InodeNotTouched(d.fs, e, t);
      SectorKept(d, e, d1, t);
    }
  }

  // ---------- the directory ----------

  // The bytes after an action decode to the entries after it.
  lemma DirDecodes(content: seq<IO.Byte>, fs: Fs, act: Action, was: seq<IO.Byte>)
    requires Entries(content) == fs.dir && Enabled(fs, act) && |was| == 20 && |fs.used| < 0x1_0000_0000
    requires act.CreateFile? ==> PlainName(act.name)
    ensures Entries(DirAfter(content, fs, act, was)) == Step(fs, act).dir
  {
    match act
    case CreateFile(name, size, env) => AddDecodes(content, fs, name, size, env, was);
    case OpenFile(name, h, rootOk, cut, memOk, fileOk) => OpenKeepsDir(fs, name, h, rootOk, cut, memOk, fileOk);
    case ReopenFile(h, h1, fileOk) =>
    case RemoveFile(name, rootOk, cut, memOk, writeOk) =>
      EraseDecodes(content, fs, name, rootOk, cut, memOk, writeOk, was);
    case CloseFile(h) =>
    case WriteFile(h) =>
  }

  lemma AddDecodes(content: seq<IO.Byte>, fs: Fs, name: string, size: int, env: Env, was: seq<IO.Byte>)
    requires Entries(content) == fs.dir && 0 <= size && |was| == 20 && |fs.used| < 0x1_0000_0000 && PlainName(name)
    ensures Entries(DirAfter(content, fs, CreateFile(name, size, env), was)) == Create(fs, name, size, env).0.dir
  {
    var f := NewFile(fs, CreateFile(name, size, env));
    if Search(fs.used, 0, 1, false).Some? { CreateFinds(fs.used, size); }
    if f.Some? && DirAdd(fs.dir, name, f.value.0, env.io).Some? {
      DirAddOnBytes(content, name, f.value.0, env.io, was);
    }
  }

  lemma EraseDecodes(content: seq<IO.Byte>, fs: Fs, name: string, rootOk: bool, cut: nat, memOk: bool, writeOk: bool,
                     was: seq<IO.Byte>)
    requires Entries(content) == fs.dir && |was| == 20
    ensures Entries(DirAfter(content, fs, RemoveFile(name, rootOk, cut, memOk, writeOk), was))
         == Remove(fs, name, rootOk, cut, memOk, writeOk).0.dir
  {
    RemovedDir(fs, name, rootOk, cut, memOk, writeOk);
    if Lookup(Seen(fs.dir, cut), name).Some? {
      EraseOnBytes(content, Lookup(Seen(fs.dir, cut), name).value);
    }
  }

  // The root directory's own inode is never open between calls.
  lemma RootShut(fs: Fs, act: Action)
    requires Inv(fs) && Enabled(fs, act) && ROOT_DIR !in OpenSet(fs.open)
    ensures ROOT_DIR !in OpenSet(Step(fs, act).open)
  {
    match act
    case CreateFile(name, size, env) =>
    case OpenFile(name, h, rootOk, cut, memOk, fileOk) => OpenShut(fs, name, h, rootOk, cut, memOk, fileOk);
    case ReopenFile(h, h1, fileOk) => ReopenShut(fs, h, h1, fileOk);
    case RemoveFile(name, rootOk, cut, memOk, writeOk) => RemoveShut(fs, name, rootOk, cut, memOk, writeOk);
    case CloseFile(h) => ClosedSet(fs.(handles := fs.handles - {h}), fs.handles[h]);
    case WriteFile(h) =>
  }

  lemma NamedNotRoot(fs: Fs, cut: nat, name: string)
    requires Inv(fs) && Lookup(Seen(fs.dir, cut), name).Some?
    ensures var i := Lookup(Seen(fs.dir, cut), name).value; 0 <= i < |fs.dir| && fs.dir[i].sector != ROOT_DIR
  {
    LookupInside(Seen(fs.dir, cut), name, 0);
  }

  lemma OpenShut(fs: Fs, name: string, h: int, rootOk: bool, cut: nat, memOk: bool, fileOk: bool)
    requires Inv(fs) && ROOT_DIR !in OpenSet(fs.open)
    ensures ROOT_DIR !in OpenSet(Open(fs, name, h, rootOk, cut, memOk, fileOk).0.open)
  {
    if Lookup(Seen(fs.dir, cut), name).Some? {
      NamedNotRoot(fs, cut, name);
      var s := fs.dir[Lookup(Seen(fs.dir, cut), name).value].sector;
      var open := InodeOpen(fs.open, fs.headers, s, memOk);
      if open.Some? {
        OpenedSet(fs, s, memOk);
        ClosedSet(fs.(open := open.value), s);
      }
    }
  }

  lemma ReopenShut(fs: Fs, h: int, h1: int, fileOk: bool)
    requires h in fs.handles && ROOT_DIR !in OpenSet(fs.open)
    ensures ROOT_DIR !in OpenSet(Reopen(fs, h, h1, fileOk).open)
  {
    var s := fs.handles[h];
    if FindOpen(fs.open, s).Some? {
      ReopenIs(fs, h, h1, fileOk);
      var open := InodeOpen(fs.open, fs.headers, s, false).value;
      OpenedSet(fs, s, false);
      ClosedSet(fs.(open := open), s);
      assert s in OpenSet(fs.open);
    }
  }

  lemma RemoveShut(fs: Fs, name: string, rootOk: bool, cut: nat, memOk: bool, writeOk: bool)
    requires Inv(fs) && ROOT_DIR !in OpenSet(fs.open)
    ensures ROOT_DIR !in OpenSet(Remove(fs, name, rootOk, cut, memOk, writeOk).0.open)
  {
    if Lookup(Seen(fs.dir, cut), name).Some? {
      NamedNotRoot(fs, cut, name);
      var i := Lookup(Seen(fs.dir, cut), name).value;
      var s := fs.dir[i].sector;
      var open := InodeOpen(fs.open, fs.headers, s, memOk);
      if open.Some? {
        OpenedSet(fs, s, memOk);
        SameSectors(open.value, SetRemoved(open.value, s));
        ClosedSet(fs.(open := open.value), s);
        ClosedSet(fs.(open := SetRemoved(open.value, s), dir := fs.dir[i := fs.dir[i].(inUse := false)]), s);
      }
    }
  }

  // Every event keeps inodes and directory on disk what they are in the model.
  lemma OnDiskStep(d: Disk, e: Event, was: seq<IO.Byte>, d1: Disk)
    requires Inv(d.fs) && OnDisk(d) && MayUpdate(d.fs, e, was) && Updates(d, e, was, d1)
    ensures OnDisk(d1)
  {
    StepKeeps(d.fs, ActOf(e));
    SizeKept(d.fs, ActOf(e));
    RootShut(d.fs, ActOf(e));
    assert Solid(d.fs.used, d.fs.headers, ROOT_DIR);
    DirDecodes(RootBytes(d.fs, d.bytes), d.fs, ActOf(e), was);
    forall s | s in LiveSet(d1.fs.dir, d1.fs.open) ensures ImageAt(d1, s) { ImageKept(d, e, was, d1, s); }
  }

  // ---------- whatever may happen has an outcome ----------

  // Byte x outside the directory and the free map.
  function FileByte(d: Disk, e: Event, x: int): (b: IO.Byte)
    requires MayHappen(d.fs, e) && 0 <= x < |d.bytes|
  {
    var f := NewFile(d.fs, ActOf(e));
    if f.Some? && x / 512 == f.value.0 then Image(f.value.1)[x % 512]
    else if f.Some? && InExtent(f.value.1, x / 512) then 0
    else if e.Data? && InExtent(HeaderOf(d.fs, e.h), x / 512) then
      Transferred(d.bytes, HeaderOf(d.fs, e.h).start, e.offset, e.data, x)
    else d.bytes[x]
  }

  function UpdatedByte(d: Disk, e: Event, was: seq<IO.Byte>, x: int): (b: IO.Byte)
    requires MayUpdate(d.fs, e, was) && 0 <= x < |d.bytes|
  {
    var root := DirAfter(RootBytes(d.fs, d.bytes), d.fs, ActOf(e), was);
    var i := x - 512 * Root(d.fs).start;
    if 0 <= i < |root| then root[i] else FileByte(d, e, x)
  }

  function Updated(d: Disk, e: Event, was: seq<IO.Byte>): (d1: Disk)
    requires MayUpdate(d.fs, e, was)
  {
    var bytes := seq(|d.bytes|, x requires 0 <= x < |d.bytes| => UpdatedByte(d, e, was, x));
    Disk(Step(d.fs, ActOf(e)), bytes, Recorded(d, e))
  }

  lemma UpdatesOn(d: Disk, e: Event, was: seq<IO.Byte>)
    requires Inv(d.fs) && OnDisk(d) && MayUpdate(d.fs, e, was)
    ensures Updates(d, e, was, Updated(d, e, was))
  {
    var bytes := Updated(d, e, was).bytes;
    assert IsUpdated(d, e, was, bytes);
    UpdatedMoves(d, e, was, bytes);
    RootUpdated(d, e, was, bytes);
    InodeUpdated(d, e, was, bytes);
  }

  ghost predicate IsUpdated(d: Disk, e: Event, was: seq<IO.Byte>, bytes: seq<IO.Byte>)
    requires MayUpdate(d.fs, e, was)
  {
    |bytes| == |d.bytes| && forall x | 0 <= x < |d.bytes| :: bytes[x] == UpdatedByte(d, e, was, x)
  }

  lemma UpdatedMoves(d: Disk, e: Event, was: seq<IO.Byte>, bytes: seq<IO.Byte>)
    requires Inv(d.fs) && MayUpdate(d.fs, e, was) && IsUpdated(d, e, was, bytes)
    ensures Moves(d, e, Disk(Step(d.fs, ActOf(e)), bytes, Recorded(d, e)))
  {
    NewFree(d.fs, ActOf(e));
    forall x | 0 <= x < |d.bytes| && !IsMeta(d.fs, x / 512)
      ensures UpdatedByte(d, e, was, x) == FileByte(d, e, x)
    {
      NotInRoot(d, x);
    }
  }

  lemma NotInRoot(d: Disk, x: int)
    requires 0 <= x < |d.bytes| && !IsMeta(d.fs, x / 512)
    ensures !(0 <= x - 512 * Root(d.fs).start < |RootBytes(d.fs, d.bytes)|)
  {
    var i := x - 512 * Root(d.fs).start;
    if 0 <= i < |RootBytes(d.fs, d.bytes)| { ByteInside(Root(d.fs), i); }
  }

  lemma NewFree(fs: Fs, act: Action)
    requires Inv(fs)
    ensures var f := NewFile(fs, act);
      f.Some? ==> WasFree(fs.used, f.value.0, f.value.1) && !IsMeta(fs, f.value.0)
  {
    if NewFile(fs, act).Some? {
      CreateKeeps(fs, act.name, act.size, act.env);
      var s := NewFile(fs, act).value.0;
      FreeNotMeta(fs, Header(s, 1), s);
    }
  }

  lemma RootUpdated(d: Disk, e: Event, was: seq<IO.Byte>, bytes: seq<IO.Byte>)
    requires MayUpdate(d.fs, e, was) && IsUpdated(d, e, was, bytes)
    ensures RootBytes(d.fs, bytes) == DirAfter(RootBytes(d.fs, d.bytes), d.fs, ActOf(e), was)
  {
    var start, length := Root(d.fs).start, Root(d.fs).length;
    var root := DirAfter(RootBytes(d.fs, d.bytes), d.fs, ActOf(e), was);
    if 0 <= start && 0 <= length && 512 * start + length <= |d.bytes| {
      forall i | 0 <= i < length ensures bytes[512 * start + i] == root[i] {
        assert bytes[512 * start + i] == UpdatedByte(d, e, was, 512 * start + i);
      }
    }
  }

  lemma InodeUpdated(d: Disk, e: Event, was: seq<IO.Byte>, bytes: seq<IO.Byte>)
    requires Inv(d.fs) && |d.bytes| == 512 * |d.fs.used| && MayUpdate(d.fs, e, was) && IsUpdated(d, e, was, bytes)
    ensures var f := NewFile(d.fs, ActOf(e));
      f.Some? ==> Slice(bytes, f.value.0, 512) == Image(f.value.1)
  {
    var f := NewFile(d.fs, ActOf(e));
    if f.Some? {
      NewFree(d.fs, ActOf(e));
      var s := f.value.0;
      forall i | 0 <= i < 512 ensures bytes[512 * s + i] == Image(f.value.1)[i] { InodeByte(d, e, was, bytes, s, i); }
    }
  }

  lemma InodeByte(d: Disk, e: Event, was: seq<IO.Byte>, bytes: seq<IO.Byte>, s: int, i: int)
    requires MayUpdate(d.fs, e, was) && IsUpdated(d, e, was, bytes) && !IsMeta(d.fs, s)
    requires 0 <= s && 0 <= i < 512 && 512 * s + 512 <= |d.bytes|
    requires NewFile(d.fs, ActOf(e)).Some? && NewFile(d.fs, ActOf(e)).value.0 == s
    ensures bytes[512 * s + i] == Image(NewFile(d.fs, ActOf(e)).value.1)[i]
  {
    InSector(s, i);
    NotInRoot(d, 512 * s + i);
    assert bytes[512 * s + i] == UpdatedByte(d, e, was, 512 * s + i);
  }

  lemma InSector(s: int, i: int)
    requires 0 <= i < 512
    ensures (512 * s + i) / 512 == s && (512 * s + i) % 512 == i
  {}

  // ---------- runs ----------

  // A run and what dir_add's buffer held at each event.
  ghost predicate IsHistory(ds: seq<Disk>, es: seq<Event>, bufs: seq<seq<IO.Byte>>) {
    && |ds| == |es| + 1 && |bufs| == |es|
    && forall i | 0 <= i < |es| :: MayUpdate(ds[i].fs, es[i], bufs[i]) && Updates(ds[i], es[i], bufs[i], ds[i + 1])
  }

  lemma {:induction false} OnDiskRun(ds: seq<Disk>, es: seq<Event>, bufs: seq<seq<IO.Byte>>)
    requires IsHistory(ds, es, bufs) && Inv(ds[0].fs) && OnDisk(ds[0]) && Faithful(ds[0])
    ensures Inv(ds[|es|].fs) && OnDisk(ds[|es|]) && Faithful(ds[|es|])
    decreases |es|
  {
    if es != [] {
      var n := |es| - 1;
      assert IsHistory(ds[..n + 1], es[..n], bufs[..n]);
      OnDiskRun(ds[..n + 1], es[..n], bufs[..n]);
      assert ds[..n + 1][n] == ds[n];
      OnDiskStep(ds[n], es[n], bufs[n], ds[n + 1]);
      FaithfulStep(ds[n], es[n], ds[n + 1]);
      OneStepInv(ds[n].fs, ActOf(es[n]));
    }
  }

  // What do_format leaves on a device of N sectors.
  ghost predicate Formatted(n: int, d: Disk) {
    && 2 <= n < 0x1_0000_0000 && Format(n).Some? && d.fs == Format(n).value && |d.bytes| == 512 * n
    && Slice(d.bytes, FREE_MAP, 512) == Image(d.fs.headers[FREE_MAP])
    && Slice(d.bytes, ROOT_DIR, 512) == Image(d.fs.headers[ROOT_DIR])
    && RootBytes(d.fs, d.bytes) == IO.Zeros(320)
  }

  lemma FormattedOnDisk(n: int, d: Disk)
    requires Formatted(n, d)
    ensures Inv(d.fs) && OnDisk(d) && Faithful(d)
  {
    FormatInv(n);
    FormatBounds(n);
    assert LiveSet(d.fs.dir, d.fs.open) == {FREE_MAP, ROOT_DIR};
    assert FileSet(d.fs) == {};
    EmptyDir();
  }

  lemma FormatBounds(n: int)
    requires 2 <= n < 0x1_0000_0000 && Format(n).Some?
    ensures var fs := Format(n).value; |fs.used| == n && fs.headers[FREE_MAP].length < 0x8000_0000
    ensures ROOT_DIR !in OpenSet(Format(n).value.open) && Format(n).value.dir == seq(16, _ => Entry(0, "", false))
  {}

  lemma EmptyDir()
    ensures Entries(IO.Zeros(320)) == seq(16, _ => Entry(0, "", false))
  {
    forall i | 0 <= i < 16 ensures Entries(IO.Zeros(320))[i] == Entry(0, "", false) {
      ZeroSlot(IO.Zeros(320)[20 * i..20 * i + 20]);
    }
  }

  lemma ZeroSlot(b: seq<IO.Byte>)
    requires |b| == 20 && forall k | 0 <= k < 20 :: b[k] == 0
    ensures Decode(b) == Entry(0, "", false)
  {
    assert b[4..19][0] == b[4];
  }

  // A history goes on with anything that may happen.
  lemma GoesOn(n: int, ds: seq<Disk>, es: seq<Event>, bufs: seq<seq<IO.Byte>>, e: Event, was: seq<IO.Byte>)
    requires IsHistory(ds, es, bufs) && Formatted(n, ds[0]) && MayUpdate(ds[|es|].fs, e, was)
    ensures IsHistory(ds + [Updated(ds[|es|], e, was)], es + [e], bufs + [was])
  {
    FormattedOnDisk(n, ds[0]);
    OnDiskRun(ds, es, bufs);
    UpdatesOn(ds[|es|], e, was);
    Extended(ds, es, bufs, e, was, Updated(ds[|es|], e, was));
  }

  lemma Extended(ds: seq<Disk>, es: seq<Event>, bufs: seq<seq<IO.Byte>>, e: Event, was: seq<IO.Byte>, d: Disk)
    requires IsHistory(ds, es, bufs) && MayUpdate(ds[|es|].fs, e, was) && Updates(ds[|es|], e, was, d)
    ensures IsHistory(ds + [d], es + [e], bufs + [was])
  {
    var ds1, es1, bufs1 := ds + [d], es + [e], bufs + [was];
    forall i | 0 <= i < |es1|
      ensures MayUpdate(ds1[i].fs, es1[i], bufs1[i]) && Updates(ds1[i], es1[i], bufs1[i], ds1[i + 1])
    {
      if i < |es| { assert ds1[i] == ds[i] && ds1[i + 1] == ds[i + 1] && es1[i] == es[i] && bufs1[i] == bufs[i]; }
    }
  }

  lemma HeaderTrue(d: Disk, s: int)
    requires Inv(d.fs) && OnDisk(d) && s in LiveSet(d.fs.dir, d.fs.open)
    ensures s in d.fs.headers && HeaderOn(d.bytes, s) == d.fs.headers[s]
  {
    assert ImageAt(d, s) && Solid(d.fs.used, d.fs.headers, s);
    ImageReads(d.fs.headers[s]);
  }

  lemma SliceTrue(bytes: seq<IO.Byte>, h: Header, w: seq<IO.Byte>)
    requires Holds(bytes, h.start, w) && |w| == h.length && 0 <= h.start && 512 * h.start + h.length <= |bytes|
    ensures Slice(bytes, h.start, h.length) == w
  {
    forall i | 0 <= i < h.length ensures Slice(bytes, h.start, h.length)[i] == w[i] {
      assert ByteKept(bytes, h.start, w, i);
    }
  }

  // After every run: the sector of every live inode reads as its header, the root directory reads as
  // the model's entries, and what the bytes of the device alone give under a name is zeros overlaid by
  // the writes to that file.
  lemma ReadsBack(n: int, ds: seq<Disk>, es: seq<Event>, bufs: seq<seq<IO.Byte>>, name: string)
    requires IsHistory(ds, es, bufs) && Formatted(n, ds[0])
    ensures var d := ds[|es|];
      && (forall s | s in LiveSet(d.fs.dir, d.fs.open) :: s in d.fs.headers && HeaderOn(d.bytes, s) == d.fs.headers[s])
      && RootOn(d.bytes) == d.fs.dir
      && (Lookup(d.fs.dir, name) == None ==> FileOn(d.bytes, name) == None)
      && (Lookup(d.fs.dir, name).Some? ==>
            var i := Lookup(d.fs.dir, name).value;
            0 <= i < |d.fs.dir| && d.fs.dir[i].sector in d.written
              && FileOn(d.bytes, name) == Some(d.written[d.fs.dir[i].sector]))
  {
    var d := ds[|es|];
    FormattedOnDisk(n, ds[0]);
    OnDiskRun(ds, es, bufs);
    forall s | s in LiveSet(d.fs.dir, d.fs.open) ensures s in d.fs.headers && HeaderOn(d.bytes, s) == d.fs.headers[s] {
      HeaderTrue(d, s);
    }
    HeaderTrue(d, ROOT_DIR);
    if Lookup(d.fs.dir, name).Some? { FileTrue(d, name); }
  }

  lemma FileTrue(d: Disk, name: string)
    requires Inv(d.fs) && OnDisk(d) && Faithful(d) && RootOn(d.bytes) == d.fs.dir && Lookup(d.fs.dir, name).Some?
    ensures var i := Lookup(d.fs.dir, name).value;
      0 <= i < |d.fs.dir| && d.fs.dir[i].sector in d.written
        && FileOn(d.bytes, name) == Some(d.written[d.fs.dir[i].sector])
  {
    LookupInside(d.fs.dir, name, 0);
    var s := d.fs.dir[Lookup(d.fs.dir, name).value].sector;
    assert s in FileSet(d.fs);
    HeaderTrue(d, s);
    assert KeptAt(d, s) && Solid(d.fs.used, d.fs.headers, s);
    SliceTrue(d.bytes, d.fs.headers[s], d.written[s]);
  }
}
