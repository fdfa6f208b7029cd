// filesys/filesys.c, directory.c, free-map.c and the bookkeeping half of inode.c:
// which sectors belong to which file, from creation to the last close.

module FsModel {
  import opened Extents
  import opened Options
  import opened BitRuns

  const FREE_MAP := 0
  const ROOT_DIR := 1

  // What an inode's sector holds: the first data sector and the length in bytes.
  datatype Header = Header(start: int, length: int)

  datatype Entry = Entry(sector: int, name: string, inUse: bool)

  // An inode in memory.
  datatype Inode = Inode(sector: int, openCnt: int, removed: bool, data: Header)

  // The free map, the sectors that hold inodes, the root directory, the list of
  // open inodes, and which inode each file handle refers to.
  datatype Fs = Fs(used: seq<bool>, headers: map<int, Header>, dir: seq<Entry>, open: seq<Inode>,
                   handles: map<int, int>, panicked: bool)

  predicate InExtent(h: Header, k: int) { h.start <= k < h.start + Sectors(h.length) }

  // ---------- directory ----------

  predicate ValidName(name: string) { 0 < |name| <= 14 }

  // Index of the entry for NAME at or after I.
  function LookupFrom(dir: seq<Entry>, name: string, i: int): (r: Option<int>)
    requires 0 <= i
    decreases |dir| - i
  {
    if i >= |dir| then None
    else if dir[i].inUse && dir[i].name == name then Some(i)
    else LookupFrom(dir, name, i + 1)
  }

  function Lookup(dir: seq<Entry>, name: string): (r: Option<int>) { LookupFrom(dir, name, 0) }

  // Index of the first free slot at or after I, the length when there is none.
  function FreeSlotFrom(dir: seq<Entry>, i: int): (r: int)
    requires 0 <= i <= |dir|
    ensures i <= r <= |dir| && (r < |dir| ==> !dir[r].inUse)
    decreases |dir| - i
  {
    if i >= |dir| || !dir[i].inUse then i else FreeSlotFrom(dir, i + 1)
  }

  // Every read or write of a slot needs a bounce buffer.  A scan of the directory ends, as at the end
  // of the file, at the first slot for which there is none.
  function Seen(dir: seq<Entry>, cut: nat): (r: seq<Entry>) { if cut < |dir| then dir[..cut] else dir }

  // How many slots lookup and the search for a slot can read, and whether the slot can be written.
  datatype DirIo = DirIo(lookupCut: nat, slotCut: nat, writeOk: bool)

  function Slot(dir: seq<Entry>, cut: nat): (r: int) { FreeSlotFrom(Seen(dir, cut), 0) }

  function DirAdd(dir: seq<Entry>, name: string, sector: int, io: DirIo): (r: Option<seq<Entry>>) {
    if !ValidName(name) || Lookup(Seen(dir, io.lookupCut), name).Some? then None
    else
      var slot := Slot(dir, io.slotCut);
      // A directory does not grow, so there is no room past its last slot.
      if slot == |dir| || !io.writeOk then None else Some(dir[slot := Entry(sector, name, true)])
  }

  // ---------- open inodes ----------

  function FindOpen(open: seq<Inode>, sector: int): (r: Option<int>)
    ensures r.Some? ==> 0 <= r.value < |open| && open[r.value].sector == sector
    ensures r == None ==> forall i | 0 <= i < |open| :: open[i].sector != sector
  {
    if open == [] then None
    else if open[0].sector == sector then Some(0)
    else
      var r := FindOpen(open[1..], sector);
      if r == None then None else Some(r.value + 1)
  }

  // What reading a sector as an inode gives; of a sector that holds none nothing is known.
  function HeaderAt(headers: map<int, Header>, sector: int): (h: Header) {
    if sector in headers then headers[sector] else Header(0, 0)
  }

  // inode_open; None for want of memory.
  function InodeOpen(open: seq<Inode>, headers: map<int, Header>, sector: int, memOk: bool): (r: Option<seq<Inode>>) {
    var i := FindOpen(open, sector);
    if i.Some? then Some(open[i.value := open[i.value].(openCnt := open[i.value].openCnt + 1)])
    else if memOk then Some([Inode(sector, 1, false, HeaderAt(headers, sector))] + open)
    else None
  }

  // free_map_release of an inode and its data; None is a failed assertion.
  function ReleaseInode(used: seq<bool>, sector: int, h: Header): (r: Option<seq<bool>>) {
    if !RunAt(used, sector, 1, true) then None
    else
      var used1 := Filled(used, sector, 1, false);
      if !RunAt(used1, h.start, Sectors(h.length), true) then None
      else Some(Filled(used1, h.start, Sectors(h.length), false))
  }

  // inode_close.
  function InodeClose(fs: Fs, sector: int): (r: Fs) {
    var i := FindOpen(fs.open, sector);
    if i == None then fs
    else
      var node := fs.open[i.value];
      if node.openCnt != 1 then fs.(open := fs.open[i.value := node.(openCnt := node.openCnt - 1)])
      else
        var open1 := fs.open[..i.value] + fs.open[i.value + 1..];
        if !node.removed then fs.(open := open1)
        else
          var used := ReleaseInode(fs.used, sector, node.data);
          if used == None then fs.(panicked := true) else fs.(open := open1, used := used.value)
  }

  function SetRemoved(open: seq<Inode>, sector: int): (r: seq<Inode>) {
    var i := FindOpen(open, sector);
    if i == None then open else open[i.value := open[i.value].(removed := true)]
  }

  // ---------- files ----------

  // Which of the allocations that a call makes succeed.
  datatype Env = Env(rootOk: bool, mapOk: bool, memOk: bool, dataMapOk: bool, io: DirIo)

  // The headers after inode_create: with the new one, less whatever the sectors zeroed next held.
  function NewHeaders(headers: map<int, Header>, sector: int, h: Header): (r: map<int, Header>) {
    map k | k in headers[sector := h] && !InExtent(h, k) :: headers[sector := h][k]
  }

  // filesys_create, with the error returns in the order of the code.
  function Create(fs: Fs, name: string, size: int, env: Env): (r: (Fs, bool))
    requires 0 <= size
  {
    var s := Search(fs.used, 0, 1, false);
    if !env.rootOk || s == None || !env.mapOk || !env.memOk then (fs, false)
    else
      SearchFinds(fs.used, 0, 1, false);
      var used1 := Filled(fs.used, s.value, 1, true);
      var d := Search(used1, 0, Sectors(size), false);
      if d == None || !env.dataMapOk then (fs, false)
      else
        SearchFinds(used1, 0, Sectors(size), false);
        var used2 := Filled(used1, d.value, Sectors(size), true);
        var headers := NewHeaders(fs.headers, s.value, Header(d.value, size));
        var dir := DirAdd(fs.dir, name, s.value, env.io);
        if dir == None then (fs.(used := Filled(used2, s.value, 1, false), headers := headers), false)
        else (fs.(used := used2, headers := headers, dir := dir.value), true)
  }

  // filesys_open as handle H; the flags say whether the directory, the inode and the file get their
  // memory, CUT how many slots lookup can read.
  function Open(fs: Fs, name: string, h: int, rootOk: bool, cut: nat, memOk: bool, fileOk: bool): (r: (Fs, bool)) {
    var i := Lookup(Seen(fs.dir, cut), name);
    if !rootOk || i == None then (fs, false)
    else
      LookupInside(Seen(fs.dir, cut), name, 0);
      var sector := fs.dir[i.value].sector;
      var open := InodeOpen(fs.open, fs.headers, sector, memOk);
      if open == None then (fs, false)
      else if !fileOk then (InodeClose(fs.(open := open.value), sector), false)
      else (fs.(open := open.value, handles := fs.handles[h := sector]), true)
  }

  // filesys_remove; WRITEOK says whether the entry can be written.
  function Remove(fs: Fs, name: string, rootOk: bool, cut: nat, memOk: bool, writeOk: bool): (r: (Fs, bool)) {
    var i := Lookup(Seen(fs.dir, cut), name);
    if !rootOk || i == None then (fs, false)
    else
      LookupInside(Seen(fs.dir, cut), name, 0);
      var sector := fs.dir[i.value].sector;
      var open := InodeOpen(fs.open, fs.headers, sector, memOk);
      if open == None then (fs, false)
      else if !writeOk then (InodeClose(fs.(open := open.value), sector), false)
      else
        var dir := fs.dir[i.value := fs.dir[i.value].(inUse := false)];
        (InodeClose(fs.(open := SetRemoved(open.value, sector), dir := dir), sector), true)
  }

  // file_reopen of handle H as handle H1: one more opener of an inode that is open already.
  function Reopen(fs: Fs, h: int, h1: int, fileOk: bool): (r: Fs)
    requires h in fs.handles
  {
    var s := fs.handles[h];
    var i := FindOpen(fs.open, s);
    if i == None then fs
    else
      var open := fs.open[i.value := fs.open[i.value].(openCnt := fs.open[i.value].openCnt + 1)];
      if fileOk then fs.(open := open, handles := fs.handles[h1 := s]) else InodeClose(fs.(open := open), s)
  }

  // file_close of handle H.
  function Close(fs: Fs, h: int): (r: Fs)
    requires h in fs.handles
  {
    InodeClose(fs.(handles := fs.handles - {h}), fs.handles[h])
  }

  lemma LookupInside(dir: seq<Entry>, name: string, i: int)
    requires 0 <= i
    ensures LookupFrom(dir, name, i).Some? ==>
      var r := LookupFrom(dir, name, i).value; i <= r < |dir| && dir[r].inUse && dir[r].name == name
    ensures LookupFrom(dir, name, i) == None ==> forall j | i <= j < |dir| :: !(dir[j].inUse && dir[j].name == name)
    decreases |dir| - i
  {
    if i < |dir| && !(dir[i].inUse && dir[i].name == name) { LookupInside(dir, name, i + 1); }
  }

  // file_reopen is inode_open of an inode that is open, and for want of memory inode_close.
  lemma ReopenIs(fs: Fs, h: int, h1: int, fileOk: bool)
    requires h in fs.handles && FindOpen(fs.open, fs.handles[h]).Some?
    ensures var s := fs.handles[h]; var open := InodeOpen(fs.open, fs.headers, s, false);
      && open.Some?
      && (fileOk ==> Reopen(fs, h, h1, fileOk) == fs.(open := open.value, handles := fs.handles[h1 := s]))
      && (!fileOk ==> Reopen(fs, h, h1, fileOk) == InodeClose(fs.(open := open.value), s))
  {
    var s, i := fs.handles[h], FindOpen(fs.open, fs.handles[h]).value;
    var open := fs.open[i := fs.open[i].(openCnt := fs.open[i].openCnt + 1)];
    assert InodeOpen(fs.open, fs.headers, s, false) == Some(open);
    if fileOk {
      assert Reopen(fs, h, h1, fileOk) == fs.(open := open, handles := fs.handles[h1 := s]);
    } else {
      assert Reopen(fs, h, h1, fileOk) == InodeClose(fs.(open := open), s);
    }
  }
}
