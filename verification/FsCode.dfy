// The file system: the code, with its loops and the word-packed free map.

module FsCode {
  import opened Extents
  import opened Options
  import opened BitRuns
  import opened FsModel
  import opened DiskFormat
  import Bitmaps
  import IO = InodeIo

  class FileSystem {
    const freeMap: Bitmaps.Bitmap
    const dev: IO.Device
    var headers: map<int, Header>
    var dir: seq<Entry>
    var open: seq<Inode>
    var handles: map<int, int>
    var panicked: bool

    ghost predicate Valid()
      reads this, dev
    {
      && freeMap.Valid() && dev.Valid() && dev.size == freeMap.bitCnt
      && (forall k | k in headers :: 0 <= headers[k].length)
      && (forall i | 0 <= i < |open| :: 0 <= open[i].data.length)
    }

    ghost function View(): (fs: Fs)
      requires freeMap.Valid()
      reads this, freeMap.bits
    {
      Fs(freeMap.Bits(), headers, dir, open, handles, panicked)
    }

    // free_map_init: a map for a device of N sectors, nothing on it yet.
    constructor (n: int)
      requires 2 <= n
      ensures Valid() && freeMap.bitCnt == n && freeMap.Bits() == seq(n, k => k == FREE_MAP || k == ROOT_DIR)
    {
      freeMap := new Bitmaps.Bitmap(n);
      dev := new IO.Device(n);
      headers, dir, open, handles, panicked := map[], [], [], map[], false;
      new;
      freeMap.Mark(FREE_MAP);
      freeMap.Mark(ROOT_DIR);
    }

    // WRITEOK says whether the free map file can be written.
    method FreeMapAllocate(cnt: int, writeOk: bool) returns (r: Option<int>)
      requires freeMap.Valid() && 0 <= cnt
      modifies freeMap.bits
      ensures r == if writeOk then Search(old(freeMap.Bits()), 0, cnt, false) else None
      ensures r == None ==> freeMap.Bits() == old(freeMap.Bits())
      ensures r.Some? ==> RunAt(old(freeMap.Bits()), r.value, cnt, false)
      ensures r.Some? ==> freeMap.Bits() == Filled(old(freeMap.Bits()), r.value, cnt, true)
    {
      r := freeMap.ScanAndFlip(0, cnt, false);
      if r.Some? && !writeOk {
        ghost var before := old(freeMap.Bits());
        FillUndone(before, r.value, cnt, false);
        freeMap.SetMultiple(r.value, cnt, false);
        r := None;
      }
    }

    // False is the failed assertion that all the sectors are marked.
    method FreeMapRelease(sector: int, cnt: int) returns (ok: bool)
      requires freeMap.Valid() && 0 <= cnt
      modifies freeMap.bits
      ensures ok == RunAt(old(freeMap.Bits()), sector, cnt, true)
      ensures freeMap.Bits() == if ok then Filled(old(freeMap.Bits()), sector, cnt, false) else old(freeMap.Bits())
    {
      if sector < 0 || sector + cnt > freeMap.bitCnt { return false; }
      var clear := freeMap.Contains(sector, cnt, false);
      if clear { return false; }
      freeMap.SetMultiple(sector, cnt, false);
      return true;
    }

    // lookup: the read of slot i is short at the end of the directory and for want of a bounce buffer.
    method FindEntry(name: string, cut: nat) returns (r: Option<int>)
      ensures r == Lookup(Seen(dir, cut), name)
    {
      var i := 0;
      while i < |dir| && i < cut
        invariant 0 <= i <= |Seen(dir, cut)| && Lookup(Seen(dir, cut), name) == LookupFrom(Seen(dir, cut), name, i)
      {
        if dir[i].inUse && dir[i].name == name { return Some(i); }
        i := i + 1;
      }
      return None;
    }

    method FindSlot(cut: nat) returns (i: int)
      ensures i == Slot(dir, cut)
    {
      i := 0;
      while i < |dir| && i < cut
        invariant 0 <= i <= |Seen(dir, cut)| && Slot(dir, cut) == FreeSlotFrom(Seen(dir, cut), i)
      {
        if !dir[i].inUse { return; }
        i := i + 1;
      }
    }

    method FindInode(sector: int) returns (r: Option<int>)
      ensures r == FindOpen(open, sector)
    {
      var i := 0;
      while i < |open|
        invariant 0 <= i <= |open|
        invariant FindOpen(open, sector) == Shifted(FindOpen(open[i..], sector), i)
      {
        if open[i].sector == sector { return Some(i); }
        assert open[i..][1..] == open[i + 1..];
        i := i + 1;
      }
      return None;
    }

    method AddEntry(name: string, sector: int, io: DirIo) returns (ok: bool)
      modifies `dir
      ensures ok == DirAdd(old(dir), name, sector, io).Some?
      ensures dir == if ok then DirAdd(old(dir), name, sector, io).value else old(dir)
    {
      if |name| == 0 || |name| > 14 { return false; }
      var found := FindEntry(name, io.lookupCut);
      if found.Some? { return false; }
      var slot := FindSlot(io.slotCut);
      if slot == |dir| || !io.writeOk { return false; }
      dir := dir[slot := Entry(sector, name, true)];
      return true;
    }

    method OpenInode(sector: int, memOk: bool) returns (ok: bool)
      modifies `open
      ensures ok == InodeOpen(old(open), headers, sector, memOk).Some?
      ensures open == if ok then InodeOpen(old(open), headers, sector, memOk).value else old(open)
    {
      var i := FindInode(sector);
      if i.Some? {
        open := open[i.value := open[i.value].(openCnt := open[i.value].openCnt + 1)];
        return true;
      }
      if !memOk { return false; }
      open := [Inode(sector, 1, false, HeaderAt(headers, sector))] + open;
      return true;
    }

    method ReleaseSectors(sector: int, h: Header) returns (ok: bool)
      requires freeMap.Valid() && 0 <= h.length
      modifies freeMap.bits
      ensures ok == ReleaseInode(old(freeMap.Bits()), sector, h).Some?
      ensures ok ==> freeMap.Bits() == ReleaseInode(old(freeMap.Bits()), sector, h).value
    {
      ok := FreeMapRelease(sector, 1);
      if ok {
        ok := FreeMapRelease(h.start, Sectors(h.length));
      }
    }

    method CloseInode(sector: int)
      requires Valid() && !panicked
      modifies `open, `panicked, freeMap.bits
      ensures Valid() && panicked == InodeClose(old(View()), sector).panicked
      ensures !panicked ==> View() == InodeClose(old(View()), sector)
    {
      var i := FindInode(sector);
      if i == None { return; }
      var node := open[i.value];
      if node.openCnt != 1 {
        open := open[i.value := node.(openCnt := node.openCnt - 1)];
        return;
      }
      open := open[..i.value] + open[i.value + 1..];
      if node.removed {
        var ok := ReleaseSectors(sector, node.data);
        if !ok { panicked := true; }
      }
    }

    // Writes a new inode and clears its data sectors; CALLOCOK says whether there is memory for it.
    method CreateInode(sector: int, length: int, callocOk: bool, writeOk: bool) returns (ok: bool)
      requires Valid() && 0 <= length && 0 <= sector < dev.size
      modifies `headers, freeMap.bits, dev
      ensures Valid()
      ensures var d := Search(old(freeMap.Bits()), 0, Sectors(length), false);
        && ok == (callocOk && writeOk && d.Some?)
        && (ok ==> RunAt(old(freeMap.Bits()), d.value, Sectors(length), false)
                   && freeMap.Bits() == Filled(old(freeMap.Bits()), d.value, Sectors(length), true)
                   && headers == NewHeaders(old(headers), sector, Header(d.value, length))
                   && 512 * d.value + 512 * Sectors(length) <= |old(dev.bytes)|
                   && dev.bytes
                      == IO.Overlaid(IO.Overlaid(old(dev.bytes), 512 * sector, Image(Header(d.value, length))),
                                     512 * d.value, IO.Zeros(512 * Sectors(length))))
        && (!ok ==> freeMap.Bits() == old(freeMap.Bits()) && headers == old(headers) && dev.bytes == old(dev.bytes))
    {
      if !callocOk { return false; }
      var start := FreeMapAllocate(Sectors(length), writeOk);
      if start == None { return false; }
      dev.BlockWrite(sector, Image(Header(start.value, length)));
      dev.ClearSectors(start.value, Sectors(length));
      headers := NewHeaders(headers, sector, Header(start.value, length));
      return true;
    }

    method CreateFile(name: string, size: int, env: Env) returns (ok: bool)
      requires Valid() && 0 <= size
      modifies this, freeMap.bits, dev
      ensures Valid() && (View(), ok) == Create(old(View()), name, size, env)
    {
      if !env.rootOk { return false; }
      var sector := FreeMapAllocate(1, env.mapOk);
      if sector == None { return false; }
      PlacedIs(old(View()), name, size, env);
      ok := PlaceFile(sector.value, name, size, env);
      if !ok {
        var released := FreeMapRelease(sector.value, 1);
      }
    }

    // inode_create and dir_add, once the inode has its sector.
    method PlaceFile(sector: int, name: string, size: int, env: Env) returns (ok: bool)
      requires Valid() && 0 <= size && 0 <= sector < dev.size
      modifies this, freeMap.bits, dev
      ensures Valid() && (View(), ok) == Placed(old(View()), name, size, env, sector)
    {
      ok := CreateInode(sector, size, env.memOk, env.dataMapOk);
      if ok { ok := AddEntry(name, sector, env.io); }
    }

    method OpenFile(name: string, h: int, rootOk: bool, cut: nat, memOk: bool, fileOk: bool) returns (ok: bool)
      requires Valid() && !panicked
      modifies this, freeMap.bits
      ensures Valid() && panicked == Open(old(View()), name, h, rootOk, cut, memOk, fileOk).0.panicked
      ensures !panicked ==> (View(), ok) == Open(old(View()), name, h, rootOk, cut, memOk, fileOk)
    {
      if !rootOk { return false; }
      var i := FindEntry(name, cut);
      if i == None { return false; }
      LookupInside(Seen(dir, cut), name, 0);
      var sector := dir[i.value].sector;
      ok := OpenInode(sector, memOk);
      if !ok { return; }
      if !fileOk {
        CloseInode(sector);
        return false;
      }
      handles := handles[h := sector];
    }

    // file_reopen: inode_reopen, then a file for it if there is memory.
    method ReopenFile(h: int, h1: int, fileOk: bool)
      requires Valid() && !panicked && h in handles && FindOpen(open, handles[h]).Some?
      modifies this, freeMap.bits
      ensures Valid() && panicked == Reopen(old(View()), h, h1, fileOk).panicked
      ensures !panicked ==> View() == Reopen(old(View()), h, h1, fileOk)
    {
      ReopenIs(View(), h, h1, fileOk);
      var sector := handles[h];
      var ok := OpenInode(sector, false);
      if fileOk {
        handles := handles[h1 := sector];
      } else {
        CloseInode(sector);
      }
    }

    method RemoveFile(name: string, rootOk: bool, cut: nat, memOk: bool, writeOk: bool) returns (ok: bool)
      requires Valid() && !panicked
      modifies this, freeMap.bits
      ensures Valid() && panicked == Remove(old(View()), name, rootOk, cut, memOk, writeOk).0.panicked
      ensures !panicked ==> (View(), ok) == Remove(old(View()), name, rootOk, cut, memOk, writeOk)
    {
      if !rootOk { return false; }
      var i := FindEntry(name, cut);
      if i == None { return false; }
      LookupInside(Seen(dir, cut), name, 0);
      var sector := dir[i.value].sector;
      ok := OpenInode(sector, memOk);
      if !ok { return; }
      if !writeOk {
        CloseInode(sector);
        return false;
      }
      dir := dir[i.value := dir[i.value].(inUse := false)];
      open := SetRemoved(open, sector);
      CloseInode(sector);
    }

    method CloseFile(h: int)
      requires Valid() && !panicked && h in handles
      modifies this, freeMap.bits
      ensures Valid() && panicked == Close(old(View()), h).panicked
      ensures !panicked ==> View() == Close(old(View()), h)
    {
      var sector := handles[h];
      handles := handles - {h};
      CloseInode(sector);
    }
  }

  ghost function Placed(fs: Fs, name: string, size: int, env: Env, s: int): (r: (Fs, bool))
    requires 0 <= size
  {
    var d := Search(fs.used, 0, Sectors(size), false);
    if !env.memOk || d == None || !env.dataMapOk then (fs, false)
    else
      SearchFinds(fs.used, 0, Sectors(size), false);
      var used := Filled(fs.used, d.value, Sectors(size), true);
      var headers := NewHeaders(fs.headers, s, Header(d.value, size));
      var dir := DirAdd(fs.dir, name, s, env.io);
      if dir == None then (fs.(used := used, headers := headers), false)
      else (fs.(used := used, headers := headers, dir := dir.value), true)
  }

  // filesys_create as its parts; the inode's own sector is still marked when a failure gives it back.
  lemma PlacedIs(fs: Fs, name: string, size: int, env: Env)
    requires 0 <= size && env.rootOk && env.mapOk && Search(fs.used, 0, 1, false).Some?
    ensures var s := Search(fs.used, 0, 1, false).value;
      && RunAt(fs.used, s, 1, false)
      && var p := Placed(fs.(used := Filled(fs.used, s, 1, true)), name, size, env, s);
         if p.1 then Create(fs, name, size, env) == p
         else RunAt(p.0.used, s, 1, true)
              && Create(fs, name, size, env) == (p.0.(used := Filled(p.0.used, s, 1, false)), false)
  {
    SearchFinds(fs.used, 0, 1, false);
    var s := Search(fs.used, 0, 1, false).value;
    FillUndone(fs.used, s, 1, false);
    SearchFinds(Filled(fs.used, s, 1, true), 0, Sectors(size), false);
  }

  function Shifted(r: Option<int>, i: int): (t: Option<int>) { if r == None then None else Some(r.value + i) }
}
