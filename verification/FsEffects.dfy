// The file system: what each operation does, and exactly when it succeeds.

module FsEffects {
  import opened Options
  import opened FsModel
  import opened FsOwners
  import opened FsInvariant
  import opened FsRuns
  import opened FsBytes
  import opened FsOnDisk
  import IO = InodeIo

  // Slot I holds the first entry in use for NAME.
  predicate FirstFor(dir: seq<Entry>, name: string, i: int) {
    && 0 <= i < |dir| && dir[i].inUse && dir[i].name == name
    && forall j | 0 <= j < i :: !(dir[j].inUse && dir[j].name == name)
  }

  lemma {:induction false} LookupFirst(dir: seq<Entry>, name: string, i: int)
    requires 0 <= i && forall j | 0 <= j < i && j < |dir| :: !(dir[j].inUse && dir[j].name == name)
    ensures LookupFrom(dir, name, i).Some? ==> FirstFor(dir, name, LookupFrom(dir, name, i).value)
    ensures LookupFrom(dir, name, i) == None ==> forall j | 0 <= j < |dir| :: !(dir[j].inUse && dir[j].name == name)
    decreases |dir| - i
  {
    if i < |dir| && !(dir[i].inUse && dir[i].name == name) { LookupFirst(dir, name, i + 1); }
  }

  // What a scan of CUT slots finds is the first entry for the name, if that is among them.
  lemma ScanFinds(dir: seq<Entry>, cut: nat, name: string, i: int)
    ensures Lookup(Seen(dir, cut), name) == Some(i) <==> FirstFor(dir, name, i) && i < cut
  {
    SeenLookup(dir, cut, name);
    LookupFirst(dir, name, 0);
  }

  // The entry can be reached, and its inode opened.
  predicate Reaches(fs: Fs, name: string, rootOk: bool, cut: nat, memOk: bool, i: int) {
    rootOk && FirstFor(fs.dir, name, i) && i < cut && (memOk || FindOpen(fs.open, fs.dir[i].sector).Some?)
  }

  // ---------- filesys_open ----------

  // The inode at S is open with the header that is on disk.
  predicate OpenAs(fs: Fs, s: int) {
    var i := FindOpen(fs.open, s);
    i.Some? && s in fs.headers && fs.open[i.value].data == fs.headers[s]
  }

  lemma OpenedAs(fs: Fs, s: int, memOk: bool)
    requires Inv(fs) && s in LiveSet(fs.dir, fs.open) && InodeOpen(fs.open, fs.headers, s, memOk).Some?
    ensures OpenAs(fs.(open := InodeOpen(fs.open, fs.headers, s, memOk).value), s)
  {
    assert Solid(fs.used, fs.headers, s);
    var i := FindOpen(fs.open, s);
    var open := InodeOpen(fs.open, fs.headers, s, memOk).value;
    if i.Some? {
      assert InodeOk(fs.headers, fs.dir, fs.open[i.value]);
      FoundAgain(fs.open, i.value, open[i.value]);
    }
  }

  lemma {:induction false} FoundAgain(open: seq<Inode>, i: int, node: Inode)
    requires 0 <= i < |open| && node.sector == open[i].sector
    ensures FindOpen(open[i := node], node.sector) == FindOpen(open, node.sector)
    decreases |open|
  {
    if open[0].sector != node.sector {
      assert open[i := node][1..] == open[1..][i - 1 := node];
      FoundAgain(open[1..], i - 1, node);
    }
  }

  // An inode opened and closed again leaves the list of open inodes as it was.
  lemma OpenedClosed(fs: Fs, s: int, memOk: bool)
    requires InodeOpen(fs.open, fs.headers, s, memOk).Some?
    requires FindOpen(fs.open, s).Some? ==> 1 <= fs.open[FindOpen(fs.open, s).value].openCnt
    ensures InodeClose(fs.(open := InodeOpen(fs.open, fs.headers, s, memOk).value), s) == fs
  {
    var i := FindOpen(fs.open, s);
    var open := InodeOpen(fs.open, fs.headers, s, memOk).value;
    if i.Some? {
      FoundAgain(fs.open, i.value, open[i.value]);
      assert open[i.value := open[i.value].(openCnt := open[i.value].openCnt - 1)] == fs.open;
    } else {
      assert FindOpen(open, s) == Some(0);
      assert open[..0] + open[1..] == fs.open;
    }
  }

  // filesys_open succeeds exactly if the first entry for the name can be reached and a file allocated.  Then the
  // new handle is on that entry's inode, open with the header on disk, and nothing else changes; if it
  // fails nothing changes at all.
  lemma OpenExact(fs: Fs, name: string, h: int, rootOk: bool, cut: nat, memOk: bool, fileOk: bool)
    requires Inv(fs)
    ensures var (fs1, ok) := Open(fs, name, h, rootOk, cut, memOk, fileOk);
      && (ok <==> fileOk && exists i :: Reaches(fs, name, rootOk, cut, memOk, i))
      && (ok ==> fs1 == fs.(open := fs1.open, handles := fs1.handles))
      && (forall i | ok && FirstFor(fs.dir, name, i) ::
            fs1.handles == fs.handles[h := fs.dir[i].sector] && OpenAs(fs1, fs.dir[i].sector))
      && (!ok ==> fs1 == fs)
  {
    var found := Lookup(Seen(fs.dir, cut), name);
    if found == None {
      forall i ensures !Reaches(fs, name, rootOk, cut, memOk, i) { ScanFinds(fs.dir, cut, name, i); }
    } else {
      var i := found.value;
      ScanFinds(fs.dir, cut, name, i);
      forall j | FirstFor(fs.dir, name, j) ensures j == i {}
      EntryOpens(fs, i, memOk);
      assert Reaches(fs, name, rootOk, cut, memOk, i)
        <==> rootOk && InodeOpen(fs.open, fs.headers, fs.dir[i].sector, memOk).Some?;
    }
  }

  // The inode of an entry in use.
  lemma EntryOpens(fs: Fs, i: int, memOk: bool)
    requires Inv(fs) && 0 <= i < |fs.dir| && fs.dir[i].inUse
    ensures var s := fs.dir[i].sector; var open := InodeOpen(fs.open, fs.headers, s, memOk);
      && (open.Some? <==> memOk || FindOpen(fs.open, s).Some?)
      && (open.Some? ==> OpenAs(fs.(open := open.value), s) && InodeClose(fs.(open := open.value), s) == fs)
  {
    var s := fs.dir[i].sector;
    assert s in NamedSet(fs.dir);
    if InodeOpen(fs.open, fs.headers, s, memOk).Some? {
      OpenedAs(fs, s, memOk);
      if FindOpen(fs.open, s).Some? { assert InodeOk(fs.headers, fs.dir, fs.open[FindOpen(fs.open, s).value]); }
      OpenedClosed(fs, s, memOk);
    }
  }

  // ---------- filesys_remove ----------

  // filesys_remove succeeds exactly if the first entry for the name can be reached and written; if it fails
  // nothing changes at all.
  lemma RemoveExact(fs: Fs, name: string, rootOk: bool, cut: nat, memOk: bool, writeOk: bool)
    requires Inv(fs)
    ensures var (fs1, ok) := Remove(fs, name, rootOk, cut, memOk, writeOk);
      && (ok <==> writeOk && exists i :: Reaches(fs, name, rootOk, cut, memOk, i))
      && (!ok ==> fs1 == fs) && fs1.handles == fs.handles && fs1.headers == fs.headers
  {
    var found := Lookup(Seen(fs.dir, cut), name);
    if found == None {
      forall i ensures !Reaches(fs, name, rootOk, cut, memOk, i) { ScanFinds(fs.dir, cut, name, i); }
    } else {
      var i := found.value;
      ScanFinds(fs.dir, cut, name, i);
      EntryOpens(fs, i, memOk);
      assert Reaches(fs, name, rootOk, cut, memOk, i)
        <==> rootOk && InodeOpen(fs.open, fs.headers, fs.dir[i].sector, memOk).Some?;
      RemoveFrame(fs, name, rootOk, cut, memOk, writeOk);
      forall j | Reaches(fs, name, rootOk, cut, memOk, j) ensures j == i { ScanFinds(fs.dir, cut, name, j); }
    }
  }

  lemma RemoveFrame(fs: Fs, name: string, rootOk: bool, cut: nat, memOk: bool, writeOk: bool)
    ensures var fs1 := Remove(fs, name, rootOk, cut, memOk, writeOk).0;
      fs1.handles == fs.handles && fs1.headers == fs.headers
  {
    if Lookup(Seen(fs.dir, cut), name).Some? {
      LookupInside(Seen(fs.dir, cut), name, 0);
      var i := Lookup(Seen(fs.dir, cut), name).value;
      var s := fs.dir[i].sector;
      var open := InodeOpen(fs.open, fs.headers, s, memOk);
      if open.Some? {
        CloseFrame(fs.(open := open.value), s);
        CloseFrame(fs.(open := SetRemoved(open.value, s), dir := fs.dir[i := fs.dir[i].(inUse := false)]), s);
      }
    }
  }

  lemma CloseFrame(fs: Fs, s: int)
    ensures var fs1 := InodeClose(fs, s); fs1.handles == fs.handles && fs1.headers == fs.headers && fs1.dir == fs.dir
  {}

  // ---------- file_reopen and file_close ----------

  // file_reopen gives another handle on the same inode, or for want of memory changes nothing.
  lemma ReopenExact(fs: Fs, h: int, h1: int, fileOk: bool)
    requires Inv(fs) && h in fs.handles
    ensures var fs1 := Reopen(fs, h, h1, fileOk);
      && (fileOk ==>
            fs1 == fs.(open := fs1.open, handles := fs.handles[h1 := fs.handles[h]]) && OpenAs(fs1, fs.handles[h]))
      && (!fileOk ==> fs1 == fs)
  {
    var s := fs.handles[h];
    assert s in OpenSet(fs.open);
    ReopenIs(fs, h, h1, fileOk);
    var i := FindOpen(fs.open, s).value;
    assert InodeOk(fs.headers, fs.dir, fs.open[i]);
    assert s in LiveSet(fs.dir, fs.open);
    if fileOk { OpenedAs(fs, s, false); } else { OpenedClosed(fs, s, false); }
  }

  lemma Member(s: set<int>) returns (x: int)
    requires |s| >= 1
    ensures x in s
  {
    assert (forall y :: y !in s) ==> s == {};
    x :| x in s;
  }

  // file_close drops the handle; the inode stays open exactly while another handle is on it.
  lemma CloseExact(fs: Fs, h: int, s: int)
    requires Inv(fs) && h in fs.handles
    ensures var fs1 := Close(fs, h);
      && fs1.handles == fs.handles - {h} && fs1.dir == fs.dir && fs1.headers == fs.headers
      && (s in OpenSet(fs1.open) <==> exists g :: g in fs.handles && g != h && fs.handles[g] == s)
  {
    CloseFrame(fs.(handles := fs.handles - {h}), fs.handles[h]);
    CloseInv(fs, h);
    var fs1 := Close(fs, h);
    if s in OpenSet(fs1.open) {
      var j :| 0 <= j < |fs1.open| && fs1.open[j].sector == s;
      assert InodeOk(fs1.headers, fs1.dir, fs1.open[j]);
      var g := Member(Openers(fs1.handles, s));
      assert g in fs.handles && g != h && fs.handles[g] == s;
    }
    if g :| g in fs.handles && g != h && fs.handles[g] == s { assert g in fs1.handles; }
  }

  // ---------- what is read through a handle ----------

  function BytesThrough(fs: Fs, bytes: seq<IO.Byte>, h: int): (r: seq<IO.Byte>)
    requires h in fs.handles
  {
    Slice(bytes, HeaderOf(fs, h).start, HeaderOf(fs, h).length)
  }

  // After every run, what a file's handle reads is what was written to its inode, its name gone or not.
  lemma HandleReads(n: int, ds: seq<Disk>, es: seq<Event>, bufs: seq<seq<IO.Byte>>, h: int)
    requires IsHistory(ds, es, bufs) && Formatted(n, ds[0])
    requires h in ds[|es|].fs.handles && ds[|es|].fs.handles[h] != FREE_MAP
    ensures var d := ds[|es|];
      d.fs.handles[h] in d.written && BytesThrough(d.fs, d.bytes, h) == d.written[d.fs.handles[h]]
  {
    FormattedOnDisk(n, ds[0]);
    OnDiskRun(ds, es, bufs);
    HandleTrue(ds[|es|], h);
  }

  lemma HandleTrue(d: Disk, h: int)
    requires Inv(d.fs) && OnDisk(d) && Faithful(d) && h in d.fs.handles && d.fs.handles[h] != FREE_MAP
    ensures d.fs.handles[h] in d.written && BytesThrough(d.fs, d.bytes, h) == d.written[d.fs.handles[h]]
  {
    var s := d.fs.handles[h];
    assert s in OpenSet(d.fs.open);
    assert InodeOk(d.fs.headers, d.fs.dir, d.fs.open[FindOpen(d.fs.open, s).value]);
    assert s in FileSet(d.fs);
    assert KeptAt(d, s) && Solid(d.fs.used, d.fs.headers, s);
    SliceTrue(d.bytes, d.fs.headers[s], d.written[s]);
  }

  // After every run, the handle that filesys_open gives under a name reads what the bytes of the device alone
  // give under that name.
  lemma OpenReads(n: int, ds: seq<Disk>, es: seq<Event>, bufs: seq<seq<IO.Byte>>, name: string, h: int,
                  rootOk: bool, cut: nat, memOk: bool, fileOk: bool)
    requires IsHistory(ds, es, bufs) && Formatted(n, ds[0])
    requires Open(ds[|es|].fs, name, h, rootOk, cut, memOk, fileOk).1
    ensures var d := ds[|es|]; var fs1 := Open(d.fs, name, h, rootOk, cut, memOk, fileOk).0;
      h in fs1.handles && FileOn(d.bytes, name) == Some(BytesThrough(fs1, d.bytes, h))
  {
    var d := ds[|es|];
    FormattedOnDisk(n, ds[0]);
    OnDiskRun(ds, es, bufs);
    ReadsBack(n, ds, es, bufs, name);
    OpenExact(d.fs, name, h, rootOk, cut, memOk, fileOk);
    var i :| Reaches(d.fs, name, rootOk, cut, memOk, i);
    SeenLookup(d.fs.dir, cut, name);
    ScanFinds(d.fs.dir, cut, name, i);
    EntryReads(d, name, i);
  }

  lemma EntryReads(d: Disk, name: string, i: int)
    requires Inv(d.fs) && OnDisk(d) && RootOn(d.bytes) == d.fs.dir && Lookup(d.fs.dir, name) == Some(i)
    ensures 0 <= i < |d.fs.dir| && d.fs.dir[i].sector in d.fs.headers
    ensures var hd := d.fs.headers[d.fs.dir[i].sector];
      FileOn(d.bytes, name) == Some(Slice(d.bytes, hd.start, hd.length))
  {
    LookupInside(d.fs.dir, name, 0);
    assert d.fs.dir[i].sector in NamedSet(d.fs.dir);
    HeaderTrue(d, d.fs.dir[i].sector);
  }
}
