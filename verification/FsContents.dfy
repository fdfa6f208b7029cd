// The file system: what a write to one file does to the bytes of the others.

module FsContents {
  import opened Extents
  import opened FsModel
  import opened FsOwners
  import opened FsInvariant
  import opened FsRuns
  import IO = InodeIo
  import opened FileBytes

  // Live inodes' data lies on the device, in stretches that do not meet.
  lemma ExtentsApart(used: seq<bool>, headers: map<int, Header>, s: int, t: int)
    requires Solid(used, headers, s) && Solid(used, headers, t) && Apart(headers, s, t)
    ensures var a, b := headers[s], headers[t];
      && 0 <= a.start && a.start + Sectors(a.length) <= |used| && 0 <= b.start && b.start + Sectors(b.length) <= |used|
      && (0 < a.length && 0 < b.length ==>
            a.start + Sectors(a.length) <= b.start || b.start + Sectors(b.length) <= a.start)
      && !InExtent(a, t)
  {
    var a, b := headers[s], headers[t];
    var k := if a.start < b.start then b.start else a.start;
    assert Owns(headers, s, k) ==> !Owns(headers, t, k);
    assert Owns(headers, t, t);
    assert Owns(headers, s, t) ==> !Owns(headers, t, t);
  }

  lemma SectorBytes(h: Header, n: int)
    requires 0 <= h.start && 0 <= h.length && h.start + Sectors(h.length) <= n
    ensures 512 * h.start + h.length <= 512 * n
  {}

  // Between two live inodes: the other file's bytes and its inode survive a write.
  lemma WriteKeepsOthers(fs: Fs, bytes: seq<IO.Byte>, s: int, t: int, offset: int, data: seq<IO.Byte>)
    requires Inv(fs) && s in LiveSet(fs.dir, fs.open) && t in LiveSet(fs.dir, fs.open) && s != t
    requires |bytes| == 512 * |fs.used| && 0 <= offset
    requires s in fs.headers && t in fs.headers && offset + |data| <= fs.headers[s].length
    ensures var a, b := fs.headers[s], fs.headers[t];
      && 0 <= a.start && 512 * a.start + offset + |data| <= |bytes|
      && 0 <= b.start && 0 <= b.length && 512 * b.start + b.length <= |bytes| && 0 <= t && 512 * t + 512 <= |bytes|
      && var bytes1 := IO.Overlaid(bytes, 512 * a.start + offset, data);
         && Content(bytes1, b.start, b.length) == Content(bytes, b.start, b.length)
         && Content(bytes1, t, 512) == Content(bytes, t, 512)
  {
    var a, b := fs.headers[s], fs.headers[t];
    assert Solid(fs.used, fs.headers, s) && Solid(fs.used, fs.headers, t) && Apart(fs.headers, s, t);
    ExtentsApart(fs.used, fs.headers, s, t);
    SectorBytes(a, |fs.used|);
    SectorBytes(b, |fs.used|);
    if data == [] {
      assert IO.Overlaid(bytes, 512 * a.start + offset, data) == bytes;
    } else {
      if 0 < b.length { WriteElsewhere(bytes, a.start, a.length, offset, data, b.start, b.length); }
      WriteElsewhere(bytes, a.start, a.length, offset, data, t, 512);
    }
  }

  // On every run, a write through one handle changes no byte of any other live file, nor its inode.
  lemma FilesIndependent(n: int, acts: seq<Action>, bytes: seq<IO.Byte>, s: int, t: int, offset: int,
                         data: seq<IO.Byte>)
    requires 2 <= n && Format(n).Some? && Legal(Format(n).value, acts)
    requires var fs := After(Format(n).value, acts);
      && s in LiveSet(fs.dir, fs.open) && t in LiveSet(fs.dir, fs.open) && s != t && |bytes| == 512 * |fs.used|
      && s in fs.headers && t in fs.headers && 0 <= offset && offset + |data| <= fs.headers[s].length
    ensures var fs := After(Format(n).value, acts); var a, b := fs.headers[s], fs.headers[t];
      && 0 <= a.start && 512 * a.start + offset + |data| <= |bytes|
      && 0 <= b.start && 0 <= b.length && 512 * b.start + b.length <= |bytes| && 0 <= t && 512 * t + 512 <= |bytes|
      && var bytes1 := IO.Overlaid(bytes, 512 * a.start + offset, data);
         && Content(bytes1, b.start, b.length) == Content(bytes, b.start, b.length)
         && Content(bytes1, t, 512) == Content(bytes, t, 512)
  {
    Reached(n, acts);
    WriteKeepsOthers(After(Format(n).value, acts), bytes, s, t, offset, data);
  }
}
