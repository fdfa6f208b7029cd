// filesys/inode.c: files as byte arrays of fixed length.

module FileBytes {
  import opened Extents
  import opened InodeIo

  // The bytes of the file whose data starts at sector START.
  function Content(bytes: seq<Byte>, start: int, length: int): (r: seq<Byte>)
    requires 0 <= start && 0 <= length && 512 * start + length <= |bytes|
  {
    bytes[512 * start..512 * start + length]
  }

  // A write within a file is an overlay on its bytes, and a read of the same place gives the data back.
  lemma WriteIsOverlay(bytes: seq<Byte>, start: int, length: int, offset: int, data: seq<Byte>)
    requires 0 <= start && 0 <= offset && offset + |data| <= length && 512 * start + length <= |bytes|
    ensures var bytes1 := Overlaid(bytes, 512 * start + offset, data);
      && Content(bytes1, start, length) == Overlaid(Content(bytes, start, length), offset, data)
      && bytes1[512 * start + offset..512 * start + offset + |data|] == data
  {
    var bytes1 := Overlaid(bytes, 512 * start + offset, data);
    var x, y := Content(bytes1, start, length), Overlaid(Content(bytes, start, length), offset, data);
    forall i | 0 <= i < length ensures x[i] == y[i] { assert x[i] == bytes1[512 * start + i]; }
    assert bytes1[512 * start + offset..512 * start + offset + |data|] == data;
  }

  // A read is a slice of the file's bytes.
  lemma ReadIsSlice(bytes: seq<Byte>, start: int, length: int, offset: int, n: int)
    requires 0 <= start && 0 <= offset && 0 <= n && offset + n <= length && 512 * start + length <= |bytes|
    ensures bytes[512 * start + offset..512 * start + offset + n] == Content(bytes, start, length)[offset..offset + n]
  {
    var x, y := bytes[512 * start + offset..512 * start + offset + n],
      Content(bytes, start, length)[offset..offset + n];
    forall i | 0 <= i < n ensures x[i] == y[i] { assert y[i] == Content(bytes, start, length)[offset + i]; }
  }

  // A write changes no other file: none whose sectors are all different.
  lemma WriteElsewhere(bytes: seq<Byte>, start: int, length: int, offset: int, data: seq<Byte>, start2: int,
                       length2: int)
    requires 0 <= start && 0 <= offset && offset + |data| <= length && 512 * start + length <= |bytes|
    requires 0 <= start2 && 0 <= length2 && 512 * start2 + length2 <= |bytes|
    requires start + Sectors(length) <= start2 || start2 + Sectors(length2) <= start
    ensures Content(Overlaid(bytes, 512 * start + offset, data), start2, length2) == Content(bytes, start2, length2)
  {
    var bytes1 := Overlaid(bytes, 512 * start + offset, data);
    var x, y := Content(bytes1, start2, length2), Content(bytes, start2, length2);
    forall i | 0 <= i < length2 ensures x[i] == y[i] { assert x[i] == bytes1[512 * start2 + i]; }
  }
}
