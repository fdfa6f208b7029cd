// filesys/inode.c: reads and writes of an inode's data, one sector at a time.

module InodeIo {
  import opened Extents
  import opened Options

  // A byte, 0 to 255.
  type Byte = int

  // Bytes that a transfer of SIZE bytes at OFFSET can move in a file of LENGTH bytes.
  function Transfer(length: int, size: int, offset: int): (n: int)
    ensures 0 <= n && (0 < n ==> n <= size && offset + n <= length)
  {
    var left := length - offset;
    var n := if size < left then size else left;
    if n < 0 then 0 else n
  }

  // The part of it that needs no bounce buffer: whole sectors, up to the first partial one.
  function WholeSectors(n: int, offset: int): (m: int)
    requires 0 <= n
    ensures 0 <= m <= n
  {
    if offset % 512 == 0 then n - n % 512 else 0
  }

  function Moved(length: int, size: int, offset: int, bounceOk: bool): (n: int)
    ensures 0 <= n
  {
    if bounceOk then Transfer(length, size, offset) else WholeSectors(Transfer(length, size, offset), offset)
  }

  // A transfer moves as many bytes as the file has from OFFSET on, up to SIZE; without a bounce buffer the
  // most whole sectors among them.
  lemma MovedMost(length: int, size: int, offset: int, bounceOk: bool, k: int)
    requires 0 <= k && (k == 0 || (k <= size && offset + k <= length))
    requires bounceOk || k == 0 || (offset % 512 == 0 && k % 512 == 0)
    ensures k <= Moved(length, size, offset, bounceOk)
  {
    var n := Transfer(length, size, offset);
    if !bounceOk && k > 0 { WholeMost(n, k); }
  }

  lemma WholeMost(n: int, k: int)
    requires k % 512 == 0 && k <= n
    ensures k <= n - n % 512
  {}

  // What the loops compute as the size of the next chunk.
  function Chunk(length: int, left: int, pos: int): (c: int) {
    var inodeLeft, sectorLeft := length - pos, 512 - pos % 512;
    var minLeft := if inodeLeft < sectorLeft then inodeLeft else sectorLeft;
    if left < minLeft then left else minLeft
  }

  // A chunk that is a whole sector needs no bounce buffer.
  predicate Whole(pos: int, c: int) { pos % 512 == 0 && c == 512 }

  // M of the N bytes of a transfer from OFFSET on are done.  Without a bounce buffer they are whole sectors.
  predicate Progress(length: int, size: int, offset: int, bounceOk: bool, m: int) {
    && 0 <= m <= Transfer(length, size, offset)
    && (bounceOk || m == 0 || (offset % 512 == 0 && m % 512 == 0))
  }

  // The next chunk of a transfer in progress.
  lemma NextChunk(length: int, size: int, offset: int, bounceOk: bool, m: int, c: int)
    requires Progress(length, size, offset, bounceOk, m) && c == Chunk(length, size - m, offset + m) && m < size
    ensures c <= 0 ==> m == Moved(length, size, offset, bounceOk)
    ensures 0 < c ==> offset + m < length && c <= 512 - (offset + m) % 512 && c <= size - m
    ensures 0 < c && (bounceOk || Whole(offset + m, c)) ==> Progress(length, size, offset, bounceOk, m + c)
    ensures 0 < c && !bounceOk && !Whole(offset + m, c) ==> m == Moved(length, size, offset, bounceOk)
  {}

  lemma AllDone(length: int, size: int, offset: int, bounceOk: bool, m: int)
    requires Progress(length, size, offset, bounceOk, m) && m >= size
    ensures m == Moved(length, size, offset, bounceOk)
  {}

  // BYTES with DATA laid over it from AT on.
  function Overlaid(bytes: seq<Byte>, at: int, data: seq<Byte>): (r: seq<Byte>)
    requires 0 <= at && at + |data| <= |bytes|
    ensures |r| == |bytes|
  {
    bytes[..at] + data + bytes[at + |data|..]
  }

  // A piece of the sector at BASE.
  lemma Piece(bytes: seq<Byte>, base: int, ofs: int, c: int)
    requires 0 <= base && base + 512 <= |bytes| && 0 <= ofs && 0 <= c && ofs + c <= 512
    ensures bytes[base..base + 512][ofs..ofs + c] == bytes[base + ofs..base + ofs + c]
  {
    var x, y := bytes[base..base + 512][ofs..ofs + c], bytes[base + ofs..base + ofs + c];
    forall i | 0 <= i < c ensures x[i] == y[i] { assert x[i] == bytes[base..base + 512][ofs + i]; }
  }

  // A sector read, changed in one piece and written back.
  lemma Patched(bytes: seq<Byte>, base: int, ofs: int, data: seq<Byte>)
    requires 0 <= base && base + 512 <= |bytes| && 0 <= ofs && ofs + |data| <= 512
    ensures Overlaid(bytes, base, Overlaid(bytes[base..base + 512], ofs, data)) == Overlaid(bytes, base + ofs, data)
  {
    var sector := bytes[base..base + 512];
    var x := Overlaid(bytes, base, Overlaid(sector, ofs, data));
    var y := Overlaid(bytes, base + ofs, data);
    forall i | 0 <= i < |bytes| ensures x[i] == y[i] {
      if base <= i < base + 512 { assert x[i] == Overlaid(sector, ofs, data)[i - base]; }
    }
  }

  // Two pieces laid one after the other.
  lemma LaidOn(bytes: seq<Byte>, at: int, data: seq<Byte>, m: int, c: int)
    requires 0 <= at && 0 <= m && 0 <= c && m + c <= |data| && at + m + c <= |bytes|
    ensures Overlaid(Overlaid(bytes, at, data[..m]), at + m, data[m..m + c]) == Overlaid(bytes, at, data[..m + c])
  {
    var x := Overlaid(Overlaid(bytes, at, data[..m]), at + m, data[m..m + c]);
    var y := Overlaid(bytes, at, data[..m + c]);
    forall i | 0 <= i < |bytes| ensures x[i] == y[i] {
      if i < at + m { assert x[i] == Overlaid(bytes, at, data[..m])[i]; }
    }
  }

  // A block device of SIZE sectors of 512 bytes.
  class Device {
    const size: int
    var bytes: seq<Byte>

    ghost predicate Valid()
      reads this
    {
      0 <= size && |bytes| == 512 * size
    }

    constructor (n: int)
      requires 0 <= n
      ensures Valid() && size == n
    {
      size := n;
      bytes := seq(512 * n, _ => 0);
    }

    method BlockRead(sector: int) returns (data: seq<Byte>)
      requires Valid() && 0 <= sector < size
      ensures data == bytes[512 * sector..512 * sector + 512]
    {
      data := bytes[512 * sector..512 * sector + 512];
    }

    method BlockWrite(sector: int, data: seq<Byte>)
      requires Valid() && 0 <= sector < size && |data| == 512
      modifies this
      ensures Valid() && bytes == Overlaid(old(bytes), 512 * sector, data)
    {
      bytes := Overlaid(bytes, 512 * sector, data);
    }

    // The loop of inode_create: CNT sectors of zeros from START on.
    method ClearSectors(start: int, cnt: int)
      requires Valid() && 0 <= start && 0 <= cnt && start + cnt <= size
      modifies this
      ensures Valid() && bytes == Overlaid(old(bytes), 512 * start, Zeros(512 * cnt))
    {
      var i := 0;
      while i < cnt
        invariant 0 <= i <= cnt && Valid() && bytes == Overlaid(old(bytes), 512 * start, Zeros(512 * i))
      {
        BlockWrite(start + i, Zeros(512));
        ClearedOn(old(bytes), start, i);
        i := i + 1;
      }
    }
  }

  function Zeros(n: int): (r: seq<Byte>)
    requires 0 <= n
    ensures |r| == n
  {
    seq(n, _ => 0)
  }

  lemma ClearedOn(bytes: seq<Byte>, start: int, i: int)
    requires 0 <= start && 0 <= i && 512 * (start + i + 1) <= |bytes|
    ensures Overlaid(Overlaid(bytes, 512 * start, Zeros(512 * i)), 512 * (start + i), Zeros(512))
         == Overlaid(bytes, 512 * start, Zeros(512 * (i + 1)))
  {
    var z := Zeros(512 * (i + 1));
    assert z[..512 * i] == Zeros(512 * i) && z[512 * i..512 * i + 512] == Zeros(512) && z[..512 * i + 512] == z;
    LaidOn(bytes, 512 * start, z, 512 * i, 512);
  }

  // An inode's first sector and length in bytes, and how many openers deny writes.
  class Inode {
    const start: int
    const length: int
    var denyWriteCnt: int

    // Its data lies on the device.
    ghost predicate Fits(dev: Device)
    {
      0 <= start && 0 <= length && start + Sectors(length) <= dev.size
    }

    constructor (start: int, length: int)
      ensures this.start == start && this.length == length && denyWriteCnt == 0
    {
      this.start, this.length, denyWriteCnt := start, length, 0;
    }

    // None stands for the sector number -1.
    function ByteToSector(pos: int): (s: Option<int>) {
      if pos < length then Some(start + pos / 512) else None
    }

    lemma InRange(dev: Device, pos: int, c: int)
      requires dev.Valid() && Fits(dev) && 0 <= pos < length && 0 < c <= 512 - pos % 512
      ensures 0 <= start + pos / 512 < dev.size && 512 * (start + pos / 512) + pos % 512 == 512 * start + pos
      ensures 512 * start + pos + c <= |dev.bytes|
    {}

    // One turn of the read loop; BOUNCEOK says whether malloc() provides the bounce buffer.
    method ReadChunk(dev: Device, pos: int, c: int, bounceOk: bool) returns (data: Option<seq<Byte>>)
      requires dev.Valid() && Fits(dev) && 0 <= pos < length && 0 < c <= 512 - pos % 512
      ensures data == None <==> !bounceOk && !Whole(pos, c)
      ensures 512 * start + pos + c <= |dev.bytes|
      ensures data.Some? ==> data.value == dev.bytes[512 * start + pos..512 * start + pos + c]
    {
      var sector := ByteToSector(pos).value;
      var ofs := pos % 512;
      InRange(dev, pos, c);
      if Whole(pos, c) {
        var block := dev.BlockRead(sector);
        data := Some(block);
      } else {
        if !bounceOk { return None; }
        var bounce := dev.BlockRead(sector);
        Piece(dev.bytes, 512 * sector, ofs, c);
        data := Some(bounce[ofs..ofs + c]);
      }
    }

    method ReadAt(dev: Device, size: int, offset: int, bounceOk: bool) returns (data: seq<Byte>)
      requires dev.Valid() && Fits(dev) && 0 <= offset
      ensures |data| == Moved(length, size, offset, bounceOk)
      ensures |data| > 0 ==> 512 * start + offset + |data| <= |dev.bytes|
      ensures |data| > 0 ==> data == dev.bytes[512 * start + offset..512 * start + offset + |data|]
    {
      data := [];
      while size - |data| > 0
        invariant Progress(length, size, offset, bounceOk, |data|)
        invariant |data| > 0 ==> 512 * start + offset + |data| <= |dev.bytes|
        invariant |data| > 0 ==> data == dev.bytes[512 * start + offset..512 * start + offset + |data|]
        decreases size - |data|
      {
        var chunk := Chunk(length, size - |data|, offset + |data|);
        NextChunk(length, size, offset, bounceOk, |data|, chunk);
        if chunk <= 0 { return; }
        var piece := ReadChunk(dev, offset + |data|, chunk, bounceOk);
        if piece == None { return; }
        data := data + piece.value;
      }
      AllDone(length, size, offset, bounceOk, |data|);
    }

    // Part of a sector: the rest of it is read first and written back.
    method WritePart(dev: Device, data: seq<Byte>, pos: int)
      requires dev.Valid() && Fits(dev) && 0 <= pos < length && 0 < |data| <= 512 - pos % 512 && !Whole(pos, |data|)
      modifies dev
      ensures dev.Valid() && 512 * start + pos + |data| <= |dev.bytes|
      ensures dev.bytes == Overlaid(old(dev.bytes), 512 * start + pos, data)
    {
      var sector := ByteToSector(pos).value;
      var ofs := pos % 512;
      InRange(dev, pos, |data|);
      // The code's other choice, a sector of zeros, is for a chunk that fills the sector.
      assert ofs > 0 || |data| < 512 - ofs;
      var bounce := dev.BlockRead(sector);
      Patched(dev.bytes, 512 * sector, ofs, data);
      dev.BlockWrite(sector, Overlaid(bounce, ofs, data));
    }

    // One turn of the write loop.
    method WriteChunk(dev: Device, data: seq<Byte>, pos: int, bounceOk: bool) returns (ok: bool)
      requires dev.Valid() && Fits(dev) && 0 <= pos < length && 0 < |data| <= 512 - pos % 512
      modifies dev
      ensures dev.Valid() && (ok <==> bounceOk || Whole(pos, |data|))
      ensures 512 * start + pos + |data| <= |dev.bytes|
      ensures dev.bytes == if ok then Overlaid(old(dev.bytes), 512 * start + pos, data) else old(dev.bytes)
    {
      InRange(dev, pos, |data|);
      if Whole(pos, |data|) {
        dev.BlockWrite(ByteToSector(pos).value, data);
        return true;
      }
      if !bounceOk { return false; }
      WritePart(dev, data, pos);
      return true;
    }

    // BYTES0 with the first M bytes of the buffer written.
    ghost predicate Written(dev: Device, bytes0: seq<Byte>, buffer: seq<Byte>, offset: int, m: int)
      reads dev
    {
      && 0 <= m <= |buffer| && |dev.bytes| == |bytes0|
      && (m == 0 ==> dev.bytes == bytes0)
      && (m > 0 ==> 0 <= 512 * start + offset && 512 * start + offset + m <= |bytes0|
                    && dev.bytes == Overlaid(bytes0, 512 * start + offset, buffer[..m]))
    }

    method WriteTurn(dev: Device, buffer: seq<Byte>, offset: int, m: int, c: int, bounceOk: bool,
                     ghost bytes0: seq<Byte>)
      returns (ok: bool)
      requires dev.Valid() && Fits(dev) && 0 <= offset && Written(dev, bytes0, buffer, offset, m)
      requires offset + m < length && 0 < c <= 512 - (offset + m) % 512 && m + c <= |buffer|
      modifies dev
      ensures dev.Valid() && (ok <==> bounceOk || Whole(offset + m, c))
      ensures Written(dev, bytes0, buffer, offset, if ok then m + c else m)
    {
      ok := WriteChunk(dev, buffer[m..m + c], offset + m, bounceOk);
      if ok {
        LaidOn(bytes0, 512 * start + offset, buffer, m, c);
      }
    }

    method WriteAt(dev: Device, buffer: seq<Byte>, size: int, offset: int, bounceOk: bool) returns (written: int)
      requires dev.Valid() && Fits(dev) && 0 <= offset && size <= |buffer|
      modifies dev
      ensures dev.Valid() && written == if denyWriteCnt != 0 then 0 else Moved(length, size, offset, bounceOk)
      ensures Written(dev, old(dev.bytes), buffer, offset, written)
    {
      written := 0;
      if denyWriteCnt != 0 { return; }
      while size - written > 0
        invariant dev.Valid() && Progress(length, size, offset, bounceOk, written)
        invariant Written(dev, old(dev.bytes), buffer, offset, written)
        decreases size - written
      {
        var chunk := Chunk(length, size - written, offset + written);
        NextChunk(length, size, offset, bounceOk, written, chunk);
        if chunk <= 0 { return; }
        var ok := WriteTurn(dev, buffer, offset, written, chunk, bounceOk, old(dev.bytes));
        if !ok { return; }
        written := written + chunk;
      }
      AllDone(length, size, offset, bounceOk, written);
    }
  }
}
