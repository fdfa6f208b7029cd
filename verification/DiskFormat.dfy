// filesys/inode.c and directory.c: inodes and directory entries as they lie on disk.

module DiskFormat {
  import opened LittleEndian
  import opened InodeIo
  import opened FsModel

  // ---------- inodes ----------

  // struct inode_disk: start, length, magic number, and zeros to the end of the sector.
  function Image(h: Header): (b: seq<Byte>)
    ensures |b| == 512
  {
    WordBytes(h.start) + WordBytes(h.length) + WordBytes(0x494E_4F44) + Zeros(500)
  }

  function ReadHeader(b: seq<Byte>): (h: Header)
    requires |b| == 512
  {
    Header(Word(b[..4]), Word(b[4..8]))
  }

  // What inode_open reads of the sector.
  lemma ImageReads(h: Header)
    requires 0 <= h.start < 0x1_0000_0000 && 0 <= h.length < 0x8000_0000
    ensures ReadHeader(Image(h)) == h
  {
    WordRoundTrip(h.start);
    WordRoundTrip(h.length);
    assert Image(h)[..4] == WordBytes(h.start) && Image(h)[4..8] == WordBytes(h.length);
  }

  // ---------- entries: 4 bytes of sector number, 15 of name and 1 of in_use ----------

  // Characters up to the first NUL.
  function CString(b: seq<Byte>): (s: string) {
    if b == [] || !(0 < b[0] < 256) then "" else [b[0] as char] + CString(b[1..])
  }

  function Decode(b: seq<Byte>): (e: Entry)
    requires |b| == 20
  {
    Entry(Word(b[..4]), CString(b[4..19]), b[19] != 0)
  }

  function NameBytes(name: string): (b: seq<Byte>)
    ensures |b| == |name| && forall i | 0 <= i < |name| :: b[i] == name[i] as int
  {
    seq(|name|, i requires 0 <= i < |name| => name[i] as int)
  }

  // The slot that dir_add writes: its name field is only overwritten as far as the NUL.
  function NewSlot(was: seq<Byte>, name: string, sector: int): (b: seq<Byte>)
    requires |was| == 20 && ValidName(name)
    ensures |b| == 20
  {
    WordBytes(sector) + NameBytes(name) + [0] + was[5 + |name|..19] + [1]
  }

  // The slot that dir_remove writes.
  function ErasedSlot(was: seq<Byte>): (b: seq<Byte>)
    requires |was| == 20
    ensures |b| == 20
  {
    was[..19] + [0]
  }

  predicate PlainName(name: string) { forall i | 0 <= i < |name| :: 0 < name[i] as int < 256 }

  lemma {:induction false} CStringReads(name: string, rest: seq<Byte>)
    requires PlainName(name)
    ensures CString(NameBytes(name) + [0] + rest) == name
    decreases |name|
  {
    var b := NameBytes(name) + [0] + rest;
    if name != "" {
      CStringReads(name[1..], rest);
      assert b[1..] == NameBytes(name[1..]) + [0] + rest;
      assert name == [name[0]] + name[1..];
    }
  }

  // What dir_add writes reads back as the entry it meant.
  lemma NewSlotDecodes(was: seq<Byte>, name: string, sector: int)
    requires |was| == 20 && ValidName(name) && PlainName(name) && 0 <= sector < 0x1_0000_0000
    ensures Decode(NewSlot(was, name, sector)) == Entry(sector, name, true)
  {
    var b := NewSlot(was, name, sector);
    WordRoundTrip(sector);
    assert b[..4] == WordBytes(sector);
    var rest := was[5 + |name|..19];
    assert b[4..19] == NameBytes(name) + [0] + rest;
    CStringReads(name, rest);
  }

  lemma ErasedSlotDecodes(was: seq<Byte>)
    requires |was| == 20
    ensures Decode(ErasedSlot(was)) == Decode(was).(inUse := false)
  {
    var b := ErasedSlot(was);
    assert b[..4] == was[..4] && b[4..19] == was[4..19];
  }

  // A directory's contents as entries; a short piece at the end is none.
  function Entries(content: seq<Byte>): (dir: seq<Entry>)
    ensures |dir| == |content| / 20
  {
    seq(|content| / 20, i requires 0 <= i < |content| / 20 => Decode(content[20 * i..20 * i + 20]))
  }

  // Writing one slot changes that entry and no other.
  lemma SlotWritten(content: seq<Byte>, i: int, slot: seq<Byte>)
    requires 0 <= i < |content| / 20 && |slot| == 20
    ensures Entries(Overlaid(content, 20 * i, slot)) == Entries(content)[i := Decode(slot)]
  {
    var content1 := Overlaid(content, 20 * i, slot);
    forall j | 0 <= j < |content| / 20 ensures Entries(content1)[j] == Entries(content)[i := Decode(slot)][j] {
      if j == i {
        assert content1[20 * i..20 * i + 20] == slot;
      } else {
        assert content1[20 * j..20 * j + 20] == content[20 * j..20 * j + 20];
      }
    }
  }

  // dir_add and dir_remove on the bytes are DirAdd and the erasure on the entries.  The buffer that
  // dir_add fills in holds whatever slot it read last.
  lemma DirAddOnBytes(content: seq<Byte>, name: string, sector: int, io: DirIo, was: seq<Byte>)
    requires PlainName(name) && 0 <= sector < 0x1_0000_0000 && DirAdd(Entries(content), name, sector, io).Some?
    requires |was| == 20
    ensures var i := Slot(Entries(content), io.slotCut);
      && 0 <= i < |content| / 20
      && Entries(Overlaid(content, 20 * i, NewSlot(was, name, sector)))
         == DirAdd(Entries(content), name, sector, io).value
  {
    var i := Slot(Entries(content), io.slotCut);
    NewSlotDecodes(was, name, sector);
    SlotWritten(content, i, NewSlot(was, name, sector));
  }

  lemma EraseOnBytes(content: seq<Byte>, i: int)
    requires 0 <= i < |content| / 20
    ensures Entries(Overlaid(content, 20 * i, ErasedSlot(content[20 * i..20 * i + 20])))
         == Entries(content)[i := Entries(content)[i].(inUse := false)]
  {
    var was := content[20 * i..20 * i + 20];
    ErasedSlotDecodes(was);
    SlotWritten(content, i, ErasedSlot(was));
  }
}
