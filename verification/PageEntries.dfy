// threads/pte.h: entries as 32-bit numbers, a page-aligned physical address plus flag bits.

module PageEntries {

  const PHYS_BASE := 0xC000_0000

  function PdNo(va: int): (i: int) { va / 0x40_0000 }

  function PtNo(va: int): (j: int) { va / 4096 % 1024 }

  predicate IsPage(a: int) { a % 4096 == 0 && PHYS_BASE <= a < 0x1_0000_0000 }

  function Vtop(a: int): (p: int) { a - PHYS_BASE }

  function Ptov(p: int): (a: int) { p + PHYS_BASE }

  predicate Present(e: int) { e % 2 == 1 }

  predicate Writable(e: int) { e / 2 % 2 == 1 }

  predicate ForUser(e: int) { e / 4 % 2 == 1 }

  // Present, writable and for user code: bits 0, 1 and 2.
  function PdeCreate(pt: int): (e: int) { Vtop(pt) + 7 }

  function PteCreateUser(page: int, writable: bool): (e: int) { Vtop(page) + 5 + if writable then 2 else 0 }

  // The page or table that an entry points to.
  function PageOf(e: int): (a: int) { Ptov(e - e % 4096) }

  // The entry with its present bit off.
  function Absent(e: int): (r: int) { if Present(e) then e - 1 else e }

  lemma EntriesPoint(page: int, writable: bool)
    requires IsPage(page)
    ensures var e := PdeCreate(page); Present(e) && Writable(e) && ForUser(e) && PageOf(e) == page && e != 0
    ensures var e := PteCreateUser(page, writable);
      Present(e) && ForUser(e) && PageOf(e) == page && (Writable(e) <==> writable)
  {}

  // Turning the present bit off keeps the rest of the entry.
  lemma AbsentKeeps(e: int)
    ensures !Present(Absent(e)) && PageOf(Absent(e)) == PageOf(e)
    ensures (Writable(Absent(e)) <==> Writable(e)) && (ForUser(Absent(e)) <==> ForUser(e))
  {
    HigherBits(e);
    HigherBits(Absent(e));
    SamePage(e);
  }

  lemma HigherBits(e: int)
    ensures e / 4 == e / 2 / 2 && Absent(e) / 2 == e / 2
  {}

  lemma SamePage(e: int)
    ensures Absent(e) - Absent(e) % 4096 == e - e % 4096
  {
    if Present(e) {
      var q, r := e / 4096, e % 4096;
      EvenOffset(q);
      OffsetIs(q, r - 1);
    }
  }

  lemma EvenOffset(q: int)
    ensures !Present(4096 * q)
  {
    assert 4096 * q == 2 * (2048 * q);
  }

  lemma OffsetIs(q: int, r: int)
    requires 0 <= r < 4096
    ensures (4096 * q + r) % 4096 == r
  {}

  // A user page's two indices determine it.
  lemma IndicesSplit(va: int)
    requires 0 <= va < PHYS_BASE
    ensures 0 <= PdNo(va) < 768 && 0 <= PtNo(va) < 1024
    ensures va == 0x40_0000 * PdNo(va) + 4096 * PtNo(va) + va % 4096
  {
    assert va / 4096 / 1024 == va / 0x40_0000;
  }
}
