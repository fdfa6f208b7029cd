// lib/kernel/bitmap.c: the bitmap, an array of bits packed into 32-bit elements.

module Bitmaps {
  import opened Options
  import opened BitRuns
  import opened BitWords

  class Bitmap {
    const bitCnt: int
    const bits: array<bv32>

    ghost predicate Valid()
    {
      0 <= bitCnt && bits.Length == ElemCnt(bitCnt)
    }

    ghost function Bits(): (s: seq<bool>)
      requires Valid()
      reads bits
      ensures |s| == bitCnt
    {
      Unpacked(bits[..], bitCnt)
    }

    constructor (n: int)
      requires 0 <= n
      ensures Valid() && bitCnt == n && fresh(bits)
      ensures Bits() == seq(n, _ => false)
    {
      bitCnt := n;
      bits := new bv32[ElemCnt(n)];
      new;
      SetMultiple(0, n, false);
    }

    // The element with bit I on, and with it off.
    static method Marked(w: bv32, i: int) returns (x: bv32)
      requires 0 <= i
      ensures BitPut(w, x, i, true)
    {
      x := w | BitMask(i);
      OrPuts(w, i);
    }

    static method Cleared(w: bv32, i: int) returns (x: bv32)
      requires 0 <= i
      ensures BitPut(w, x, i, false)
    {
      x := w & !BitMask(i);
      AndNotPuts(w, i);
    }

    method Store(e: int, x: bv32)
      requires 0 <= e < bits.Length
      modifies bits
      ensures bits[..] == old(bits[..])[e := x]
    {
      bits[e] := x;
    }

    method Mark(i: int)
      requires Valid() && 0 <= i < bitCnt
      modifies bits
      ensures Bits() == old(Bits())[i := true]
    {
      Inside(bitCnt, i);
      var x := Marked(bits[ElemIdx(i)], i);
      Stored(bits[..], bitCnt, i, x, true);
      Store(ElemIdx(i), x);
    }

    method Reset(i: int)
      requires Valid() && 0 <= i < bitCnt
      modifies bits
      ensures Bits() == old(Bits())[i := false]
    {
      Inside(bitCnt, i);
      var x := Cleared(bits[ElemIdx(i)], i);
      Stored(bits[..], bitCnt, i, x, false);
      Store(ElemIdx(i), x);
    }

    method Set(i: int, v: bool)
      requires Valid() && 0 <= i < bitCnt
      modifies bits
      ensures Bits() == old(Bits())[i := v]
    {
      if v { Mark(i); } else { Reset(i); }
    }

    method Test(i: int) returns (v: bool)
      requires Valid() && 0 <= i < bitCnt
      ensures v == Bits()[i]
    {
      BitIs(bits[..], bitCnt, i);
      v := NonZero(bits[ElemIdx(i)] & BitMask(i));
    }

    method SetMultiple(start: int, cnt: int, v: bool)
      requires Valid() && 0 <= start && 0 <= cnt && start + cnt <= bitCnt
      modifies bits
      ensures Bits() == Filled(old(Bits()), start, cnt, v)
    {
      var i := 0;
      while i < cnt
        invariant 0 <= i <= cnt
        invariant Bits() == Filled(old(Bits()), start, i, v)
      {
        Set(start + i, v);
        i := i + 1;
      }
    }

    method CountOf(start: int, cnt: int, v: bool) returns (n: int)
      requires Valid() && 0 <= start && 0 <= cnt && start + cnt <= bitCnt
      ensures n == Count(Bits(), start, start + cnt, v)
    {
      var i := 0;
      n := 0;
      while i < cnt
        invariant 0 <= i <= cnt
        invariant n == Count(Bits(), start, start + i, v)
      {
        var b := Test(start + i);
        if b == v { n := n + 1; }
        i := i + 1;
      }
    }

    method Contains(start: int, cnt: int, v: bool) returns (found: bool)
      requires Valid() && 0 <= start && 0 <= cnt && start + cnt <= bitCnt
      ensures found <==> !RunAt(Bits(), start, cnt, !v)
    {
      var i := 0;
      while i < cnt
        invariant 0 <= i <= cnt
        invariant RunAt(Bits(), start, i, !v)
      {
        var b := Test(start + i);
        if b == v { return true; }
        i := i + 1;
      }
      return false;
    }

    method Scan(start: int, cnt: int, v: bool) returns (r: Option<int>)
      requires Valid() && 0 <= start <= bitCnt && 0 <= cnt
      ensures FirstRun(Bits(), start, cnt, v, r) && r == Search(Bits(), start, cnt, v)
    {
      SearchFinds(Bits(), start, cnt, v);
      if cnt <= bitCnt {
        var last := bitCnt - cnt;
        var i := start;
        while i <= last
          invariant start <= i
          invariant forall j | start <= j < i :: !RunAt(Bits(), j, cnt, v)
        {
          var c := Contains(i, cnt, !v);
          if !c {
            FirstRunUnique(Bits(), start, cnt, v, Some(i), Search(Bits(), start, cnt, v));
            return Some(i);
          }
          i := i + 1;
        }
      }
      FirstRunUnique(Bits(), start, cnt, v, None, Search(Bits(), start, cnt, v));
      return None;
    }

    method ScanAndFlip(start: int, cnt: int, v: bool) returns (r: Option<int>)
      requires Valid() && 0 <= start <= bitCnt && 0 <= cnt
      modifies bits
      ensures FirstRun(old(Bits()), start, cnt, v, r) && r == Search(old(Bits()), start, cnt, v)
      ensures r == None ==> Bits() == old(Bits())
      ensures r.Some? ==> RunAt(old(Bits()), r.value, cnt, v) && Bits() == Filled(old(Bits()), r.value, cnt, !v)
    {
      r := Scan(start, cnt, v);
      if r.Some? {
        SetMultiple(r.value, cnt, !v);
      }
    }

    // bitmap_write into the file WAS, of which file_write_at transfers the first K elements: the write
    // is a success exactly when that is all of them.
    method Write(was: seq<bv32>, k: int) returns (file: seq<bv32>, success: bool)
      requires Valid() && 0 <= k <= ElemCnt(bitCnt) && k <= |was|
      ensures success <==> k == ElemCnt(bitCnt)
      ensures file == bits[..k] + was[k..]
      ensures success ==> Unpacked(file[..ElemCnt(bitCnt)], bitCnt) == Bits()
    {
      file := bits[..k] + was[k..];
      success := k == bits.Length;
      if success {
        assert file[..k] == bits[..];
      }
    }

    // What a successful write stored reads back, and whatever else the file holds does not matter.
    method WriteThenRead(was: seq<bv32>) returns (success: bool)
      requires Valid() && ElemCnt(bitCnt) <= |was|
      modifies bits
      ensures success && Bits() == old(Bits())
    {
      ghost var before := Bits();
      var file, written := Write(was, bits.Length);
      success := Read(file);
    }

    method Fill(file: seq<bv32>) returns (whole: bool)
      modifies bits
      ensures whole <==> |file| >= bits.Length
      ensures whole ==> bits[..] == file[..bits.Length]
    {
      var k := if |file| < bits.Length then |file| else bits.Length;
      forall i | 0 <= i < k { bits[i] := file[i]; }
      whole := k == bits.Length;
    }

    // Loads as many elements as FILE has, up to all of them.
    method Read(file: seq<bv32>) returns (success: bool)
      requires Valid()
      modifies bits
      ensures success <==> |file| >= ElemCnt(bitCnt)
      ensures success ==> Bits() == Unpacked(file[..ElemCnt(bitCnt)], bitCnt)
      ensures bitCnt > 0 ==> PaddingClear(bits[..], bitCnt)
    {
      success := true;
      if bitCnt > 0 {
        success := Fill(file);
        var x := bits[bits.Length - 1] & LastMask(bitCnt);
        Trimmed(bits[..], bitCnt, bits.Length - 1, x, bits[..][bits.Length - 1 := x]);
        Store(bits.Length - 1, x);
      }
    }
  }
}
