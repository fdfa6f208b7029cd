// lib/kernel/bitmap.c: 32-bit elements and masks.

module BitWords {

  // 1 shifted left K places.
  function Mask(k: int): (m: bv32) {
    if k <= 0 then 1 else Mask(k - 1) << 1
  }

  function BitMask(i: int): (m: bv32) { Mask(i % 32) }

  function ElemIdx(i: int): (e: int) { i / 32 }

  function ElemCnt(n: int): (c: int) { (n + 31) / 32 }

  function ByteCnt(n: int): (c: int) { 4 * ElemCnt(n) }

  // The bits in use of the last element.
  function LastMask(n: int): (m: bv32) {
    if n % 32 != 0 then Mask(n % 32) - 1 else 0xFFFF_FFFF
  }

  predicate NonZero(w: bv32) { w != 0 }

  predicate BitAt(words: seq<bv32>, i: int)
    requires 0 <= ElemIdx(i) < |words|
  {
    NonZero(words[ElemIdx(i)] & BitMask(i))
  }

  // The first N bits held in WORDS.
  function Unpacked(words: seq<bv32>, n: int): (bits: seq<bool>)
    requires n >= 0 && |words| == ElemCnt(n)
  {
    seq(n, i requires 0 <= i < n => BitAt(words, i))
  }

  // ---------- masks ----------

  predicate SingleBit(m: bv32) { m != 0 && m & (m - 1) == 0 }

  lemma {:induction false} MaskThin(k: int)
    ensures Mask(k) & (Mask(k) - 1) == 0
    decreases k
  {
    if k > 0 {
      MaskThin(k - 1);
      ShiftThin(Mask(k - 1));
    }
  }

  lemma ShiftThin(m: bv32)
    requires m & (m - 1) == 0
    ensures (m << 1) & ((m << 1) - 1) == 0
  {}

  lemma MaskTop()
    ensures Mask(31) == 0x8000_0000
  {
    assert Mask(2) == 0x4;
    assert Mask(4) == 0x10;
    assert Mask(6) == 0x40;
    assert Mask(8) == 0x100;
    assert Mask(10) == 0x400;
    assert Mask(12) == 0x1000;
    assert Mask(14) == 0x4000;
    assert Mask(16) == 0x1_0000;
    assert Mask(18) == 0x4_0000;
    assert Mask(20) == 0x10_0000;
    assert Mask(22) == 0x40_0000;
    assert Mask(24) == 0x100_0000;
    assert Mask(26) == 0x400_0000;
    assert Mask(28) == 0x1000_0000;
    assert Mask(30) == 0x4000_0000;
  }

  lemma {:induction false} MaskNonZero(k: int)
    requires 0 <= k <= 31
    ensures SingleBit(Mask(k))
    decreases 31 - k
  {
    MaskThin(k);
    if k == 31 {
      MaskTop();
    } else {
      MaskNonZero(k + 1);
    }
  }

  lemma ShiftGrows(m: bv32)
    requires SingleBit(m) && m << 1 != 0
    ensures m < m << 1
  {}

  lemma {:induction false} MaskGrows(i: int, j: int)
    requires 0 <= i < j <= 31
    ensures Mask(i) < Mask(j)
    decreases j
  {
    MaskNonZero(j - 1);
    MaskNonZero(j);
    ShiftGrows(Mask(j - 1));
    if i < j - 1 { MaskGrows(i, j - 1); }
  }

  lemma OrWord(w: bv32, a: bv32, b: bv32)
    requires SingleBit(a) && SingleBit(b)
    ensures a == b ==> NonZero((w | a) & b)
    ensures a != b ==> (w | a) & b == w & b
  {}

  lemma AndNotWord(w: bv32, a: bv32, b: bv32)
    requires SingleBit(a) && SingleBit(b)
    ensures a == b ==> (w & !a) & b == 0
    ensures a != b ==> (w & !a) & b == w & b
  {}

  lemma BelowWord(w: bv32, a: bv32, b: bv32)
    requires SingleBit(a) && SingleBit(b)
    ensures b < a ==> (w & (a - 1)) & b == w & b
    ensures !(b < a) ==> (w & (a - 1)) & b == 0
  {}

  lemma MasksDiffer(i: int, j: int)
    requires 0 <= i <= 31 && 0 <= j <= 31
    ensures SingleBit(Mask(i)) && SingleBit(Mask(j))
    ensures Mask(i) == Mask(j) <==> i == j
    ensures Mask(j) < Mask(i) <==> j < i
  {
    MaskNonZero(i);
    MaskNonZero(j);
    if i < j { MaskGrows(i, j); }
    if j < i { MaskGrows(j, i); }
  }

  lemma SamePlace(i: int, j: int)
    requires ElemIdx(i) == ElemIdx(j)
    ensures SingleBit(BitMask(i)) && SingleBit(BitMask(j))
    ensures BitMask(i) == BitMask(j) <==> i == j
  {
    MasksDiffer(i % 32, j % 32);
  }

  // X differs from element W at most in the place of bit I, where it has V.
  ghost predicate BitPut(w: bv32, x: bv32, i: int, v: bool) {
    && NonZero(x & BitMask(i)) == v
    && forall j | ElemIdx(j) == ElemIdx(i) && j != i :: x & BitMask(j) == w & BitMask(j)
  }

  lemma OrPuts(w: bv32, i: int)
    ensures BitPut(w, w | BitMask(i), i, true)
  {
    SamePlace(i, i);
    OrWord(w, BitMask(i), BitMask(i));
    forall j | ElemIdx(j) == ElemIdx(i) && j != i ensures (w | BitMask(i)) & BitMask(j) == w & BitMask(j) {
      SamePlace(i, j);
      OrWord(w, BitMask(i), BitMask(j));
    }
  }

  lemma AndNotPuts(w: bv32, i: int)
    ensures BitPut(w, w & !BitMask(i), i, false)
  {
    SamePlace(i, i);
    AndNotWord(w, BitMask(i), BitMask(i));
    forall j | ElemIdx(j) == ElemIdx(i) && j != i ensures (w & !BitMask(i)) & BitMask(j) == w & BitMask(j) {
      SamePlace(i, j);
      AndNotWord(w, BitMask(i), BitMask(j));
    }
  }

  lemma LastPlace(n: int, j: int)
    requires 0 < n && ElemIdx(j) == ElemCnt(n) - 1
    ensures n % 32 == 0 ==> j < n
    ensures n % 32 != 0 ==> (j % 32 < n % 32 <==> j < n)
  {}

  // The last element's mask keeps the bits below N and clears the rest.
  lemma LastMaskKeeps(w: bv32, n: int, j: int)
    requires 0 < n && ElemIdx(j) == ElemCnt(n) - 1
    ensures j < n ==> (w & LastMask(n)) & BitMask(j) == w & BitMask(j)
    ensures j >= n ==> (w & LastMask(n)) & BitMask(j) == 0
  {
    LastPlace(n, j);
    if n % 32 != 0 {
      MasksDiffer(n % 32, j % 32);
      BelowWord(w, Mask(n % 32), BitMask(j));
    } else {
      AllOnes(w);
    }
  }

  lemma AllOnes(w: bv32)
    ensures w & 0xFFFF_FFFF == w
  {}

  // ---------- one element updated ----------

  lemma Inside(n: int, i: int)
    requires 0 <= i < n
    ensures 0 <= ElemIdx(i) < ElemCnt(n)
  {}

  lemma BitIs(words: seq<bv32>, n: int, j: int)
    requires 0 <= j < n && |words| == ElemCnt(n)
    ensures 0 <= ElemIdx(j) < |words|
    ensures Unpacked(words, n)[j] == NonZero(words[ElemIdx(j)] & BitMask(j))
  {
    Inside(n, j);
  }

  lemma BitsAgree(words: seq<bv32>, w: seq<bv32>, n: int, j: int)
    requires 0 <= j < n && |words| == |w| == ElemCnt(n) && 0 <= ElemIdx(j) < |words|
    requires w[ElemIdx(j)] & BitMask(j) == words[ElemIdx(j)] & BitMask(j)
    ensures Unpacked(w, n)[j] == Unpacked(words, n)[j]
  {
    BitIs(words, n, j);
    BitIs(w, n, j);
  }

  lemma OtherBit(words: seq<bv32>, n: int, e: int, x: bv32, j: int)
    requires 0 <= j < n && |words| == ElemCnt(n) && 0 <= e < |words|
    requires ElemIdx(j) == e ==> x & BitMask(j) == words[e] & BitMask(j)
    ensures Unpacked(words[e := x], n)[j] == Unpacked(words, n)[j]
  {
    Inside(n, j);
    BitsAgree(words, words[e := x], n, j);
  }

  lemma ThisBit(words: seq<bv32>, n: int, i: int, x: bv32, v: bool)
    requires 0 <= i < n && |words| == ElemCnt(n) && 0 <= ElemIdx(i) < |words| && NonZero(x & BitMask(i)) == v
    ensures Unpacked(words[ElemIdx(i) := x], n)[i] == v
  {
    BitIs(words[ElemIdx(i) := x], n, i);
  }

  lemma OneChanged(s: seq<bool>, t: seq<bool>, i: int, v: bool)
    requires |s| == |t| && 0 <= i < |s| && t[i] == v && forall j | 0 <= j < |s| && j != i :: t[j] == s[j]
    ensures t == s[i := v]
  {}

  // Storing such an element changes bit I and no other.
  lemma Stored(words: seq<bv32>, n: int, i: int, x: bv32, v: bool)
    requires 0 <= i < n && |words| == ElemCnt(n) && 0 <= ElemIdx(i) < |words|
    requires BitPut(words[ElemIdx(i)], x, i, v)
    ensures Unpacked(words[ElemIdx(i) := x], n) == Unpacked(words, n)[i := v]
  {
    ThisBit(words, n, i, x, v);
    var s, t := Unpacked(words, n), Unpacked(words[ElemIdx(i) := x], n);
    forall j | 0 <= j < n && j != i ensures t[j] == s[j] {
      OtherBit(words, n, ElemIdx(i), x, j);
    }
    OneChanged(s, t, i, v);
  }

  // Every bit of the last element at or after N is zero.
  ghost predicate PaddingClear(words: seq<bv32>, n: int)
    requires 0 < n && |words| == ElemCnt(n)
  {
    forall j | n <= j < 32 * |words| :: !BitAt(words, j)
  }

  lemma TrimmedBit(words: seq<bv32>, n: int, j: int, e: int, x: bv32)
    requires 0 <= j < n && |words| == ElemCnt(n) && e == |words| - 1 && x == words[e] & LastMask(n)
    ensures ElemIdx(j) == e ==> x & BitMask(j) == words[e] & BitMask(j)
  {
    if ElemIdx(j) == e { LastMaskKeeps(words[e], n, j); }
  }

  lemma TrimmedPadding(words: seq<bv32>, n: int, j: int, e: int, x: bv32)
    requires 0 < n <= j < 32 * |words| && |words| == ElemCnt(n) && e == |words| - 1 && x == words[e] & LastMask(n)
    ensures !BitAt(words[e := x], j)
  {
    LastMaskKeeps(words[e], n, j);
  }

  lemma Trimmed(words: seq<bv32>, n: int, e: int, x: bv32, w: seq<bv32>)
    requires 0 < n && |words| == ElemCnt(n) && e == |words| - 1 && x == words[e] & LastMask(n) && w == words[e := x]
    ensures Unpacked(w, n) == Unpacked(words, n)
    ensures PaddingClear(w, n)
  {
    var s, t := Unpacked(words, n), Unpacked(w, n);
    forall j | 0 <= j < n ensures t[j] == s[j] {
      TrimmedBit(words, n, j, e, x);
      OtherBit(words, n, e, x, j);
    }
    assert t == s;
    forall j | n <= j < 32 * |words| ensures !BitAt(w, j) {
      TrimmedPadding(words, n, j, e, x);
    }
  }
}
