// lib/ustar.c: which headers are accepted, and as what.

module UstarChecks {
  import opened Options
  import opened Octal
  import opened Ustar

  // ---------- octal fields ----------

  // The first N bytes read as octal digits.
  function Value(s: seq<Byte>, n: int): (v: int)
    requires 0 <= n <= |s|
    decreases n
  {
    if n == 0 then 0 else 8 * Value(s, n - 1) + (s[n - 1] - ZERO)
  }

  predicate AllDigits(s: seq<Byte>, n: int)
    requires 0 <= n <= |s|
  {
    forall i | 0 <= i < n :: ZERO <= s[i] <= SEVEN
  }

  // N digits and a space or NUL, worth V, which fits in 32 bits.
  predicate Reads(s: seq<Byte>, n: int, v: int) {
    0 < n < |s| && AllDigits(s, n) && (s[n] == SPACE || s[n] == 0) && Value(s, n) == v < 0x1_0000_0000
  }

  ghost predicate Says(s: seq<Byte>, v: int) { exists n :: Reads(s, n, v) }

  lemma {:induction false} ValueGrows(s: seq<Byte>, m: int, n: int)
    requires 0 <= m <= n <= |s| && AllDigits(s, n)
    ensures 0 <= Value(s, m) <= Value(s, n)
    decreases n
  {
    if n > 0 {
      if m < n { ValueGrows(s, m, n - 1); } else { ValueGrows(s, n - 1, n - 1); }
    }
  }

  lemma {:induction false} ParseFromReads(s: seq<Byte>, ofs: int, n: int, v: int)
    requires 0 <= ofs <= n && Reads(s, n, v)
    ensures ParseFrom(s, ofs, Value(s, ofs)) == Some(v)
    decreases n - ofs
  {
    if ofs < n {
      ValueGrows(s, ofs + 1, n);
      ParseFromReads(s, ofs + 1, n, v);
    }
  }

  lemma {:induction false} ParseFromOnly(s: seq<Byte>, ofs: int) returns (n: int)
    requires 0 <= ofs <= |s| && AllDigits(s, ofs) && 0 <= Value(s, ofs) < 0x1_0000_0000
    requires ParseFrom(s, ofs, Value(s, ofs)).Some?
    ensures Reads(s, n, ParseFrom(s, ofs, Value(s, ofs)).value)
    decreases |s| - ofs
  {
    if ZERO <= s[ofs] <= SEVEN {
      n := ParseFromOnly(s, ofs + 1);
    } else {
      n := ofs;
    }
  }

  // parse_octal_field reads V exactly from the fields that are V in octal and end in a space or NUL.
  lemma ParseExact(s: seq<Byte>, v: int)
    ensures Parse(s) == Some(v) <==> Says(s, v)
  {
    if n :| Reads(s, n, v) { ParseFromReads(s, 0, n, v); }
    if Parse(s).Some? { var n := ParseFromOnly(s, 0); }
  }

  // ---------- the checksum ----------

  // The sum of the bytes from LO to HI.
  function ByteSum(h: seq<Byte>, lo: int, hi: int): (c: int)
    requires 0 <= lo <= hi <= |h|
    decreases hi
  {
    if lo == hi then 0 else ByteSum(h, lo, hi - 1) + h[hi - 1]
  }

  lemma {:induction false} SumSplits(h: seq<Byte>, n: int)
    requires 0 <= n <= |h| && 156 <= |h|
    ensures Sum(h, n) == if n <= 148 then ByteSum(h, 0, n)
                         else if n <= 156 then ByteSum(h, 0, 148) + 32 * (n - 148)
                         else ByteSum(h, 0, 148) + 8 * 32 + ByteSum(h, 156, n)
    decreases n
  {
    if n > 0 { SumSplits(h, n - 1); }
  }

  lemma {:induction false} ByteSumSplits(h: seq<Byte>, lo: int, mid: int, hi: int)
    requires 0 <= lo <= mid <= hi <= |h|
    ensures ByteSum(h, lo, hi) == ByteSum(h, lo, mid) + ByteSum(h, mid, hi)
    decreases hi
  {
    if mid < hi { ByteSumSplits(h, lo, mid, hi - 1); }
  }

  // The checksum is the sum of all bytes, less those of its field, plus that of eight spaces.
  lemma ChksumIs(h: seq<Byte>)
    requires |h| == 512
    ensures Chksum(h) == ByteSum(h, 0, 512) - ByteSum(h, 148, 156) + 8 * 32
  {
    SumSplits(h, 512);
    ByteSumSplits(h, 0, 148, 512);
    ByteSumSplits(h, 148, 156, 512);
  }

  lemma {:induction false} SumMoves(h: seq<Byte>, g: seq<Byte>, i: int, n: int)
    requires 0 <= n <= |h| == |g| && 0 <= i < |h| && !(148 <= i < 156) && g == h[i := g[i]]
    ensures Sum(g, n) == Sum(h, n) + if i < n then g[i] - h[i] else 0
    decreases n
  {
    if n > 0 { SumMoves(h, g, i, n - 1); }
  }

  // ---------- acceptance ----------

  predicate AllZero(h: seq<Byte>) { forall i | 0 <= i < |h| :: h[i] == 0 }

  // The bytes "ustar", a NUL and "00" in their places.
  predicate Marked(h: seq<Byte>)
    requires |h| == 512
  {
    && h[257] == 117 && h[258] == 115 && h[259] == 116 && h[260] == 97 && h[261] == 114 && h[262] == 0
    && h[263] == 48 && h[264] == 48
  }

  // The checksum field is the sum that the standard prescribes, in octal.
  ghost predicate Summing(h: seq<Byte>)
    requires |h| == 512
  {
    Says(h[148..156], ByteSum(h, 0, 512) - ByteSum(h, 148, 156) + 8 * 32)
  }

  // The name ends within its field, and there is no prefix.
  predicate Named(h: seq<Byte>)
    requires |h| == 512
  {
    h[99] == 0 && h[345] == 0
  }

  ghost predicate Sized(h: seq<Byte>, v: int)
    requires |h| == 512
  {
    0 <= v <= 0x7FFF_FFFF && Says(h[124..136], v)
  }

  // A header is accepted as a directory, or as a regular file of V bytes, exactly if all of its fields say so.
  lemma AcceptsDirectory(h: seq<Byte>)
    requires |h| == 512
    ensures ParseHeader(h).File? && ParseHeader(h).kind == DIRECTORY
            <==> Marked(h) && Summing(h) && Named(h) && h[156] == DIRECTORY
    ensures ParseHeader(h).File? && ParseHeader(h).kind == DIRECTORY ==>
      ParseHeader(h) == File(Strip(CString(h[..100])), DIRECTORY, 0)
  {
    ChecksAre(h);
  }

  lemma AcceptsRegular(h: seq<Byte>, v: int)
    requires |h| == 512
    ensures ParseHeader(h).File? && ParseHeader(h).kind == REGULAR && ParseHeader(h).size == v
            <==> Marked(h) && Summing(h) && Named(h) && h[156] == REGULAR && Sized(h, v)
    ensures ParseHeader(h).File? ==> ParseHeader(h).name == Strip(CString(h[..100]))
  {
    ChecksAre(h);
    ParseExact(h[124..136], v);
    if Parse(h[124..136]).Some? { ParsedFits(h[124..136]); }
  }

  lemma ParsedFits(s: seq<Byte>)
    requires Parse(s).Some?
    ensures 0 <= Parse(s).value < 0x1_0000_0000
  {
    var n := ParseFromOnly(s, 0);
    ValueGrows(s, 0, n);
  }

  lemma ChecksAre(h: seq<Byte>)
    requires |h| == 512
    ensures h[257..263] == USTAR && h[263] == ZERO && h[264] == ZERO <==> Marked(h)
    ensures Parse(h[148..156]) == Some(Chksum(h)) <==> Summing(h)
    ensures Marked(h) ==> !AllZero(h)
  {
    ChksumIs(h);
    ParseExact(h[148..156], Chksum(h));
    MarkIs(h);
  }

  lemma MarkIs(h: seq<Byte>)
    requires |h| == 512
    ensures h[257..263] == USTAR && h[263] == ZERO && h[264] == ZERO <==> Marked(h)
    ensures Marked(h) ==> !AllZero(h)
  {
    var b := h[257..263];
    assert b[0] == h[257] && b[1] == h[258] && b[2] == h[259] && b[3] == h[260] && b[4] == h[261] && b[5] == h[262];
    assert b == [b[0], b[1], b[2], b[3], b[4], b[5]];
  }

  // The end of the archive is 512 zeros and nothing else.
  lemma EndExact(h: seq<Byte>)
    requires |h| == 512
    ensures ParseHeader(h).End? <==> AllZero(h)
  {}

  // ---------- damage ----------

  // One byte altered anywhere outside the checksum field, and the header is refused.
  lemma OneByteRefused(h: seq<Byte>, g: seq<Byte>, i: int)
    requires |h| == |g| == 512 && ParseHeader(h).File?
    requires 0 <= i < 512 && !(148 <= i < 156) && g == h[i := g[i]] && g[i] != h[i]
    ensures ParseHeader(g).Error?
  {
    SumMoves(h, g, i, 512);
    assert g[148..156] == h[148..156];
    FieldNotZero(h);
    assert Parse(g[148..156]) != Some(Chksum(g));
  }

  // The checksum field of an accepted header begins with a digit.
  lemma FieldNotZero(h: seq<Byte>)
    requires |h| == 512 && ParseHeader(h).File?
    ensures h[148] != 0 && Parse(h[148..156]) == Some(Chksum(h))
  {
    var n := ParseFromOnly(h[148..156], 0);
    assert h[148..156][0] == h[148];
  }

  // Altered within that field, it is accepted exactly if the field still reads as the checksum, and then it
  // says the same.
  lemma FieldAltered(h: seq<Byte>, g: seq<Byte>)
    requires |h| == |g| == 512 && ParseHeader(h).File?
    requires forall i | 0 <= i < 512 && !(148 <= i < 156) :: g[i] == h[i]
    ensures if Parse(g[148..156]) == Some(Chksum(h)) then ParseHeader(g) == ParseHeader(h) else ParseHeader(g).Error?
  {
    SumSame(g, h, 512);
    assert g[257..263] == h[257..263] && g[..100] == h[..100] && g[124..136] == h[124..136];
    assert g[257] == h[257..263][0];
  }

  // ---------- names ----------

  // A sequence of "/", "./" and "../".
  predicate Antisocial(p: seq<Byte>) {
    || p == []
    || ([SLASH] <= p && Antisocial(p[1..]))
    || ([DOT, SLASH] <= p && Antisocial(p[2..]))
    || ([DOT, DOT, SLASH] <= p && Antisocial(p[3..]))
  }

  predicate StartsClean(s: seq<Byte>) { !([SLASH] <= s) && !([DOT, SLASH] <= s) && !([DOT, DOT, SLASH] <= s) }

  // A sequence that is not empty begins with what is dropped first, whatever follows it.
  lemma FirstOf(p: seq<Byte>, s: seq<Byte>)
    requires Antisocial(p) && p != []
    ensures var n := PrefixLen(p);
      0 < n <= |p| && PrefixLen(p + s) == n && Antisocial(p[n..]) && (p + s)[n..] == p[n..] + s
  {
    FirstPiece(p);
    PieceKept(p, s);
  }

  lemma FirstPiece(p: seq<Byte>)
    requires Antisocial(p) && p != []
    ensures 0 < PrefixLen(p) <= |p| && Antisocial(p[PrefixLen(p)..])
  {
    if [SLASH] <= p {
      assert PrefixLen(p) == 1;
    } else if [DOT, SLASH] <= p {
      assert PrefixLen(p) == 2;
    } else {
      assert PrefixLen(p) == 3;
    }
  }

  lemma PieceKept(p: seq<Byte>, s: seq<Byte>)
    requires 0 < PrefixLen(p)
    ensures PrefixLen(p + s) == PrefixLen(p) && (p + s)[PrefixLen(p)..] == p[PrefixLen(p)..] + s
  {
    assert forall i | 0 <= i < |p| :: (p + s)[i] == p[i];
  }

  lemma {:induction false} DropIs(p: seq<Byte>, s: seq<Byte>)
    requires Antisocial(p) && StartsClean(s)
    ensures DropPrefixes(p + s) == s
    decreases |p|
  {
    if p == [] {
      assert p + s == s;
    } else {
      FirstOf(p, s);
      DropIs(p[PrefixLen(p)..], s);
    }
  }

  lemma CleanIs(s: seq<Byte>)
    requires PrefixLen(s) == 0
    ensures StartsClean(s)
  {}

  lemma {:induction false} DropSplits(name: seq<Byte>) returns (p: seq<Byte>)
    ensures Antisocial(p) && name == p + DropPrefixes(name)
    decreases |name|
  {
    var n := PrefixLen(name);
    if n == 0 {
      p := [];
    } else {
      var q := DropSplits(name[n..]);
      AddPrefix(name, n, q);
      p := name[..n] + q;
      Rejoined(name, n, q, DropPrefixes(name));
    }
  }

  lemma Rejoined(name: seq<Byte>, n: int, q: seq<Byte>, s: seq<Byte>)
    requires 0 <= n <= |name| && name[n..] == q + s
    ensures name == name[..n] + q + s
  {
    assert name == name[..n] + name[n..];
  }

  lemma AddPrefix(name: seq<Byte>, n: int, q: seq<Byte>)
    requires n == PrefixLen(name) > 0 && Antisocial(q)
    ensures Antisocial(name[..n] + q)
  {
    var p := name[..n] + q;
    assert p[n..] == q;
    assert if n == 1 then [SLASH] <= p else if n == 2 then [DOT, SLASH] <= p else [DOT, DOT, SLASH] <= p;
  }

  // The name stripped is what is left of it behind a longest sequence of "/", "./" and "../", or "." for
  // nothing and for "..".
  lemma StripExact(name: seq<Byte>, p: seq<Byte>, s: seq<Byte>)
    requires name == p + s && Antisocial(p) && StartsClean(s)
    ensures Strip(name) == if s == [] || s == [DOT, DOT] then [DOT] else s
  {
    DropIs(p, s);
  }

  // There is one such way to split a name, and no longer sequence begins it.
  lemma StripSplits(name: seq<Byte>) returns (p: seq<Byte>, s: seq<Byte>)
    ensures name == p + s && Antisocial(p) && StartsClean(s)
    ensures forall q | Antisocial(q) && q <= name :: q <= p
  {
    p := DropSplits(name);
    s := DropPrefixes(name);
    CleanIs(s);
    forall q | Antisocial(q) && q <= name ensures q <= p { Longest(name, q, p, s); }
  }

  lemma {:induction false} Longest(name: seq<Byte>, q: seq<Byte>, p: seq<Byte>, s: seq<Byte>)
    requires name == p + s && Antisocial(p) && StartsClean(s) && Antisocial(q) && q <= name
    ensures q <= p
    decreases |q|
  {
    if q != [] {
      var n := PrefixLen(q);
      FirstOf(q, name[|q|..]);
      assert name == q + name[|q|..];
      assert p == [] ==> name == s;
      FirstOf(p, s);
      assert q[n..] <= name[n..];
      Longest(name[n..], q[n..], p[n..], s);
    }
  }
}
