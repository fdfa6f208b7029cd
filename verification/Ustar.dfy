// lib/ustar.c: tar headers in the "ustar" Interchange Format of IEEE Std 1003.1.

module Ustar {
  import opened Options
  import opened Octal

  const SLASH := 47
  const DOT := 46
  const REGULAR := 48
  const DIRECTORY := 53

  // A C string's characters.
  predicate IsName(name: seq<Byte>) { forall i | 0 <= i < |name| :: 0 < name[i] < 256 }

  // ---------- names ----------

  function PrefixLen(name: seq<Byte>): (n: int)
    ensures 0 <= n <= |name|
  {
    if |name| >= 1 && name[0] == SLASH then 1
    else if |name| >= 2 && name[0] == DOT && name[1] == SLASH then 2
    else if |name| >= 3 && name[0] == DOT && name[1] == DOT && name[2] == SLASH then 3
    else 0
  }

  function DropPrefixes(name: seq<Byte>): (r: seq<Byte>)
    ensures PrefixLen(r) == 0 && |r| <= |name|
  {
    if PrefixLen(name) == 0 then name else DropPrefixes(name[PrefixLen(name)..])
  }

  // strip_antisocial_prefixes.
  function Strip(name: seq<Byte>): (r: seq<Byte>) {
    var s := DropPrefixes(name);
    if s == [] || s == [DOT, DOT] then [DOT] else s
  }

  // A stripped name has nothing left to strip, and stripping keeps a string a string.
  lemma StripIdempotent(name: seq<Byte>)
    ensures Strip(Strip(name)) == Strip(name)
  {
    assert DropPrefixes([DOT]) == [DOT];
  }

  lemma {:induction false} StripIsName(name: seq<Byte>)
    requires IsName(name)
    ensures IsName(Strip(name)) && Strip(name) != []
    decreases |name|
  {
    if PrefixLen(name) != 0 { StripIsName(name[PrefixLen(name)..]); }
  }

  // Never absolute, and never out of the directory by its first component.
  lemma StripSafe(name: seq<Byte>)
    ensures var s := Strip(name); s != [] && s[0] != SLASH && s != [DOT, DOT] && !([DOT, DOT, SLASH] <= s)
  {
    var s := Strip(name);
    assert PrefixLen(DropPrefixes(name)) == 0;
  }

  // strchr for a slash that is there.
  method FirstSlash(s: seq<Byte>) returns (i: int)
    requires SLASH in s
    ensures 0 <= i < |s| && s[i] == SLASH && forall j | 0 <= j < i :: s[j] != SLASH
  {
    i := 0;
    while s[i] != SLASH
      invariant 0 <= i < |s| && forall j | 0 <= j < i :: s[j] != SLASH
      invariant SLASH in s[i..]
      decreases |s| - i
    {
      assert s[i..] == [s[i]] + s[i + 1..];
      i := i + 1;
    }
  }

  method StripAntisocialPrefixes(name: seq<Byte>) returns (r: seq<Byte>)
    ensures r == Strip(name)
  {
    var s := name;
    while PrefixLen(s) != 0
      invariant DropPrefixes(name) == DropPrefixes(s)
      decreases |s|
    {
      assert s[PrefixLen(s) - 1] == SLASH;
      var i := FirstSlash(s);
      assert i + 1 == PrefixLen(s);
      s := s[i + 1..];
    }
    r := if s == [] || s == [DOT, DOT] then [DOT] else s;
  }

  // ---------- checksum ----------

  // Sum of the first N bytes, the checksum field counted as spaces.
  function Sum(h: seq<Byte>, n: int): (c: int)
    requires 0 <= n <= |h|
    decreases n
  {
    if n == 0 then 0 else Sum(h, n - 1) + if 148 <= n - 1 < 156 then SPACE else h[n - 1]
  }

  function Chksum(h: seq<Byte>): (c: int)
    requires |h| == 512
  {
    Sum(h, 512)
  }

  // The checksum does not depend on what its own field holds.
  lemma {:induction false} SumSame(h: seq<Byte>, g: seq<Byte>, n: int)
    requires 0 <= n <= |h| == |g| && forall i | 0 <= i < n && !(148 <= i < 156) :: h[i] == g[i]
    ensures Sum(h, n) == Sum(g, n)
    decreases n
  {
    if n > 0 { SumSame(h, g, n - 1); }
  }

  lemma {:induction false} SumBounded(h: seq<Byte>, n: int)
    requires 0 <= n <= |h| && forall i | 0 <= i < |h| :: 0 <= h[i] < 256
    ensures 0 <= Sum(h, n) <= 255 * n
    decreases n
  {
    if n > 0 { SumBounded(h, n - 1); }
  }

  method CalculateChksum(h: seq<Byte>) returns (c: int)
    requires |h| == 512
    ensures c == Chksum(h)
  {
    c := 0;
    var i := 0;
    while i < 512
      invariant 0 <= i <= 512 && c == Sum(h, i)
    {
      c := c + if 148 <= i < 156 then SPACE else h[i];
      i := i + 1;
    }
  }

  // ---------- the header ----------

  // H with the bytes B from AT on.
  function Put(h: seq<Byte>, at: int, b: seq<Byte>): (r: seq<Byte>)
    requires 0 <= at && at + |b| <= |h|
    ensures |r| == |h| && forall i | 0 <= i < |h| :: r[i] == if at <= i < at + |b| then b[i - at] else h[i]
  {
    h[..at] + b + h[at + |b|..]
  }

  const USTAR: seq<Byte> := [117, 115, 116, 97, 114, 0]
  const ROOT: seq<Byte> := [114, 111, 111, 116, 0]

  function Mode(kind: Byte): (m: int) { if kind == REGULAR then 420 else 493 }

  // SIZE as the unsigned number that %o prints.
  function Unsigned(size: int): (v: int) { size % 0x1_0000_0000 }

  function Field(v: int, w: int): (b: seq<Byte>)
    requires 0 < w
    ensures |b| <= w + 1
  {
    Printed(Formatted(v, w), w + 1)
  }

  // The header without its checksum, field by field in the order of the code.
  function Unsummed(name: seq<Byte>, kind: Byte, size: int): (h: seq<Byte>)
    requires |name| <= 99
    ensures |h| == 512
  {
    var h := Put(seq(512, _ => 0), 0, name + [0]);
    var h := Put(h, 100, Field(Mode(kind), 7));
    var h := Put(h, 108, Field(0, 7));
    var h := Put(h, 116, Field(0, 7));
    var h := Put(h, 124, Field(Unsigned(size), 11));
    var h := Put(h, 136, Field(1136102400, 11));
    var h := Put(h, 156, [kind]);
    var h := Put(h, 257, USTAR);
    var h := Put(h, 263, [ZERO, ZERO]);
    var h := Put(h, 297, ROOT);
    Put(h, 265, ROOT)
  }

  function Summed(h: seq<Byte>): (r: seq<Byte>)
    requires |h| == 512
    ensures |r| == 512
  {
    Put(h, 148, Field(Chksum(h), 7))
  }

  // ustar_make_header; None for a name that is too long.
  function MakeHeader(name: seq<Byte>, kind: Byte, size: int): (r: Option<seq<Byte>>) {
    if |Strip(name)| > 99 then None else Some(Summed(Unsummed(Strip(name), kind, size)))
  }

  datatype Parsed = End | File(name: seq<Byte>, kind: Byte, size: int) | Error(message: string)

  function CString(b: seq<Byte>): (s: seq<Byte>) {
    if b == [] || b[0] == 0 then [] else [b[0]] + CString(b[1..])
  }

  // ustar_parse_header.
  function ParseHeader(h: seq<Byte>): (r: Parsed)
    requires |h| == 512
  {
    if forall i | 0 <= i < 512 :: h[i] == 0 then End
    else if h[257..263] != USTAR then Error("not a ustar archive")
    else if h[263] != ZERO || h[264] != ZERO then Error("invalid ustar version")
    else
      var sum := Parse(h[148..156]);
      if sum == None then Error("corrupt chksum field")
      else if sum.value != Chksum(h) then Error("checksum mismatch")
      else if h[99] != 0 || h[345] != 0 then Error("file name too long")
      else if h[156] != REGULAR && h[156] != DIRECTORY then Error("unimplemented file type")
      else if h[156] == DIRECTORY then File(Strip(CString(h[..100])), DIRECTORY, 0)
      else
        var size := Parse(h[124..136]);
        if size == None then Error("corrupt file size field")
        else if size.value > 0x7FFF_FFFF then Error("file too large")
        else File(Strip(CString(h[..100])), REGULAR, size.value)
  }

  // ---------- round trip ----------

  lemma Pow8Values()
    ensures Pow8(7) == 0x20_0000 && Pow8(11) == 0x2_0000_0000
  {
    assert Pow8(2) == 64;
    assert Pow8(4) == 4096;
    assert Pow8(6) == 0x4_0000;
    assert Pow8(8) == 0x100_0000;
    assert Pow8(10) == 0x4000_0000;
  }

  lemma {:induction false} DigitsAre(v: int, w: int)
    requires 0 <= v && 0 <= w
    ensures forall i | 0 <= i < w :: ZERO <= Digits(v, w)[i] <= SEVEN
    decreases w
  {
    if w > 0 { DigitsAre(v / 8, w - 1); }
  }

  predicate AreBytes(b: seq<Byte>) { forall i | 0 <= i < |b| :: 0 <= b[i] < 256 }

  lemma FieldIs(v: int, w: int)
    requires 0 <= v < 0x1_0000_0000 && v < Pow8(w) && 0 < w
    ensures Field(v, w) == Digits(v, w) + [0] && AreBytes(Field(v, w)) && Parse(Field(v, w)) == Some(v)
  {
    RoundTrip(v, w, []);
    DigitsAre(v, w);
    assert Field(v, w) + [] == Field(v, w);
  }

  lemma PutBytes(h: seq<Byte>, at: int, b: seq<Byte>)
    requires 0 <= at && at + |b| <= |h| && AreBytes(h) && AreBytes(b)
    ensures AreBytes(Put(h, at, b))
  {}

  // What stands where, before the checksum.
  ghost predicate Layout(h: seq<Byte>, name: seq<Byte>, kind: Byte, size: int)
    requires |h| == 512 && |name| <= 99
  {
    && (forall i | 0 <= i < |name| :: h[i] == name[i])
    && (forall i | |name| <= i < 100 :: h[i] == 0)
    && (forall i | 0 <= i < |Field(Unsigned(size), 11)| :: h[124 + i] == Field(Unsigned(size), 11)[i])
    && h[156] == kind && (forall i | 0 <= i < 6 :: h[257 + i] == USTAR[i])
    && h[263] == ZERO && h[264] == ZERO && h[345] == 0
  }

  lemma LaidOut(name: seq<Byte>, kind: Byte, size: int)
    requires |name| <= 99
    ensures Layout(Unsummed(name, kind, size), name, kind, size)
  {}

  // The fields that parsing does not look at: mode, user and group, and the time of 1 January 2006.
  lemma OtherFields(name: seq<Byte>, kind: Byte, size: int)
    requires |name| <= 99
    ensures var h := Summed(Unsummed(name, kind, size));
      && Parse(h[100..108]) == Some(if kind == REGULAR then 420 else 493)
      && Parse(h[108..116]) == Some(0) && Parse(h[116..124]) == Some(0) && Parse(h[136..148]) == Some(1136102400)
      && h[265..270] == [114, 111, 111, 116, 0] && h[297..302] == [114, 111, 111, 116, 0]
  {
    var h := Summed(Unsummed(name, kind, size));
    Pow8Values();
    FieldIs(Mode(kind), 7);
    FieldIs(0, 7);
    FieldIs(1136102400, 11);
    FieldStands(name, kind, size);
    OwnersStand(name, kind, size);
    SlicesAre(h, Field(Mode(kind), 7), Field(0, 7), Field(1136102400, 11));
  }

  lemma SliceIs(h: seq<Byte>, at: int, b: seq<Byte>)
    requires 0 <= at && at + |b| <= |h| && forall i | 0 <= i < |b| :: h[at + i] == b[i]
    ensures h[at..at + |b|] == b
  {}

  lemma SlicesAre(h: seq<Byte>, mode: seq<Byte>, zero: seq<Byte>, time: seq<Byte>)
    requires |h| == 512 && |mode| == 8 && |zero| == 8 && |time| == 12
    requires forall i | 0 <= i < 8 :: h[100 + i] == mode[i]
    requires forall i | 0 <= i < 8 :: h[108 + i] == zero[i] && h[116 + i] == zero[i]
    requires forall i | 0 <= i < 12 :: h[136 + i] == time[i]
    requires forall i | 0 <= i < 5 :: h[265 + i] == ROOT[i] && h[297 + i] == ROOT[i]
    ensures h[100..108] == mode && h[108..116] == h[116..124] == zero && h[136..148] == time
    ensures h[265..270] == h[297..302] == ROOT
  {
    SliceIs(h, 100, mode);
    SliceIs(h, 108, zero);
    SliceIs(h, 116, zero);
    SliceIs(h, 136, time);
    SliceIs(h, 265, ROOT);
    SliceIs(h, 297, ROOT);
  }

  lemma FieldStands(name: seq<Byte>, kind: Byte, size: int)
    requires |name| <= 99 && |Field(Mode(kind), 7)| == 8 && |Field(0, 7)| == 8 && |Field(1136102400, 11)| == 12
    ensures var h := Summed(Unsummed(name, kind, size));
      && (forall i | 0 <= i < 8 :: h[100 + i] == Field(Mode(kind), 7)[i])
      && (forall i | 0 <= i < 8 :: h[108 + i] == Field(0, 7)[i] && h[116 + i] == Field(0, 7)[i])
      && (forall i | 0 <= i < 12 :: h[136 + i] == Field(1136102400, 11)[i])
  {}

  lemma OwnersStand(name: seq<Byte>, kind: Byte, size: int)
    requires |name| <= 99
    ensures var h := Summed(Unsummed(name, kind, size));
      forall i | 0 <= i < 5 :: h[265 + i] == ROOT[i] && h[297 + i] == ROOT[i]
  {}

  lemma SummedLayout(h: seq<Byte>, name: seq<Byte>, kind: Byte, size: int)
    requires |h| == 512 && |name| <= 99 && Layout(h, name, kind, size) && |Field(Unsigned(size), 11)| <= 12
    ensures Layout(Summed(h), name, kind, size)
  {}

  lemma FieldsAreBytes(kind: Byte, size: int)
    ensures AreBytes(Field(Mode(kind), 7)) && AreBytes(Field(0, 7))
    ensures AreBytes(Field(Unsigned(size), 11)) && AreBytes(Field(1136102400, 11))
  {
    Pow8Values();
    FieldIs(Mode(kind), 7);
    FieldIs(0, 7);
    FieldIs(Unsigned(size), 11);
    FieldIs(1136102400, 11);
  }

  lemma UnsummedBytes(name: seq<Byte>, kind: Byte, size: int)
    requires |name| <= 99 && IsName(name) && (kind == REGULAR || kind == DIRECTORY)
    ensures AreBytes(Unsummed(name, kind, size))
  {
    FieldsAreBytes(kind, size);
    var h0 := Put(seq(512, _ => 0), 0, name + [0]);
    PutBytes(seq(512, _ => 0), 0, name + [0]);
    PutBytes(h0, 100, Field(Mode(kind), 7));
    var h1 := Put(h0, 100, Field(Mode(kind), 7));
    PutBytes(h1, 108, Field(0, 7));
    var h2 := Put(h1, 108, Field(0, 7));
    PutBytes(h2, 116, Field(0, 7));
    var h3 := Put(h2, 116, Field(0, 7));
    PutBytes(h3, 124, Field(Unsigned(size), 11));
    var h4 := Put(h3, 124, Field(Unsigned(size), 11));
    PutBytes(h4, 136, Field(1136102400, 11));
    RestBytes(Put(h4, 136, Field(1136102400, 11)), kind);
  }

  lemma RestBytes(h: seq<Byte>, kind: Byte)
    requires |h| == 512 && AreBytes(h) && (kind == REGULAR || kind == DIRECTORY)
    ensures AreBytes(Put(Put(Put(Put(Put(h, 156, [kind]), 257, USTAR), 263, [ZERO, ZERO]), 297, ROOT), 265, ROOT))
  {
    PutBytes(h, 156, [kind]);
    var h1 := Put(h, 156, [kind]);
    PutBytes(h1, 257, USTAR);
    var h2 := Put(h1, 257, USTAR);
    PutBytes(h2, 263, [ZERO, ZERO]);
    var h3 := Put(h2, 263, [ZERO, ZERO]);
    PutBytes(h3, 297, ROOT);
    PutBytes(Put(h3, 297, ROOT), 265, ROOT);
  }

  // The checksum field holds the checksum of the finished header.
  lemma SumStands(h: seq<Byte>)
    requires |h| == 512 && AreBytes(h)
    ensures Chksum(Summed(h)) == Chksum(h) && Parse(Summed(h)[148..156]) == Some(Chksum(h))
  {
    Pow8Values();
    SumBounded(h, 512);
    FieldIs(Chksum(h), 7);
    SumSame(Summed(h), h, 512);
    assert Summed(h)[148..156] == Field(Chksum(h), 7);
  }

  lemma {:induction false} CStringIs(name: seq<Byte>, b: seq<Byte>)
    requires IsName(name) && |name| < |b| && b[|name|] == 0 && forall i | 0 <= i < |name| :: b[i] == name[i]
    ensures CString(b) == name
    decreases |name|
  {
    if name != [] {
      CStringIs(name[1..], b[1..]);
      assert name == [name[0]] + name[1..];
    }
  }

  // Parsing a composed header: the stripped name, the type, and the size, which is dropped
  // for directories and refused when it is negative.
  lemma HeaderRoundTrip(name: seq<Byte>, kind: Byte, size: int)
    requires IsName(name) && (kind == REGULAR || kind == DIRECTORY) && -0x8000_0000 <= size < 0x8000_0000
    requires MakeHeader(name, kind, size).Some?
    ensures ParseHeader(MakeHeader(name, kind, size).value)
         == if kind == DIRECTORY then File(Strip(name), kind, 0)
            else if size >= 0 then File(Strip(name), kind, size)
            else Error("file too large")
  {
    var n := Strip(name);
    StripIsName(name);
    StripIdempotent(name);
    var h0 := Unsummed(n, kind, size);
    var h := Summed(h0);
    LaidOut(n, kind, size);
    UnsummedBytes(n, kind, size);
    SumStands(h0);
    Pow8Values();
    FieldIs(Unsigned(size), 11);
    SummedLayout(h0, n, kind, size);
    ParsesAs(h, n, kind, size);
  }

  lemma ParsesAs(h: seq<Byte>, n: seq<Byte>, kind: Byte, size: int)
    requires |h| == 512 && |n| <= 99 && IsName(n) && Strip(n) == n && Layout(h, n, kind, size)
    requires kind == REGULAR || kind == DIRECTORY
    requires Parse(h[148..156]) == Some(Chksum(h)) && |Field(Unsigned(size), 11)| == 12
    requires Parse(Field(Unsigned(size), 11)) == Some(Unsigned(size)) && -0x8000_0000 <= size < 0x8000_0000
    ensures ParseHeader(h)
         == if kind == DIRECTORY then File(n, kind, 0)
            else if size >= 0 then File(n, kind, size)
            else Error("file too large")
  {
    SliceIs(h, 257, USTAR);
    SliceIs(h, 124, Field(Unsigned(size), 11));
    CStringIs(n, h[..100]);
    assert h[257 + 0] == USTAR[0];
    PassesAs(h, n, kind, size);
  }

  lemma PassesAs(h: seq<Byte>, n: seq<Byte>, kind: Byte, size: int)
    requires |h| == 512 && h[257] != 0 && h[257..263] == USTAR && h[263] == h[264] == ZERO
    requires Parse(h[148..156]) == Some(Chksum(h)) && h[99] == 0 && h[345] == 0
    requires CString(h[..100]) == n && Strip(n) == n && h[156] == kind && (kind == REGULAR || kind == DIRECTORY)
    requires Parse(h[124..136]) == Some(Unsigned(size)) && -0x8000_0000 <= size < 0x8000_0000
    ensures ParseHeader(h)
         == if kind == DIRECTORY then File(n, kind, 0)
            else if size >= 0 then File(n, kind, size)
            else Error("file too large")
  {}

  // ---------- the code, in place ----------

  // memcpy, and the copying part of strlcpy and snprintf.
  method Copy(header: array<Byte>, at: int, b: seq<Byte>)
    requires 0 <= at && at + |b| <= header.Length
    modifies header
    ensures header[..] == Put(old(header[..]), at, b)
  {
    var i := 0;
    while i < |b|
      invariant 0 <= i <= |b|
      invariant forall k | 0 <= k < header.Length :: header[k] == if at <= k < at + i then b[k - at] else old(header[k])
    {
      header[at + i] := b[i];
      i := i + 1;
    }
  }

  method Clear(header: array<Byte>)
    modifies header
    ensures header[..] == seq(header.Length, _ => 0)
  {
    var i := 0;
    while i < header.Length
      invariant 0 <= i <= header.Length && forall k | 0 <= k < i :: header[k] == 0
    {
      header[i] := 0;
      i := i + 1;
    }
  }

  method PutOctal(header: array<Byte>, at: int, value: int, width: int)
    requires 0 <= value < 0x1_0000_0000 && 0 < width && 0 <= at && at + width + 1 <= header.Length
    modifies header
    ensures header[..] == Put(old(header[..]), at, Field(value, width))
  {
    var s := SnprintfOctal(value, width, width + 1);
    Copy(header, at, s);
  }

  // ustar_make_header; the header is left alone if the name is too long.
  method UstarMakeHeader(name: seq<Byte>, kind: Byte, size: int, header: array<Byte>) returns (ok: bool)
    requires header.Length == 512 && IsName(name) && (kind == REGULAR || kind == DIRECTORY)
    modifies header
    ensures ok == MakeHeader(name, kind, size).Some?
    ensures header[..] == if ok then MakeHeader(name, kind, size).value else old(header[..])
  {
    var n := StripAntisocialPrefixes(name);
    if |n| > 99 { return false; }
    Clear(header);
    Copy(header, 0, n + [0]);
    PutOctal(header, 100, Mode(kind), 7);
    PutOctal(header, 108, 0, 7);
    PutOctal(header, 116, 0, 7);
    PutOctal(header, 124, Unsigned(size), 11);
    PutOctal(header, 136, 1136102400, 11);
    Copy(header, 156, [kind]);
    Copy(header, 257, USTAR);
    Copy(header, 263, [ZERO, ZERO]);
    Copy(header, 297, ROOT);
    Copy(header, 265, ROOT);
    assert header[..] == Unsummed(n, kind, size);
    var sum := CalculateChksum(header[..]);
    StripIsName(name);
    UnsummedBytes(n, kind, size);
    SumBounded(header[..], 512);
    PutOctal(header, 148, sum, 7);
    return true;
  }

  method IsAllZeros(b: seq<Byte>) returns (zero: bool)
    ensures zero <==> forall i | 0 <= i < |b| :: b[i] == 0
  {
    var i := 0;
    while i < |b|
      invariant 0 <= i <= |b| && forall k | 0 <= k < i :: b[k] == 0
    {
      if b[i] != 0 { return false; }
      i := i + 1;
    }
    return true;
  }

  method UstarParseHeader(h: seq<Byte>) returns (r: Parsed)
    requires |h| == 512
    ensures r == ParseHeader(h)
  {
    var zero := IsAllZeros(h);
    if zero { return End; }
    if h[257..263] != USTAR { return Error("not a ustar archive"); }
    if h[263] != ZERO || h[264] != ZERO { return Error("invalid ustar version"); }
    var sum := ParseOctalField(h[148..156]);
    if sum == None { return Error("corrupt chksum field"); }
    var chksum := CalculateChksum(h);
    if sum.value != chksum { return Error("checksum mismatch"); }
    if h[99] != 0 || h[345] != 0 { return Error("file name too long"); }
    if h[156] != REGULAR && h[156] != DIRECTORY { return Error("unimplemented file type"); }
    var size := 0;
    if h[156] == REGULAR {
      var value := ParseOctalField(h[124..136]);
      if value == None { return Error("corrupt file size field"); }
      if value.value > 0x7FFF_FFFF { return Error("file too large"); }
      size := value.value;
    }
    var name := StripAntisocialPrefixes(CString(h[..100]));
    return File(name, h[156], size);
  }
}
