// lib/stdio.c and lib/ustar.c: octal numbers, written by snprintf with %0No and read by
// parse_octal_field.

module Octal {
  import opened Options

  type Byte = int

  const ZERO := 48
  const SEVEN := 55
  const SPACE := 32

  // The digits of V as format_integer accumulates them, lowest first.
  function Reversed(v: int): (d: seq<Byte>)
    ensures forall i | 0 <= i < |d| :: ZERO <= d[i] <= SEVEN
  {
    if v <= 0 then [] else [ZERO + v % 8] + Reversed(v / 8)
  }

  function Backward(s: seq<Byte>): (r: seq<Byte>)
    ensures |r| == |s|
  {
    if s == [] then [] else Backward(s[1..]) + [s[0]]
  }

  // V in W octal digits.
  function Digits(v: int, w: int): (d: seq<Byte>)
    requires 0 <= w
    ensures |d| == w
    decreases w
  {
    if w == 0 then [] else Digits(v / 8, w - 1) + [ZERO + v % 8]
  }

  function Pow8(k: int): (p: int)
    ensures 0 < p
  {
    if k <= 0 then 1 else 8 * Pow8(k - 1)
  }

  function Repeat(b: Byte, n: int): (s: seq<Byte>) {
    if n <= 0 then [] else seq(n, _ => b)
  }

  // The whole of format_integer for the conversion %0Wo.
  function Formatted(v: int, w: int): (s: seq<Byte>) {
    var d := if v <= 0 then [ZERO] else Reversed(v);
    Repeat(ZERO, w - |d|) + Backward(d)
  }

  // snprintf into SIZE bytes: cut short if need be, and closed with a NUL.
  function Printed(s: seq<Byte>, size: int): (r: seq<Byte>)
    requires 0 < size
    ensures |r| <= size
  {
    (if |s| < size then s else s[..size - 1]) + [0]
  }

  // ---------- writing ----------

  lemma {:induction false} BackwardAppend(s: seq<Byte>, b: Byte)
    ensures Backward(s + [b]) == [b] + Backward(s)
  {
    if s != [] {
      assert (s + [b])[1..] == s[1..] + [b];
      BackwardAppend(s[1..], b);
      assert [b] + Backward(s[1..]) + [s[0]] == [b] + (Backward(s[1..]) + [s[0]]);
    } else {
      assert Backward([b]) == Backward([]) + [b];
      assert s + [b] == [b];
    }
  }

  lemma {:induction false} ReversedFits(v: int, w: int)
    requires 0 <= v < Pow8(w) && 0 <= w
    ensures |Reversed(v)| <= w
    ensures Repeat(ZERO, w - |Reversed(v)|) + Backward(Reversed(v)) == Digits(v, w)
    decreases w
  {
    if w == 0 {
      assert Pow8(0) == 1;
    } else if v == 0 {
      ZeroDigits(w);
    } else {
      ReversedFits(v / 8, w - 1);
      var d := Reversed(v / 8);
      assert Reversed(v) == [ZERO + v % 8] + d;
      assert Repeat(ZERO, w - 1 - |d|) + (Backward(d) + [ZERO + v % 8])
        == (Repeat(ZERO, w - 1 - |d|) + Backward(d)) + [ZERO + v % 8];
    }
  }

  lemma {:induction false} ZeroDigits(w: int)
    requires 0 <= w
    ensures Digits(0, w) == Repeat(ZERO, w)
    decreases w
  {
    if w > 0 { ZeroDigits(w - 1); }
  }

  // Padding to the field's width gives exactly the W digits of the number.
  lemma FormattedIs(v: int, w: int)
    requires 0 <= v < Pow8(w) && 0 < w
    ensures Formatted(v, w) == Digits(v, w)
  {
    ReversedFits(v, w);
    if v == 0 {
      ZeroDigits(w);
      assert Backward([ZERO]) == Backward([]) + [ZERO];
      assert Repeat(ZERO, w - 1) + [ZERO] == Repeat(ZERO, w);
    }
  }

  // ---------- reading ----------

  // parse_octal_field: the value of the digits up to a space or NUL; None is a failure.
  function ParseFrom(s: seq<Byte>, ofs: int, value: int): (r: Option<int>)
    requires 0 <= ofs
    decreases |s| - ofs
  {
    if ofs >= |s| then None
    else if ZERO <= s[ofs] <= SEVEN then
      if value > 0xFFFF_FFFF / 8 then None else ParseFrom(s, ofs + 1, s[ofs] - ZERO + value * 8)
    else if s[ofs] == SPACE || s[ofs] == 0 then
      if ofs > 0 then Some(value) else None
    else None
  }

  function Parse(s: seq<Byte>): (r: Option<int>) { ParseFrom(s, 0, 0) }

  // After the first K digits of V the value read is V with its last W - K digits dropped.
  function Dropped(v: int, k: int): (r: int)
    decreases k
  {
    if k <= 0 then v else Dropped(v / 8, k - 1)
  }

  lemma {:induction false} DroppedStep(v: int, k: int)
    requires 0 <= v && 0 <= k
    ensures Dropped(v, k + 1) == Dropped(v, k) / 8 && 0 <= Dropped(v, k) <= v
    decreases k
  {
    if k > 0 { DroppedStep(v / 8, k - 1); }
  }

  lemma {:induction false} DigitAt(v: int, w: int, i: int)
    requires 0 <= v && 0 <= i < w
    ensures Digits(v, w)[i] == ZERO + Dropped(v, w - 1 - i) % 8
    decreases w
  {
    if i < w - 1 { DigitAt(v / 8, w - 1, i); }
  }

  lemma {:induction false} DroppedAll(v: int, w: int)
    requires 0 <= v < Pow8(w) && 0 <= w
    ensures Dropped(v, w) == 0
    decreases w
  {
    if w > 0 { DroppedAll(v / 8, w - 1); } else { assert Pow8(0) == 1; }
  }

  lemma {:induction false} ParseDigits(v: int, w: int, rest: seq<Byte>, i: int)
    requires 0 <= v < 0x1_0000_0000 && 0 < w && 0 <= i <= w
    ensures ParseFrom(Digits(v, w) + [0] + rest, i, Dropped(v, w - i)) == Some(v)
    decreases w - i
  {
    var s := Digits(v, w) + [0] + rest;
    if i == w {
      assert s[i] == 0;
    } else {
      DigitAt(v, w, i);
      DroppedStep(v, w - i - 1);
      assert s[i] == Digits(v, w)[i];
      ParseDigits(v, w, rest, i + 1);
    }
  }

  // Reading back a printed number gives the number.
  lemma RoundTrip(v: int, w: int, rest: seq<Byte>)
    requires 0 <= v < 0x1_0000_0000 && v < Pow8(w) && 0 < w
    ensures Printed(Formatted(v, w), w + 1) == Digits(v, w) + [0]
    ensures Parse(Printed(Formatted(v, w), w + 1) + rest) == Some(v)
  {
    FormattedIs(v, w);
    DroppedAll(v, w);
    ParseDigits(v, w, rest, 0);
  }

  // ---------- the code's loops ----------

  // The digits in the order in which they are found.
  method DigitBuffer(value: int) returns (buf: seq<Byte>)
    ensures buf == Reversed(value)
  {
    var v := value;
    buf := [];
    while v > 0
      invariant Reversed(value) == buf + Reversed(v)
    {
      assert buf + Reversed(v) == (buf + [ZERO + v % 8]) + Reversed(v / 8);
      buf := buf + [ZERO + v % 8];
      v := v / 8;
    }
  }

  // Where vsnprintf is in its output: SENT is what has been output so far, kept or not.
  class Output {
    const buffer: array<Byte>
    const maxLength: int
    var p: int
    var length: int
    ghost var sent: seq<Byte>

    ghost predicate Valid()
      reads this, buffer
    {
      && 0 <= maxLength < buffer.Length && length == |sent|
      && p == (if length < maxLength then length else maxLength) && buffer[..p] == sent[..p]
    }

    constructor (size: int)
      requires 0 < size
      ensures Valid() && sent == [] && maxLength == size - 1 && fresh(buffer)
    {
      buffer := new Byte[size];
      maxLength, p, length, sent := size - 1, 0, 0, [];
    }

    // vsnprintf_helper.
    method Put(ch: Byte)
      requires Valid()
      modifies this, buffer
      ensures Valid() && sent == old(sent) + [ch]
    {
      if length < maxLength {
        buffer[p] := ch;
        p := p + 1;
      }
      length := length + 1;
      sent := sent + [ch];
    }

    // output_dup.
    method PutRepeated(ch: Byte, cnt: int)
      requires Valid() && 0 <= cnt
      modifies this, buffer
      ensures Valid() && sent == old(sent) + Repeat(ch, cnt)
    {
      var n := cnt;
      while n > 0
        invariant Valid() && 0 <= n <= cnt && sent == old(sent) + Repeat(ch, cnt - n)
      {
        n := n - 1;
        Put(ch);
        assert Repeat(ch, cnt - n) == Repeat(ch, cnt - n - 1) + [ch];
      }
    }

    // The digits from the last one found.
    method PutBackward(buf: seq<Byte>)
      requires Valid()
      modifies this, buffer
      ensures Valid() && sent == old(sent) + Backward(buf)
    {
      var k := |buf|;
      assert buf[..k] == buf;
      while k > 0
        invariant Valid() && 0 <= k <= |buf| && sent + Backward(buf[..k]) == old(sent) + Backward(buf)
      {
        ghost var was := sent;
        k := k - 1;
        assert buf[..k + 1] == buf[..k] + [buf[k]];
        BackwardAppend(buf[..k], buf[k]);
        Put(buf[k]);
        assert was + ([buf[k]] + Backward(buf[..k])) == sent + Backward(buf[..k]);
      }
    }

    // The null terminator.
    method Close() returns (out: seq<Byte>)
      requires Valid()
      modifies buffer
      ensures out == Printed(sent, maxLength + 1)
    {
      buffer[p] := 0;
      out := buffer[..p + 1];
    }
  }

  // format_integer for %0Wo.
  method FormatOctal(value: int, width: int, aux: Output)
    requires aux.Valid()
    modifies aux, aux.buffer
    ensures aux.Valid() && aux.sent == old(aux.sent) + Formatted(value, width)
  {
    var buf := DigitBuffer(value);
    while |buf| < 1
      invariant buf == (if |buf| < 1 then Reversed(value) else if value <= 0 then [ZERO] else Reversed(value))
      decreases 1 - |buf|
    {
      buf := buf + [ZERO];
    }
    var pad := width - |buf|;
    if pad < 0 { pad := 0; }
    aux.PutRepeated(ZERO, pad);
    aux.PutBackward(buf);
  }

  // snprintf with %0Wo into SIZE bytes, which keeps the first SIZE - 1 characters.
  method SnprintfOctal(value: int, width: int, size: int) returns (out: seq<Byte>)
    requires 0 <= value < 0x1_0000_0000 && 0 < size
    ensures out == Printed(Formatted(value, width), size)
  {
    var aux := new Output(size);
    FormatOctal(value, width, aux);
    out := aux.Close();
  }

  method ParseOctalField(s: seq<Byte>) returns (r: Option<int>)
    ensures r == Parse(s)
  {
    var value, ofs := 0, 0;
    while ofs < |s|
      invariant 0 <= ofs <= |s| && Parse(s) == ParseFrom(s, ofs, value)
    {
      var c := s[ofs];
      if ZERO <= c <= SEVEN {
        if value > 0xFFFF_FFFF / 8 { return None; }
        value := c - ZERO + value * 8;
      } else if c == SPACE || c == 0 {
        return if ofs > 0 then Some(value) else None;
      } else {
        return None;
      }
      ofs := ofs + 1;
    }
    return None;
  }
}
