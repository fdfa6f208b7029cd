// userprog/process.c: the stack page of a new process, addressed by offsets from its start.

module ArgStack {
  import opened LittleEndian
  import opened CommandLine

  // Address of the stack page, just below PHYS_BASE.
  const BASE := 0xBFFF_F000

  function ReadWord(m: seq<int>, at: int): (w: int)
    requires 0 <= at && at + 4 <= |m|
  {
    Word(m[at..at + 4])
  }

  // The words WS stand from AT on.
  predicate WordsAt(m: seq<int>, at: int, ws: seq<int>) {
    0 <= at && at + 4 * |ws| <= |m| && forall k | 0 <= k < |ws| :: ReadWord(m, at + 4 * k) == ws[k]
  }

  // A word pushed below AT.
  lemma WordPushed(m: seq<int>, m1: seq<int>, at: int, w: int, ws: seq<int>)
    requires WordsAt(m, at, ws) && 4 <= at && 0 <= w < 0x1_0000_0000
    requires |m1| == |m| && m1[at - 4..at] == WordBytes(w) && m1[at..] == m[at..]
    ensures WordsAt(m1, at - 4, [w] + ws)
  {
    WordRoundTrip(w);
    var vs := [w] + ws;
    forall k | 0 <= k < |vs| ensures ReadWord(m1, at - 4 + 4 * k) == vs[k] {
      if k > 0 { WordKept(m, m1, at, at + 4 * (k - 1)); }
    }
  }

  lemma WordKept(m: seq<int>, m1: seq<int>, at: int, p: int)
    requires |m1| == |m| && 0 <= at <= p && p + 4 <= |m| && m1[at..] == m[at..]
    ensures ReadWord(m1, p) == ReadWord(m, p)
  {
    var x, y := m1[p..p + 4], m[p..p + 4];
    forall i | 0 <= i < 4 ensures x[i] == y[i] { assert m1[at..][p - at + i] == m[at..][p - at + i]; }
    assert x == y;
  }

  method PushWord(mem: array<int>, esp: int, w: int, ghost ws: seq<int>) returns (esp1: int)
    requires 4 <= esp <= mem.Length && 0 <= w < 0x1_0000_0000 && WordsAt(mem[..], esp, ws)
    modifies mem
    ensures esp1 == esp - 4 && WordsAt(mem[..], esp1, [w] + ws) && mem[esp..] == old(mem[esp..])
  {
    ghost var m := mem[..];
    esp1 := esp - 4;
    var b := WordBytes(w);
    mem[esp1], mem[esp1 + 1], mem[esp1 + 2], mem[esp1 + 3] := b[0], b[1], b[2], b[3];
    assert mem[..][esp - 4..esp] == b && mem[..][esp..] == m[esp..];
    WordPushed(m, mem[..], esp, w, ws);
  }

  // Addresses of the strings at positions PS of the data.
  function Addresses(n: int, ps: seq<int>): (ws: seq<int>)
    ensures |ws| == |ps| && forall k | 0 <= k < |ps| :: ws[k] == BASE + 4096 - n + ps[k]
  {
    seq(|ps|, k requires 0 <= k < |ps| => BASE + 4096 - n + ps[k])
  }

  // Where setup_stack starts strings: at the front, and behind every NUL.
  function Starts(c: seq<int>): (ps: seq<int>)
    requires |c| > 0
  {
    [0] + StartsAfter(c, 0)
  }

  function Argc(c: seq<int>): (n: int)
    requires |c| > 0
  {
    |Starts(c)|
  }

  // Bytes that the whole layout takes.
  function Room(c: seq<int>): (n: int)
    requires |c| > 0
  {
    |c| + |c| % 4 + 4 + 4 * Argc(c) + 12
  }

  // The finished stack: return address, argc, argv, the pointers and the null pointer behind them.
  ghost predicate Laid(m: seq<int>, esp: int, c: seq<int>)
    requires |c| > 0
  {
    && |m| == 4096 && |c| <= 4096
    && m[4096 - |c|..] == c
    && WordsAt(m, esp, [0, Argc(c), BASE + esp + 12] + Addresses(|c|, Starts(c)) + [0])
  }

  lemma {:induction false} FewerStarts(c: seq<int>, q: int)
    requires 0 <= q < |c|
    ensures |StartsAfter(c, q)| <= |StartsAfter(c, 0)|
    decreases q
  {
    if q > 0 { FewerStarts(c, q - 1); }
  }

  // argv data, bytewise, up to the top of the stack; then the bytes between, cleared.
  method PushData(mem: array<int>, c: seq<int>) returns (esp: int)
    requires mem.Length == 4096 && |c| + |c| % 4 <= 4096
    modifies mem
    ensures esp == 4096 - |c| - |c| % 4 && mem[4096 - |c|..] == c
  {
    var data := 4096 - |c|;
    var i := 0;
    while i < |c|
      invariant 0 <= i <= |c| && forall k | 0 <= k < i :: mem[data + k] == c[k]
    {
      mem[data + i] := c[i];
      i := i + 1;
    }
    esp := data - |c| % 4;
    i := 0;
    while i < |c| % 4
      invariant 0 <= i <= |c| % 4 && forall k | 0 <= k < |c| :: mem[data + k] == c[k]
    {
      mem[esp + i] := 0;
      i := i + 1;
    }
  }

  // The data C on top, and from ESP on the addresses of its strings at PS with a null pointer behind them.
  ghost predicate PointersAt(m: seq<int>, esp: int, c: seq<int>, ps: seq<int>) {
    && |m| == 4096 && |c| <= 4096 && m[4096 - |c|..] == c
    && 0 <= esp && esp + 4 * |ps| + 4 <= 4096 - |c| && WordsAt(m, esp, Addresses(|c|, ps) + [0])
  }

  method PushPointer(mem: array<int>, esp: int, addr: int, ghost c: seq<int>, ghost p: int, ghost ps: seq<int>)
    returns (esp1: int)
    requires mem.Length == 4096 && 4 <= esp && 0 <= p < |c| && PointersAt(mem[..], esp, c, ps)
    requires addr == BASE + 4096 - |c| + p
    modifies mem
    ensures esp1 == esp - 4 && PointersAt(mem[..], esp1, c, [p] + ps)
  {
    ghost var m := mem[..];
    esp1 := PushWord(mem, esp, addr, Addresses(|c|, ps) + [0]);
    assert [addr] + (Addresses(|c|, ps) + [0]) == Addresses(|c|, [p] + ps) + [0];
    forall k | 0 <= k < |c| ensures mem[4096 - |c| + k] == c[k] {
      assert mem[esp..][4096 - |c| + k - esp] == old(mem[esp..])[4096 - |c| + k - esp];
      assert m[4096 - |c|..][k] == c[k];
    }
  }

  lemma DataByte(m: seq<int>, esp: int, c: seq<int>, ps: seq<int>, q: int)
    requires PointersAt(m, esp, c, ps) && 0 <= q < |c|
    ensures m[4096 - |c| + q] == c[q]
  {
    assert m[4096 - |c|..][q] == c[q];
  }

  // One turn of the scan, at position Q: a string starts behind it if it is a NUL and T, the character
  // behind it, is not.
  method ScanTurn(mem: array<int>, esp: int, argc: int, t: int, c: seq<int>, q: int, ghost ps: seq<int>)
    returns (esp1: int, argc1: int)
    requires mem.Length == 4096 && 0 <= q < |c| && PointersAt(mem[..], esp, c, ps) && argc == |ps|
    requires ps == if q + 1 < |c| then StartsAfter(c, q + 1) else []
    requires t == if q + 1 < |c| then c[q + 1] else 0
    requires t != 0 && c[q] == 0 ==> 4 <= esp
    modifies mem
    ensures argc1 == |StartsAfter(c, q)| && esp1 == esp - 4 * (argc1 - argc)
      && PointersAt(mem[..], esp1, c, StartsAfter(c, q))
  {
    esp1, argc1 := esp, argc;
    DataByte(mem[..], esp, c, ps, q);
    if t != 0 && mem[4096 - |c| + q] == 0 {
      argc1 := argc + 1;
      esp1 := PushPointer(mem, esp, BASE + 4096 - |c| + q + 1, c, q + 1, ps);
    }
  }

  // The strings found once I characters have been scanned from the end.
  ghost function Found(c: seq<int>, i: int): (ps: seq<int>)
    requires 0 <= i <= |c|
  {
    if i == 0 then [] else StartsAfter(c, |c| - i)
  }

  lemma FoundRoom(c: seq<int>, i: int)
    requires 0 < |c| && 0 <= i <= |c|
    ensures |Found(c, i)| < Argc(c)
  {
    if i > 0 { FewerStarts(c, |c| - i); }
  }

  method FindTurn(mem: array<int>, ghost esp0: int, esp: int, argc: int, t: int, c: seq<int>, i: int)
    returns (esp1: int, argc1: int, t1: int)
    requires mem.Length == 4096 && 0 <= i < |c| && 4 * Argc(c) <= esp0
    requires argc == |Found(c, i)| && esp == esp0 - 4 * argc && PointersAt(mem[..], esp, c, Found(c, i))
    requires t == if i > 0 then c[|c| - i] else 0
    modifies mem
    ensures argc1 == |Found(c, i + 1)| && esp1 == esp0 - 4 * argc1 && PointersAt(mem[..], esp1, c, Found(c, i + 1))
    ensures t1 == c[|c| - 1 - i]
  {
    FoundRoom(c, i);
    esp1, argc1 := ScanTurn(mem, esp, argc, t, c, |c| - 1 - i, Found(c, i));
    DataByte(mem[..], esp1, c, Found(c, i + 1), |c| - 1 - i);
    t1 := mem[4095 - i];
  }

  // The scan from the last character down: a pointer for each string, the first one last.
  method PushPointers(mem: array<int>, esp0: int, c: seq<int>) returns (esp: int, argc: int)
    requires mem.Length == 4096 && 0 < |c| && 4 * Argc(c) <= esp0 && PointersAt(mem[..], esp0, c, [])
    modifies mem
    ensures argc == Argc(c) && esp == esp0 - 4 * argc && PointersAt(mem[..], esp, c, Starts(c))
  {
    var t, i := 0, 0;
    esp, argc := esp0, 0;
    while i < |c|
      invariant 0 <= i <= |c| && argc == |Found(c, i)| && esp == esp0 - 4 * argc
      invariant PointersAt(mem[..], esp, c, Found(c, i)) && t == if i > 0 then c[|c| - i] else 0
    {
      esp, argc, t := FindTurn(mem, esp0, esp, argc, t, c, i);
      i := i + 1;
    }
    // The code makes this push in the last turn.
    FoundRoom(c, |c|);
    argc := argc + 1;
    esp := PushPointer(mem, esp, BASE + 4096 - |c|, c, 0, Found(c, |c|));
  }

  lemma DataKept(m: seq<int>, m1: seq<int>, at: int, c: seq<int>)
    requires |m1| == |m| == 4096 && 0 <= at <= 4096 - |c| && m1[at..] == m[at..] && m[4096 - |c|..] == c
    ensures m1[4096 - |c|..] == c
  {
    forall k | 0 <= k < |c| ensures m1[4096 - |c| + k] == c[k] {
      assert m1[at..][4096 - |c| + k - at] == m[at..][4096 - |c| + k - at];
      assert m[4096 - |c|..][k] == c[k];
    }
  }

  // setup_stack for a layout that fits in the page.
  method SetupStack(mem: array<int>, c: seq<int>) returns (esp: int)
    requires mem.Length == 4096 && 0 < |c| && Room(c) <= 4096
    modifies mem
    ensures esp == 4096 - Room(c) && Laid(mem[..], esp, c)
  {
    esp := PushData(mem, c);
    ghost var m := mem[..];
    ghost var at := esp;
    esp := PushWord(mem, esp, 0, []);
    DataKept(m, mem[..], at, c);
    assert Addresses(|c|, []) + [0] == [0] + [];
    var argc;
    esp, argc := PushPointers(mem, esp, c);
    esp := PushFrame(mem, esp, argc, c);
  }

  // The address of argv[0], argc and a return address of 0.
  method PushFrame(mem: array<int>, esp0: int, argc: int, ghost c: seq<int>) returns (esp: int)
    requires mem.Length == 4096 && 0 < |c| && 12 <= esp0 && PointersAt(mem[..], esp0, c, Starts(c))
    requires 0 <= argc == Argc(c) < 0x1_0000_0000
    modifies mem
    ensures esp == esp0 - 12 && Laid(mem[..], esp, c)
  {
    ghost var m, ws := mem[..], Addresses(|c|, Starts(c)) + [0];
    esp := PushWord(mem, esp0, BASE + esp0, ws);
    DataKept(m, mem[..], esp0, c);
    m := mem[..];
    esp := PushWord(mem, esp, argc, [BASE + esp0] + ws);
    DataKept(m, mem[..], esp0 - 4, c);
    m := mem[..];
    esp := PushWord(mem, esp, 0, [argc] + ([BASE + esp0] + ws));
    DataKept(m, mem[..], esp0 - 8, c);
    assert [0] + ([argc] + ([BASE + esp0] + ws)) == [0, argc, BASE + esp0] + Addresses(|c|, Starts(c)) + [0];
  }

  // ---------- what the new process reads ----------

  lemma {:induction false} StringMoved(m: seq<int>, c: seq<int>, p: int)
    requires |c| <= |m| && m[|m| - |c|..] == c && 0 <= p <= |c|
    ensures StringAt(m, |m| - |c| + p) == StringAt(c, p)
    decreases |c| - p
  {
    if p < |c| {
      assert m[|m| - |c|..][p] == c[p];
      StringMoved(m, c, p + 1);
    }
  }

  lemma PointerRead(m: seq<int>, esp: int, c: seq<int>, k: int)
    requires 0 < |c| && Laid(m, esp, c) && 0 <= k < Argc(c)
    ensures 0 <= esp && esp + 16 + 4 * k <= 4096 && ReadWord(m, esp + 12 + 4 * k) == BASE + 4096 - |c| + Starts(c)[k]
  {
    var ws := [0, Argc(c), BASE + esp + 12] + Addresses(|c|, Starts(c)) + [0];
    assert ws[k + 3] == Addresses(|c|, Starts(c))[k];
    assert ReadWord(m, esp + 4 * (k + 3)) == ws[k + 3];
  }

  lemma FrameRead(m: seq<int>, esp: int, c: seq<int>)
    requires 0 < |c| && Laid(m, esp, c)
    ensures 0 <= esp && esp + 16 + 4 * Argc(c) <= 4096
    ensures ReadWord(m, esp) == 0 && ReadWord(m, esp + 4) == Argc(c) && ReadWord(m, esp + 8) == BASE + esp + 12
    ensures ReadWord(m, esp + 12 + 4 * Argc(c)) == 0
  {
    var ws := [0, Argc(c), BASE + esp + 12] + Addresses(|c|, Starts(c)) + [0];
    assert ReadWord(m, esp + 4 * 0) == ws[0] && ReadWord(m, esp + 4 * 1) == ws[1] && ReadWord(m, esp + 4 * 2) == ws[2];
    assert ReadWord(m, esp + 4 * (Argc(c) + 3)) == ws[Argc(c) + 3];
  }

  // For a command line that does not start with a space, argv holds its words in order and a null pointer.
  lemma ArgvIsWords(s: seq<int>, m: seq<int>, esp: int)
    requires s != [] && s[0] != BLANK && (forall i | 0 <= i < |s| :: s[i] != 0) && Laid(m, esp, Split(s))
    ensures 0 <= esp && esp + 16 + 4 * |Words(s)| <= 4096
    ensures ReadWord(m, esp + 4) == |Words(s)| && ReadWord(m, esp + 8) == BASE + esp + 12
    ensures ReadWord(m, esp + 12 + 4 * |Words(s)|) == 0
    ensures forall k | 0 <= k < |Words(s)| ::
      BASE <= ReadWord(m, esp + 12 + 4 * k) < BASE + 4096
        && StringAt(m, ReadWord(m, esp + 12 + 4 * k) - BASE) == Words(s)[k]
  {
    var c := Split(s);
    StringsAreWords(s, 0);
    assert s[0..] == s;
    assert StartsFrom(c, 0) == Starts(c);
    FrameRead(m, esp, c);
    forall k | 0 <= k < |Words(s)|
      ensures BASE <= ReadWord(m, esp + 12 + 4 * k) < BASE + 4096
      ensures StringAt(m, ReadWord(m, esp + 12 + 4 * k) - BASE) == Words(s)[k]
    {
      PointerRead(m, esp, c, k);
      assert 0 <= StartsFrom(c, 0)[k] < |c|;
      StringMoved(m, c, Starts(c)[k]);
      assert StringsAt(c, StartsFrom(c, 0))[k] == StringAt(c, Starts(c)[k]);
    }
  }

  // A leading space costs an empty argument: argv[0] is then the empty string.
  lemma LeadingBlank(s: seq<int>)
    requires s != [] && s[0] == BLANK && forall i | 0 <= i < |s| :: s[i] != 0
    ensures StringsAt(Split(s), Starts(Split(s))) == [[]] + Words(s)
  {
    var c := Split(s);
    StringsAreWords(s, 0);
    assert s[0..] == s;
    StringsCons(c, 0, StartsAfter(c, 0));
  }

  lemma OneTooMany(s: seq<int>)
    requires (s == [] || s[0] == BLANK) && forall i | 0 <= i < |s| :: s[i] != 0
    ensures Argc(Split(s)) == |Words(s)| + 1
  {
    if s == [] {
      assert StartsAfter(Split(s), 0) == [];
    } else {
      LeadingBlank(s);
      assert |StringsAt(Split(s), Starts(Split(s)))| == |[[]] + Words(s)|;
    }
  }

  lemma NoLeadingBlank(s: seq<int>)
    requires s != [] && s[0] != BLANK && forall i | 0 <= i < |s| :: s[i] != 0
    ensures StringsAt(Split(s), Starts(Split(s))) == Words(s)
  {
    StringsAreWords(s, 0);
    assert s[0..] == s;
    assert StartsFrom(Split(s), 0) == Starts(Split(s));
  }

  // So argv is exactly the words when the line is not empty and does not start with a space, and only then.
  lemma ArgvExactIff(s: seq<int>)
    requires forall i | 0 <= i < |s| :: s[i] != 0
    ensures StringsAt(Split(s), Starts(Split(s))) == Words(s) <==> s != [] && s[0] != BLANK
  {
    if s != [] && s[0] != BLANK {
      NoLeadingBlank(s);
    } else {
      OneTooMany(s);
    }
  }

  // The padding meant to align the stack does so only for data of even length.
  lemma AlignedIff(c: seq<int>)
    requires |c| > 0
    ensures (4096 - Room(c)) % 4 == 0 <==> |c| % 2 == 0
  {}
}
