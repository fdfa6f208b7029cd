// userprog/process.c: the words of a command line, and the line split in place.

module CommandLine {

  const BLANK := 32

  // The part of S before its first space.
  function Run(s: seq<int>): (r: seq<int>)
    ensures |r| <= |s| && r == s[..|r|]
    ensures forall i | 0 <= i < |r| :: r[i] != BLANK
    ensures |r| < |s| ==> s[|r|] == BLANK
  {
    if s == [] || s[0] == BLANK then [] else [s[0]] + Run(s[1..])
  }

  // The maximal stretches without spaces, in order.
  function Words(s: seq<int>): (w: seq<seq<int>>)
    decreases |s|
  {
    if s == [] then []
    else if s[0] == BLANK then Words(s[1..])
    else [Run(s)] + Words(s[|Run(s)|..])
  }

  // A word starts at position P.
  predicate StartsWord(s: seq<int>, p: int) { 0 <= p < |s| && s[p] != BLANK && (p == 0 || s[p - 1] == BLANK) }

  // W stands at Q, which is at or after P, up to a space or the end.
  predicate WordAt(s: seq<int>, p: int, q: int, w: seq<int>) {
    p <= q && StartsWord(s, q) && Stretches(s, q, |w|) && w == s[q..q + |w|]
  }

  predicate Stretches(s: seq<int>, q: int, n: int) {
    && 0 <= q && 0 <= n && q + n <= |s| && (forall i | q <= i < q + n :: s[i] != BLANK)
    && (q + n < |s| ==> s[q + n] == BLANK)
  }

  predicate InOrder(ps: seq<int>) { forall j, k | 0 <= j < k < |ps| :: ps[j] < ps[k] }

  predicate AllFound(s: seq<int>, p: int, ps: seq<int>) { forall q | p <= q < |s| && StartsWord(s, q) :: q in ps }

  // PS are the starts of words at or after P, in order, and W what stands there.
  predicate WordsAt(s: seq<int>, p: int, ps: seq<int>, w: seq<seq<int>>) {
    && |w| == |ps| && (forall k | 0 <= k < |ps| :: WordAt(s, p, ps[k], w[k]))
    && InOrder(ps) && AllFound(s, p, ps)
  }

  lemma {:induction false} WordsFrom(s: seq<int>, p: int) returns (ps: seq<int>)
    requires 0 <= p <= |s| && (p == 0 || p == |s| || s[p - 1] == BLANK || s[p] == BLANK)
    ensures WordsAt(s, p, ps, Words(s[p..]))
    decreases |s| - p
  {
    if p == |s| {
      ps := [];
    } else if s[p] == BLANK {
      ps := WordsFrom(s, p + 1);
      BlankFirst(s, p, ps, Words(s[p + 1..]));
      assert s[p..][1..] == s[p + 1..];
    } else {
      var m := RunInside(s, p);
      var rest := WordsFrom(s, p + m);
      ps := [p] + rest;
      assert Run(s[p..]) == s[p..][..m] == s[p..p + m];
      WordFirst(s, p, m, rest, Words(s[p + m..]));
      assert Words(s[p..]) == [Run(s[p..])] + Words(s[p + m..]);
    }
  }

  lemma BlankFirst(s: seq<int>, p: int, ps: seq<int>, w: seq<seq<int>>)
    requires 0 <= p < |s| && s[p] == BLANK && WordsAt(s, p + 1, ps, w)
    ensures WordsAt(s, p, ps, w)
  {
    forall q | p <= q < |s| && StartsWord(s, q) ensures q in ps { assert p + 1 <= q; }
    forall k | 0 <= k < |ps| ensures WordAt(s, p, ps[k], w[k]) { assert WordAt(s, p + 1, ps[k], w[k]); }
  }

  lemma WordFirst(s: seq<int>, p: int, m: int, rest: seq<int>, w: seq<seq<int>>)
    requires StartsWord(s, p) && 0 < m && Stretches(s, p, m) && WordsAt(s, p + m, rest, w)
    ensures WordsAt(s, p, [p] + rest, [s[p..p + m]] + w)
  {
    var ps, w1 := [p] + rest, [s[p..p + m]] + w;
    forall k | 0 <= k < |rest| ensures WordAt(s, p, rest[k], w[k]) && p < rest[k] {
      assert WordAt(s, p + m, rest[k], w[k]);
    }
    forall k | 0 <= k < |ps| ensures WordAt(s, p, ps[k], w1[k]) {
      if k > 0 { assert ps[k] == rest[k - 1] && w1[k] == w[k - 1]; }
    }
    FoundFirst(s, p, m, rest);
  }

  lemma FoundFirst(s: seq<int>, p: int, m: int, rest: seq<int>)
    requires 0 <= p && 0 < m <= |s| - p && (forall i | p <= i < p + m :: s[i] != BLANK) && AllFound(s, p + m, rest)
    ensures AllFound(s, p, [p] + rest)
  {
    forall q | p <= q < |s| && StartsWord(s, q) ensures q in [p] + rest {
      assert !(p < q < p + m);
    }
  }

  // The words are what stands, at each place where a word starts, up to the next space, in order, and no others.
  lemma WordsExact(s: seq<int>) returns (ps: seq<int>)
    ensures WordsAt(s, 0, ps, Words(s))
  {
    ps := WordsFrom(s, 0);
    assert s[0..] == s;
  }

  // The command line as process_execute leaves it: spaces become NULs, and a NUL closes it.
  function Split(s: seq<int>): (c: seq<int>)
    ensures |c| == |s| + 1 && c[|s|] == 0
    ensures forall i | 0 <= i < |s| :: c[i] == if s[i] == BLANK then 0 else s[i]
  {
    seq(|s|, i requires 0 <= i < |s| => if s[i] == BLANK then 0 else s[i]) + [0]
  }

  // The loop that does it, on the buffer in place.
  method SplitInPlace(buf: array<int>, ghost s: seq<int>)
    requires |s| < buf.Length && buf[..|s|] == s && buf[|s|] == 0 && forall i | 0 <= i < |s| :: s[i] != 0
    modifies buf
    ensures buf[..|s| + 1] == Split(s) && buf[|s| + 1..] == old(buf[|s| + 1..])
  {
    var c := 0;
    while buf[c] != 0
      invariant 0 <= c <= |s|
      invariant forall i | 0 <= i < c :: buf[i] == Split(s)[i]
      invariant forall i | c <= i < buf.Length :: buf[i] == old(buf[i])
      invariant forall i | c <= i < |s| :: buf[i] == s[i]
      decreases |s| - c
    {
      if buf[c] == BLANK { buf[c] := 0; }
      c := c + 1;
    }
  }

  // Characters of the C string at position P.
  function StringAt(c: seq<int>, p: int): (r: seq<int>)
    requires 0 <= p <= |c|
    decreases |c| - p
  {
    if p == |c| || c[p] == 0 then [] else [c[p]] + StringAt(c, p + 1)
  }

  function StringsAt(c: seq<int>, ps: seq<int>): (r: seq<seq<int>>)
    requires forall k | 0 <= k < |ps| :: 0 <= ps[k] <= |c|
    ensures |r| == |ps| && forall k | 0 <= k < |ps| :: r[k] == StringAt(c, ps[k])
  {
    seq(|ps|, k requires 0 <= k < |ps| => StringAt(c, ps[k]))
  }

  // Positions after Q, in order, where a string starts behind a NUL.
  function StartsAfter(c: seq<int>, q: int): (ps: seq<int>)
    requires 0 <= q < |c|
    ensures forall k | 0 <= k < |ps| :: q < ps[k] < |c|
    decreases |c| - q
  {
    if q + 1 == |c| then []
    else if c[q + 1] != 0 && c[q] == 0 then [q + 1] + StartsAfter(c, q + 1)
    else StartsAfter(c, q + 1)
  }

  // The same, with Q itself counted if a string starts there.
  function StartsFrom(c: seq<int>, q: int): (ps: seq<int>)
    requires 0 <= q < |c|
    ensures forall k | 0 <= k < |ps| :: q <= ps[k] < |c|
  {
    if c[q] != 0 then [q] + StartsAfter(c, q) else StartsAfter(c, q)
  }

  lemma {:induction false} RunRead(s: seq<int>, p: int)
    requires 0 <= p <= |s| && forall i | 0 <= i < |s| :: s[i] != 0
    ensures StringAt(Split(s), p) == Run(s[p..])
    decreases |s| - p
  {
    if p < |s| && s[p] != BLANK {
      RunRead(s, p + 1);
      assert s[p..][1..] == s[p + 1..];
    }
  }

  lemma {:induction false} NoStartInRun(c: seq<int>, q: int, e: int)
    requires 0 <= q <= e < |c| && forall i | q <= i < e :: c[i] != 0
    ensures StartsAfter(c, q) == StartsAfter(c, e)
    decreases e - q
  {
    if q < e { NoStartInRun(c, q + 1, e); }
  }

  lemma StringsCons(c: seq<int>, p: int, ps: seq<int>)
    requires 0 <= p <= |c| && forall k | 0 <= k < |ps| :: 0 <= ps[k] <= |c|
    ensures StringsAt(c, [p] + ps) == [StringAt(c, p)] + StringsAt(c, ps)
  {}

  lemma RunInside(s: seq<int>, p: int) returns (m: int)
    requires 0 <= p < |s| && s[p] != BLANK
    ensures 0 < m <= |s| - p && m == |Run(s[p..])| && s[p..][m..] == s[p + m..]
    ensures p + m < |s| ==> s[p + m] == BLANK
    ensures forall i | p <= i < p + m :: s[i] != BLANK
  {
    var t := s[p..];
    assert t[0] == s[p];
    m := |Run(t)|;
    assert p + m < |s| ==> t[m] == s[p + m];
    forall i | p <= i < p + m ensures s[i] != BLANK { assert s[i] == t[i - p] == Run(t)[i - p]; }
  }

  lemma WordStarts(s: seq<int>, p: int, m: int)
    requires 0 <= p && 0 <= m && p + m <= |s| && forall i | p <= i < p + m :: s[i] != BLANK && s[i] != 0
    ensures StartsAfter(Split(s), p) == StartsAfter(Split(s), p + m)
  {
    var c := Split(s);
    forall i | p <= i < p + m ensures c[i] != 0 { assert c[i] == s[i]; }
    NoStartInRun(c, p, p + m);
  }

  // The strings found in the split line are the words of the line.
  lemma {:induction false} StringsAreWords(s: seq<int>, p: int)
    requires 0 <= p <= |s| && forall i | 0 <= i < |s| :: s[i] != 0
    ensures StringsAt(Split(s), StartsFrom(Split(s), p)) == Words(s[p..])
    decreases |s| - p
  {
    if p < |s| {
      if s[p] == BLANK {
        StringsAreWords(s, p + 1);
        assert s[p..][1..] == s[p + 1..];
      } else {
        WordThenRest(s, p);
      }
    }
  }

  lemma {:induction false} WordThenRest(s: seq<int>, p: int)
    requires 0 <= p < |s| && s[p] != BLANK && forall i | 0 <= i < |s| :: s[i] != 0
    ensures StringsAt(Split(s), StartsFrom(Split(s), p)) == Words(s[p..])
    decreases |s| - p, 0
  {
    var m := RunInside(s, p);
    WordStarts(s, p, m);
    RunRead(s, p);
    var c := Split(s);
    StringsCons(c, p, StartsAfter(c, p));
    assert Words(s[p..]) == [Run(s[p..])] + Words(s[p + m..]);
    StringsAreWords(s, p + m);
    assert c[p + m] == 0;
  }
}
