// What lib/kernel/list.c's natural merge sort computes, on sequences: runs,
// merging, passes, and why passes end in a stable sort.

module RunMerge {

  // LESS orders the elements of dom up to equivalence.
  ghost predicate WeakOrder<X>(less: (X, X) -> bool, dom: set<X>) {
    && (forall a, b | a in dom && b in dom && less(a, b) :: !less(b, a))
    && (forall a, b, c | a in dom && b in dom && c in dom && less(a, c) :: less(a, b) || less(b, c))
  }

  ghost predicate Within<X>(s: seq<X>, dom: set<X>) {
    forall i | 0 <= i < |s| :: s[i] in dom
  }

  ghost predicate Sorted<X>(less: (X, X) -> bool, s: seq<X>) {
    forall i, j | 0 <= i < j < |s| :: !less(s[j], s[i])
  }

  predicate Equiv<X>(less: (X, X) -> bool, a: X, b: X) {
    !less(a, b) && !less(b, a)
  }

  // The elements equivalent to x, in order.
  function Class<X>(less: (X, X) -> bool, x: X, s: seq<X>): (c: seq<X>) {
    if s == [] then []
    else if Equiv(less, s[0], x) then [s[0]] + Class(less, x, s[1..])
    else Class(less, x, s[1..])
  }

  // t is a permutation of s that keeps equivalent elements in order.
  ghost predicate Stable<X>(less: (X, X) -> bool, dom: set<X>, s: seq<X>, t: seq<X>) {
    multiset(s) == multiset(t) && forall x | x in dom :: Class(less, x, s) == Class(less, x, t)
  }

  // Length of the longest nondecreasing prefix, comparing neighbours.
  function RunLen<X>(less: (X, X) -> bool, s: seq<X>): (n: nat)
    ensures n <= |s| && (s != [] ==> n > 0)
  {
    if |s| <= 1 then |s|
    else if less(s[1], s[0]) then 1
    else 1 + RunLen(less, s[1..])
  }

  // Number of natural runs: one more than the number of descents.
  function Runs<X>(less: (X, X) -> bool, s: seq<X>): (n: nat) {
    if |s| <= 1 then |s| else Runs(less, s[1..]) + (if less(s[1], s[0]) then 1 else 0)
  }

  function Merge<X>(less: (X, X) -> bool, a: seq<X>, b: seq<X>): (m: seq<X>)
    ensures |m| == |a| + |b|
  {
    if a == [] then b
    else if b == [] then a
    else if !less(b[0], a[0]) then [a[0]] + Merge(less, a[1..], b)
    else [b[0]] + Merge(less, a, b[1..])
  }

  // The end of the second run.
  function SecondEnd<X>(less: (X, X) -> bool, s: seq<X>): (e: nat)
    ensures RunLen(less, s) <= e <= |s| && (RunLen(less, s) < |s| ==> RunLen(less, s) < e)
  {
    RunLen(less, s) + RunLen(less, s[RunLen(less, s)..])
  }

  // One pass over the list: merge the runs two by two.
  function Pass<X>(less: (X, X) -> bool, s: seq<X>): (t: seq<X>)
    ensures |t| == |s|
    decreases |s|
  {
    var r, e := RunLen(less, s), SecondEnd(less, s);
    if r == |s| then s else Merge(less, s[..r], s[r..e]) + Pass(less, s[e..])
  }

  // The value output_run_cnt has at the end of a pass.
  function Outputs<X>(less: (X, X) -> bool, s: seq<X>): (n: nat)
    decreases |s|
  {
    if s == [] then 0
    else if RunLen(less, s) == |s| then 1
    else 1 + Outputs(less, s[SecondEnd(less, s)..])
  }

  function Log2Up(k: nat): (n: nat)
    decreases k
  {
    if k <= 1 then 0 else 1 + Log2Up((k + 1) / 2)
  }

  // ---------- runs ----------

  lemma {:induction false} RunSorted<X>(less: (X, X) -> bool, dom: set<X>, s: seq<X>)
    requires WeakOrder(less, dom) && Within(s, dom)
    ensures Sorted(less, s[..RunLen(less, s)])
  {
    if |s| > 1 && !less(s[1], s[0]) {
      var t := s[1..];
      RunSorted(less, dom, t);
      var n := RunLen(less, t);
      assert s[..n + 1] == [s[0]] + t[..n];
      forall j | 1 <= j < n + 1 ensures !less(s[j], s[0]) {
        assert !less(t[..n][j - 1], t[..n][0]) || j == 1;
        assert s[j] in dom && s[1] in dom && s[0] in dom;
      }
    }
  }

  lemma {:induction false} RunsSplit<X>(less: (X, X) -> bool, s: seq<X>)
    requires s != []
    ensures Runs(less, s) == 1 + Runs(less, s[RunLen(less, s)..])
  {
    if |s| > 1 {
      if less(s[1], s[0]) {
        assert s[1..] == s[RunLen(less, s)..];
      } else {
        RunsSplit(less, s[1..]);
        assert s[1..][RunLen(less, s[1..])..] == s[RunLen(less, s)..];
      }
    }
  }

  lemma {:induction false} RunsSorted<X>(less: (X, X) -> bool, s: seq<X>)
    requires Sorted(less, s) && s != []
    ensures Runs(less, s) == 1
  {
    if |s| > 1 {
      RunsSorted(less, s[1..]);
    }
  }

  lemma {:induction false} RunsAppend<X>(less: (X, X) -> bool, a: seq<X>, b: seq<X>)
    ensures Runs(less, a + b) <= Runs(less, a) + Runs(less, b)
  {
    if a == [] {
      assert a + b == b;
    } else if |a| == 1 {
      if b != [] { assert (a + b)[1..] == b; } else { assert a + b == a; }
    } else {
      RunsAppend(less, a[1..], b);
      assert (a + b)[1..] == a[1..] + b;
    }
  }

  lemma {:induction false} OneRunSorted<X>(less: (X, X) -> bool, dom: set<X>, s: seq<X>)
    requires WeakOrder(less, dom) && Within(s, dom) && Runs(less, s) <= 1
    ensures Sorted(less, s)
  {
    if s != [] {
      RunsSplit(less, s);
      RunSorted(less, dom, s);
      var rest := s[RunLen(less, s)..];
      if rest != [] { RunsSplit(less, rest); }
      assert s[..RunLen(less, s)] == s;
    }
  }

  // ---------- merging ----------

  lemma {:induction false} MergePermutes<X>(less: (X, X) -> bool, a: seq<X>, b: seq<X>)
    ensures multiset(Merge(less, a, b)) == multiset(a) + multiset(b)
  {
    if a != [] && b != [] {
      if !less(b[0], a[0]) {
        MergePermutes(less, a[1..], b);
        assert a == [a[0]] + a[1..];
      } else {
        MergePermutes(less, a, b[1..]);
        assert b == [b[0]] + b[1..];
      }
    }
  }

  lemma {:induction false} MergeWithin<X>(less: (X, X) -> bool, dom: set<X>, a: seq<X>, b: seq<X>)
    requires Within(a, dom) && Within(b, dom)
    ensures Within(Merge(less, a, b), dom)
  {
    if a != [] && b != [] {
      if !less(b[0], a[0]) { MergeWithin(less, dom, a[1..], b); } else { MergeWithin(less, dom, a, b[1..]); }
    }
  }

  // An element below everything in a and b is below everything in their merge.
  lemma {:induction false} MergeBelow<X>(less: (X, X) -> bool, x: X, a: seq<X>, b: seq<X>)
    requires forall i | 0 <= i < |a| :: !less(a[i], x)
    requires forall i | 0 <= i < |b| :: !less(b[i], x)
    ensures forall i | 0 <= i < |a| + |b| :: !less(Merge(less, a, b)[i], x)
  {
    if a != [] && b != [] {
      if !less(b[0], a[0]) { MergeBelow(less, x, a[1..], b); } else { MergeBelow(less, x, a, b[1..]); }
    }
  }

  lemma {:induction false} MergeSorted<X>(less: (X, X) -> bool, dom: set<X>, a: seq<X>, b: seq<X>)
    requires WeakOrder(less, dom) && Within(a, dom) && Within(b, dom)
    requires Sorted(less, a) && Sorted(less, b)
    ensures Sorted(less, Merge(less, a, b))
  {
    if a != [] && b != [] {
      if !less(b[0], a[0]) {
        MergeSorted(less, dom, a[1..], b);
        forall i | 0 <= i < |b| ensures !less(b[i], a[0]) { Above(less, dom, a[0], b, i); }
        MergeBelow(less, a[0], a[1..], b);
      } else {
        MergeSorted(less, dom, a, b[1..]);
        forall i | 0 <= i < |a| ensures !less(a[i], b[0]) { Above(less, dom, b[0], a, i); }
        MergeBelow(less, b[0], a, b[1..]);
      }
    }
  }

  lemma Above<X>(less: (X, X) -> bool, dom: set<X>, x: X, s: seq<X>, i: nat)
    requires WeakOrder(less, dom) && Within(s, dom) && x in dom && Sorted(less, s) && i < |s|
    requires !less(s[0], x)
    ensures !less(s[i], x)
  {
    assert s[0] in dom && s[i] in dom;
    assert i > 0 ==> !less(s[i], s[0]);
  }

  lemma {:induction false} ClassAppend<X>(less: (X, X) -> bool, x: X, a: seq<X>, b: seq<X>)
    ensures Class(less, x, a + b) == Class(less, x, a) + Class(less, x, b)
  {
    if a == [] {
      assert a + b == b;
    } else {
      ClassAppend(less, x, a[1..], b);
      assert a + b == [a[0]] + (a[1..] + b);
      ClassCons(less, x, a[0], a[1..] + b);
    }
  }

  lemma ClassCons<X>(less: (X, X) -> bool, x: X, y: X, s: seq<X>)
    ensures Class(less, x, [y] + s)
            == if Equiv(less, y, x) then [y] + Class(less, x, s) else Class(less, x, s)
  {
    assert ([y] + s)[1..] == s;
  }

  lemma {:induction false} ClassNone<X>(less: (X, X) -> bool, x: X, s: seq<X>)
    requires forall i | 0 <= i < |s| :: !Equiv(less, s[i], x)
    ensures Class(less, x, s) == []
  {
    if s != [] { ClassNone(less, x, s[1..]); }
  }

  lemma {:induction false} MergeClass<X>(less: (X, X) -> bool, dom: set<X>, x: X, a: seq<X>, b: seq<X>)
    requires WeakOrder(less, dom) && Within(a, dom) && Within(b, dom) && x in dom && Sorted(less, a)
    ensures Class(less, x, Merge(less, a, b)) == Class(less, x, a) + Class(less, x, b)
  {
    if a != [] && b != [] {
      if !less(b[0], a[0]) {
        MergeClass(less, dom, x, a[1..], b);
        ClassCons(less, x, a[0], Merge(less, a[1..], b));
      } else {
        MergeClass(less, dom, x, a, b[1..]);
        ClassCons(less, x, b[0], Merge(less, a, b[1..]));
        if Equiv(less, b[0], x) { ClassOvertaken(less, dom, x, a, b[0]); }
      }
    }
  }

  // An element that belongs strictly before a overtakes none of its own class.
  lemma ClassOvertaken<X>(less: (X, X) -> bool, dom: set<X>, x: X, a: seq<X>, y: X)
    requires WeakOrder(less, dom) && Within(a, dom) && x in dom && y in dom && Sorted(less, a)
    requires a != [] && less(y, a[0]) && Equiv(less, y, x)
    ensures Class(less, x, a) == []
  {
    forall i | 0 <= i < |a| ensures !Equiv(less, a[i], x) {
      assert a[0] in dom && a[i] in dom;
      assert i > 0 ==> !less(a[i], a[0]);
      assert less(y, a[i]);
    }
    ClassNone(less, x, a);
  }

  // ---------- passes ----------

  lemma {:induction false} PassWithin<X>(less: (X, X) -> bool, dom: set<X>, s: seq<X>)
    requires Within(s, dom)
    ensures Within(Pass(less, s), dom)
    decreases |s|
  {
    var r := RunLen(less, s);
    if r < |s| {
      var e := SecondEnd(less, s);
      MergeWithin(less, dom, s[..r], s[r..e]);
      PassWithin(less, dom, s[e..]);
    }
  }

  lemma MergeClasses<X>(less: (X, X) -> bool, dom: set<X>, x: X, a: seq<X>, b: seq<X>, c: seq<X>, d: seq<X>)
    requires WeakOrder(less, dom) && Within(a, dom) && Within(b, dom) && Sorted(less, a) && x in dom
    requires Class(less, x, c) == Class(less, x, d)
    ensures Class(less, x, a + b + c) == Class(less, x, Merge(less, a, b) + d)
  {
    MergeClass(less, dom, x, a, b);
    ClassAppend(less, x, a, b);
    ClassAppend(less, x, a + b, c);
    ClassAppend(less, x, Merge(less, a, b), d);
  }

  lemma PassUnfold<X>(less: (X, X) -> bool, s: seq<X>, r: nat, e: nat, a: seq<X>, b: seq<X>, c: seq<X>, d: seq<X>)
    requires r == RunLen(less, s) < |s| && d == s[r..] && r < e == r + RunLen(less, d) <= |s|
    requires a == s[..r] && b == s[r..e] && c == s[e..]
    ensures Pass(less, s) == Merge(less, a, b) + Pass(less, c)
    ensures Outputs(less, s) == 1 + Outputs(less, c)
  {
    assert SecondEnd(less, s) == e;
  }

  lemma MultisetAppend<X>(a: seq<X>, b: seq<X>)
    ensures multiset(a + b) == multiset(a) + multiset(b)
  {
  }

  // The two runs that the first step of a pass merges, and the rest.
  lemma Cut<X>(less: (X, X) -> bool, s: seq<X>) returns (a: seq<X>, b: seq<X>, c: seq<X>)
    requires RunLen(less, s) < |s|
    ensures s == a + b + c && |a| > 0 && |b| > 0 && a == s[..RunLen(less, s)]
    ensures Pass(less, s) == Merge(less, a, b) + Pass(less, c)
  {
    var r, e := RunLen(less, s), SecondEnd(less, s);
    a, b, c := s[..r], s[r..e], s[e..];
    ThreeParts(s, r, e);
    PassUnfold(less, s, r, e, a, b, c, s[r..]);
  }

  lemma ThreeParts<X>(s: seq<X>, r: nat, e: nat)
    requires r <= e <= |s|
    ensures s == s[..r] + s[r..e] + s[e..]
  {
  }

  lemma {:induction false} PassPermutes<X>(less: (X, X) -> bool, s: seq<X>)
    ensures multiset(Pass(less, s)) == multiset(s)
    decreases |s|
  {
    if RunLen(less, s) < |s| {
      var a, b, c := Cut(less, s);
      PassPermutes(less, c);
      MergePermutes(less, a, b);
      MultisetAppend(Merge(less, a, b), Pass(less, c));
      MultisetAppend(a, b);
      MultisetAppend(a + b, c);
    }
  }

  lemma {:induction false} PassClass<X>(less: (X, X) -> bool, dom: set<X>, x: X, s: seq<X>)
    requires WeakOrder(less, dom) && Within(s, dom) && x in dom
    ensures Class(less, x, s) == Class(less, x, Pass(less, s))
    decreases |s|
  {
    if RunLen(less, s) < |s| {
      RunSorted(less, dom, s);
      var a, b, c := Cut(less, s);
      WithinParts(dom, a, b, c);
      PassClass(less, dom, x, c);
      MergeClasses(less, dom, x, a, b, c, Pass(less, c));
    }
  }

  lemma WithinParts<X>(dom: set<X>, a: seq<X>, b: seq<X>, c: seq<X>)
    requires Within(a + b + c, dom)
    ensures Within(a, dom) && Within(b, dom) && Within(c, dom)
  {
    var s := a + b + c;
    assert forall i | 0 <= i < |a| :: a[i] == s[i];
    assert forall i | 0 <= i < |b| :: b[i] == s[|a| + i];
    assert forall i | 0 <= i < |c| :: c[i] == s[|a| + |b| + i];
  }

  lemma PassStable<X>(less: (X, X) -> bool, dom: set<X>, s: seq<X>)
    requires WeakOrder(less, dom) && Within(s, dom)
    ensures Stable(less, dom, s, Pass(less, s))
  {
    PassPermutes(less, s);
    forall x | x in dom ensures Class(less, x, s) == Class(less, x, Pass(less, s)) {
      PassClass(less, dom, x, s);
    }
  }

  lemma {:induction false} OutputsHalve<X>(less: (X, X) -> bool, s: seq<X>)
    ensures Outputs(less, s) == (Runs(less, s) + 1) / 2
    decreases |s|
  {
    if s != [] {
      var r := RunLen(less, s);
      RunsSplit(less, s);
      if r < |s| {
        RunsSplit(less, s[r..]);
        var e := SecondEnd(less, s);
        assert s[r..][e - r..] == s[e..];
        OutputsHalve(less, s[e..]);
      }
    }
  }

  // Each output of a pass is one run, and neighbouring outputs can only join.
  lemma {:induction false} PassRuns<X>(less: (X, X) -> bool, dom: set<X>, s: seq<X>)
    requires WeakOrder(less, dom) && Within(s, dom)
    ensures Runs(less, Pass(less, s)) <= Outputs(less, s)
    decreases |s|
  {
    if s != [] {
      var r := RunLen(less, s);
      RunSorted(less, dom, s);
      if r == |s| {
        assert s[..r] == s;
        RunsSorted(less, s);
      } else {
        var e := SecondEnd(less, s);
        var a, b, rest := s[..r], s[r..e], s[e..];
        RunSorted(less, dom, s[r..]);
        assert b == s[r..][..e - r];
        MergeSorted(less, dom, a, b);
        RunsSorted(less, Merge(less, a, b));
        PassRuns(less, dom, rest);
        RunsAppend(less, Merge(less, a, b), Pass(less, rest));
      }
    }
  }

  lemma StableTrans<X>(less: (X, X) -> bool, dom: set<X>, s: seq<X>, t: seq<X>, u: seq<X>)
    requires Stable(less, dom, s, t) && Stable(less, dom, t, u)
    ensures Stable(less, dom, s, u)
  {
  }

  // A stable sort is unique: two sorted sequences with the same classes are equal.
  lemma {:induction false} StableUnique<X>(less: (X, X) -> bool, dom: set<X>, s: seq<X>, t: seq<X>)
    requires WeakOrder(less, dom) && Within(s, dom) && Within(t, dom)
    requires Sorted(less, s) && Sorted(less, t) && |s| == |t|
    requires forall x | x in dom :: Class(less, x, s) == Class(less, x, t)
    ensures s == t
  {
    if s != [] {
      var a, b := s[0], t[0];
      assert a in dom && b in dom;
      FirstOfClass(less, dom, a, t);
      FirstOfClass(less, dom, b, s);
      assert Class(less, a, s)[0] == a && Class(less, b, t)[0] == b;
      assert Equiv(less, a, b);
      assert a == b;
      forall x | x in dom ensures Class(less, x, s[1..]) == Class(less, x, t[1..]) {
        assert Class(less, x, s) == Class(less, x, t);
        ClassTail(less, x, s);
        ClassTail(less, x, t);
      }
      StableUnique(less, dom, s[1..], t[1..]);
      assert s == [a] + s[1..] && t == [b] + t[1..];
    }
  }

  lemma ClassTail<X>(less: (X, X) -> bool, x: X, s: seq<X>)
    requires s != []
    ensures Equiv(less, s[0], x) ==>
              Class(less, x, s) == [s[0]] + Class(less, x, s[1..])
              && Class(less, x, s)[1..] == Class(less, x, s[1..])
    ensures !Equiv(less, s[0], x) ==> Class(less, x, s) == Class(less, x, s[1..])
  {
  }

  lemma {:induction false} FirstOfClass<X>(less: (X, X) -> bool, dom: set<X>, x: X, s: seq<X>)
    requires WeakOrder(less, dom) && Within(s, dom) && x in dom && Sorted(less, s)
    requires Class(less, x, s) != []
    ensures !less(x, s[0])
    ensures Equiv(less, x, s[0]) ==> Class(less, x, s)[0] == s[0]
  {
    if !Equiv(less, s[0], x) {
      FirstOfClass(less, dom, x, s[1..]);
      assert s[0] in dom && s[1] in dom;
      assert !less(s[1], s[0]);
    }
  }

  lemma {:induction false} Log2UpMono(j: nat, k: nat)
    requires j <= k
    ensures Log2Up(j) <= Log2Up(k)
    decreases k
  {
    if j > 1 { Log2UpMono((j + 1) / 2, (k + 1) / 2); }
  }

  // The last pass leaves one run, and every other pass at most half as many,
  // rounded up, as it found.
  lemma PassDone<X>(less: (X, X) -> bool, dom: set<X>, s: seq<X>)
    requires WeakOrder(less, dom) && Within(s, dom)
    ensures Outputs(less, s) <= 1 ==> Sorted(less, Pass(less, s))
    ensures Outputs(less, s) > 1 ==> Log2Up(Runs(less, Pass(less, s))) < Log2Up(Runs(less, s))
  {
    PassRuns(less, dom, s);
    PassWithin(less, dom, s);
    OutputsHalve(less, s);
    if Outputs(less, s) <= 1 {
      OneRunSorted(less, dom, Pass(less, s));
    } else {
      Log2UpMono(Runs(less, Pass(less, s)), (Runs(less, s) + 1) / 2);
    }
  }

  // ---------- list_unique ----------

  // What list_unique leaves: each element is compared with the last one kept.
  function Uniq<X>(less: (X, X) -> bool, s: seq<X>): (u: seq<X>)
    decreases |s|
  {
    if |s| <= 1 then s
    else if Equiv(less, s[0], s[1]) then Uniq(less, [s[0]] + s[2..])
    else [s[0]] + Uniq(less, s[1..])
  }

  // What it moves away.
  function Dups<X>(less: (X, X) -> bool, s: seq<X>): (d: seq<X>)
    decreases |s|
  {
    if |s| <= 1 then []
    else if Equiv(less, s[0], s[1]) then [s[1]] + Dups(less, [s[0]] + s[2..])
    else Dups(less, s[1..])
  }

  lemma MultisetCons<X>(x: X, s: seq<X>)
    ensures multiset([x] + s) == multiset{x} + multiset(s)
  {
  }

  lemma {:induction false} UniqPartitions<X>(less: (X, X) -> bool, s: seq<X>)
    ensures multiset(Uniq(less, s)) + multiset(Dups(less, s)) == multiset(s)
    decreases |s|
  {
    if |s| > 1 {
      assert s == [s[0]] + s[1..] && s[1..] == [s[1]] + s[2..];
      MultisetCons(s[0], s[1..]);
      MultisetCons(s[1], s[2..]);
      if Equiv(less, s[0], s[1]) {
        var t := [s[0]] + s[2..];
        UniqPartitions(less, t);
        MultisetCons(s[0], s[2..]);
        MultisetCons(s[1], Dups(less, t));
        Regroup(multiset(Uniq(less, t)), multiset(Dups(less, t)), multiset{s[1]}, multiset{s[0]}, multiset(s[2..]));
      } else {
        UniqPartitions(less, s[1..]);
        MultisetCons(s[0], Uniq(less, s[1..]));
      }
    }
  }

  // With what was on the duplicates list before, all elements are still there.
  lemma UniqConserves<X>(less: (X, X) -> bool, s: seq<X>, d: seq<X>)
    ensures multiset(Uniq(less, s) + (d + Dups(less, s))) == multiset(s + d)
  {
    UniqPartitions(less, s);
    assert multiset(Uniq(less, s) + (d + Dups(less, s)))
      == multiset(Uniq(less, s)) + multiset(Dups(less, s)) + multiset(d);
  }

  lemma Regroup<X>(u: multiset<X>, d: multiset<X>, b: multiset<X>, a: multiset<X>, r: multiset<X>)
    requires u + d == a + r
    ensures u + (b + d) == a + (b + r)
  {
    assert u + (b + d) == (u + d) + b;
  }

  // At most the first element.
  function Front<X>(s: seq<X>): (f: seq<X>) {
    if s == [] then [] else [s[0]]
  }

  // On a sorted list exactly the first element of every class is kept.
  lemma {:induction false} UniqFirsts<X>(less: (X, X) -> bool, dom: set<X>, x: X, s: seq<X>)
    requires WeakOrder(less, dom) && Within(s, dom) && Sorted(less, s) && x in dom
    ensures Class(less, x, Uniq(less, s)) == Front(Class(less, x, s))
    decreases |s|
  {
    if |s| == 1 {
      ClassTail(less, x, s);
    } else if |s| > 1 {
      if Equiv(less, s[0], s[1]) {
        UniqFirsts(less, dom, x, [s[0]] + s[2..]);
        FrontSkips(less, dom, x, s, [s[0]] + s[2..]);
      } else {
        UniqFirsts(less, dom, x, s[1..]);
        FrontKeeps(less, dom, x, s, Uniq(less, s[1..]));
      }
    }
  }

  lemma FrontSkips<X>(less: (X, X) -> bool, dom: set<X>, x: X, s: seq<X>, t: seq<X>)
    requires WeakOrder(less, dom) && Within(s, dom) && x in dom && |s| > 1
    requires Equiv(less, s[0], s[1]) && t == [s[0]] + s[2..]
    ensures Front(Class(less, x, t)) == Front(Class(less, x, s))
  {
    assert s[0] in dom && s[1] in dom && t[1..] == s[1..][1..];
    ClassTail(less, x, s);
    ClassTail(less, x, s[1..]);
    ClassTail(less, x, t);
  }

  lemma FrontKeeps<X>(less: (X, X) -> bool, dom: set<X>, x: X, s: seq<X>, u: seq<X>)
    requires WeakOrder(less, dom) && Within(s, dom) && Sorted(less, s) && x in dom && |s| > 1
    requires !Equiv(less, s[0], s[1]) && Class(less, x, u) == Front(Class(less, x, s[1..]))
    ensures Class(less, x, [s[0]] + u) == Front(Class(less, x, s))
  {
    assert ([s[0]] + u)[1..] == u;
    ClassTail(less, x, s);
    ClassTail(less, x, [s[0]] + u);
    if Equiv(less, s[0], x) { ClassPassed(less, dom, x, s); }
  }

  // After the last element of a class in a sorted list come no more of it.
  lemma ClassPassed<X>(less: (X, X) -> bool, dom: set<X>, x: X, s: seq<X>)
    requires WeakOrder(less, dom) && Within(s, dom) && Sorted(less, s) && x in dom && |s| > 1
    requires Equiv(less, s[0], x) && !Equiv(less, s[0], s[1])
    ensures Class(less, x, s[1..]) == []
  {
    forall i | 0 <= i < |s[1..]| ensures !Equiv(less, s[1..][i], x) {
      assert s[0] in dom && s[1] in dom && s[i + 1] in dom;
      assert less(s[0], s[1]);
      assert i > 0 ==> !less(s[i + 1], s[1]);
      assert less(s[0], s[i + 1]);
    }
    ClassNone(less, x, s[1..]);
  }
}
