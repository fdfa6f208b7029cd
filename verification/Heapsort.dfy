// lib/stdlib.c: heap sort on a 1-based heap, and binary search.

module Heapsort {
  import opened Options

  // A strcmp()-like comparison: Le is a total preorder.
  predicate Le<E>(cmp: (E, E) -> int, x: E, y: E) { cmp(x, y) <= 0 }

  ghost predicate Consistent<E(!new)>(cmp: (E, E) -> int) {
    && (forall x, y :: cmp(x, y) < 0 <==> cmp(y, x) > 0)
    && (forall x, y, z :: Le(cmp, x, y) && Le(cmp, y, z) ==> Le(cmp, x, z))
  }

  // Element I of S, counting from 1.
  function At<E>(s: seq<E>, i: int): (e: E)
    requires 1 <= i <= |s|
  {
    s[i - 1]
  }

  // Neither child of node P is greater than P, in a heap of CNT elements.
  predicate Node<E>(cmp: (E, E) -> int, s: seq<E>, p: int, cnt: int)
    requires 1 <= p && cnt <= |s|
  {
    && (2 * p <= cnt ==> Le(cmp, At(s, 2 * p), At(s, p)))
    && (2 * p + 1 <= cnt ==> Le(cmp, At(s, 2 * p + 1), At(s, p)))
  }

  // Nodes from LO on are in heap order, except perhaps node HOLE.
  predicate HeapBut<E>(cmp: (E, E) -> int, s: seq<E>, lo: int, cnt: int, hole: int)
    requires 1 <= lo && cnt <= |s|
  {
    forall p | lo <= p <= cnt && p != hole :: Node(cmp, s, p, cnt)
  }

  // The children of HOLE are no greater than its parent, if that is in the heap.
  predicate Grand<E>(cmp: (E, E) -> int, s: seq<E>, lo: int, cnt: int, hole: int)
    requires 1 <= lo && 1 <= hole <= cnt <= |s|
  {
    lo <= hole / 2 ==>
      && (2 * hole <= cnt ==> Le(cmp, At(s, 2 * hole), At(s, hole / 2)))
      && (2 * hole + 1 <= cnt ==> Le(cmp, At(s, 2 * hole + 1), At(s, hole / 2)))
  }

  predicate Heap<E>(cmp: (E, E) -> int, s: seq<E>, lo: int, cnt: int)
    requires 1 <= lo && cnt <= |s|
  {
    forall p | lo <= p <= cnt :: Node(cmp, s, p, cnt)
  }

  predicate Sorted<E>(cmp: (E, E) -> int, s: seq<E>) {
    forall i, j | 0 <= i < j < |s| :: Le(cmp, s[i], s[j])
  }

  // The largest of node I and its children, as heapify picks it.
  function Largest<E>(cmp: (E, E) -> int, s: seq<E>, i: int, cnt: int): (m: int)
    requires 1 <= i <= cnt <= |s|
    ensures i <= m <= cnt && (m == i || m == 2 * i || m == 2 * i + 1)
  {
    var m := if 2 * i <= cnt && cmp(At(s, 2 * i), At(s, i)) > 0 then 2 * i else i;
    if 2 * i + 1 <= cnt && cmp(At(s, 2 * i + 1), At(s, m)) > 0 then 2 * i + 1 else m
  }

  function Swapped<E>(s: seq<E>, i: int, j: int): (r: seq<E>)
    requires 1 <= i <= |s| && 1 <= j <= |s|
    ensures |r| == |s|
  {
    s[i - 1 := s[j - 1]][j - 1 := s[i - 1]]
  }

  lemma LargestIs<E(!new)>(cmp: (E, E) -> int, s: seq<E>, i: int, cnt: int)
    requires Consistent(cmp) && 1 <= i <= cnt <= |s|
    ensures var m := Largest(cmp, s, i, cnt);
      && Le(cmp, At(s, i), At(s, m))
      && (2 * i <= cnt ==> Le(cmp, At(s, 2 * i), At(s, m)))
      && (2 * i + 1 <= cnt ==> Le(cmp, At(s, 2 * i + 1), At(s, m)))
  {
    Reflexive(cmp, At(s, i));
    var left := 2 * i <= cnt && cmp(At(s, 2 * i), At(s, i)) > 0;
    var l := if left then 2 * i else i;
    if 2 * i <= cnt { Reflexive(cmp, At(s, 2 * i)); }
    assert Le(cmp, At(s, i), At(s, l)) && (2 * i <= cnt ==> Le(cmp, At(s, 2 * i), At(s, l)));
    if 2 * i + 1 <= cnt {
      Reflexive(cmp, At(s, 2 * i + 1));
      if cmp(At(s, 2 * i + 1), At(s, l)) > 0 {
        assert Le(cmp, At(s, l), At(s, 2 * i + 1));
      }
    }
  }

  lemma Reflexive<E(!new)>(cmp: (E, E) -> int, x: E)
    requires Consistent(cmp)
    ensures Le(cmp, x, x)
  {}

  // One turn of heapify: the hole moves down to the larger child.
  lemma SiftStep<E(!new)>(cmp: (E, E) -> int, s: seq<E>, lo: int, cnt: int, i: int)
    requires Consistent(cmp) && 1 <= lo <= i <= cnt <= |s| && HeapBut(cmp, s, lo, cnt, i) && Grand(cmp, s, lo, cnt, i)
    ensures var m := Largest(cmp, s, i, cnt);
      if m == i then Heap(cmp, s, lo, cnt)
      else HeapBut(cmp, Swapped(s, i, m), lo, cnt, m) && Grand(cmp, Swapped(s, i, m), lo, cnt, m)
  {
    var m := Largest(cmp, s, i, cnt);
    LargestIs(cmp, s, i, cnt);
    if m != i {
      var t := Swapped(s, i, m);
      assert Node(cmp, s, m, cnt);
      forall p | lo <= p <= cnt && p != m ensures Node(cmp, t, p, cnt) {
        if p != i { assert Node(cmp, s, p, cnt); }
      }
    }
  }

  // In a heap the first element is the largest.
  lemma {:induction false} RootLargest<E(!new)>(cmp: (E, E) -> int, s: seq<E>, cnt: int, k: int)
    requires Consistent(cmp) && 1 <= k <= cnt <= |s| && Heap(cmp, s, 1, cnt)
    ensures Le(cmp, At(s, k), At(s, 1))
    decreases k
  {
    if k == 1 {
      Reflexive(cmp, At(s, 1));
    } else {
      RootLargest(cmp, s, cnt, k / 2);
      assert Node(cmp, s, k / 2, cnt);
    }
  }

  // ---------- permutations ----------

  lemma SwapPermutes<E>(s: seq<E>, i: int, j: int, n: int)
    requires 1 <= i <= n <= |s| && 1 <= j <= n
    ensures multiset(Swapped(s, i, j)[..n]) == multiset(s[..n]) && Swapped(s, i, j)[n..] == s[n..]
  {
    var t := Swapped(s, i, j);
    assert t[..n] == s[..n][i - 1 := s[j - 1]][j - 1 := s[i - 1]];
    assert t[n..] == s[n..];
  }

  lemma PrefixPermutes<E>(s: seq<E>, t: seq<E>, n: int)
    requires 0 <= n <= |s| == |t| && multiset(s[..n]) == multiset(t[..n]) && s[n..] == t[n..]
    ensures multiset(s) == multiset(t)
  {
    assert s == s[..n] + s[n..] && t == t[..n] + t[n..];
  }

  lemma SameMembers<E>(s: seq<E>, t: seq<E>, x: E)
    requires multiset(s) == multiset(t)
    ensures x in s <==> x in t
  {
    assert x in multiset(s) <==> x in multiset(t);
  }

  // ---------- the code ----------

  method DoSwap<E>(a: array<E>, i: int, j: int)
    requires 1 <= i <= a.Length && 1 <= j <= a.Length
    modifies a
    ensures a[..] == Swapped(old(a[..]), i, j)
  {
    a[i - 1], a[j - 1] := a[j - 1], a[i - 1];
  }

  method Heapify<E(!new)>(cmp: (E, E) -> int, a: array<E>, i0: int, cnt: int, ghost lo: int)
    requires Consistent(cmp) && 1 <= lo <= i0 <= cnt <= a.Length
    requires HeapBut(cmp, a[..], lo, cnt, i0) && Grand(cmp, a[..], lo, cnt, i0)
    modifies a
    ensures Heap(cmp, a[..], lo, cnt)
    ensures multiset(a[..cnt]) == multiset(old(a[..cnt])) && a[cnt..] == old(a[cnt..])
  {
    var i := i0;
    while true
      invariant lo <= i <= cnt && HeapBut(cmp, a[..], lo, cnt, i) && Grand(cmp, a[..], lo, cnt, i)
      invariant multiset(a[..cnt]) == multiset(old(a[..cnt])) && a[cnt..] == old(a[cnt..])
      decreases cnt - i
    {
      var left, right, max := 2 * i, 2 * i + 1, i;
      if left <= cnt && cmp(a[left - 1], a[max - 1]) > 0 { max := left; }
      if right <= cnt && cmp(a[right - 1], a[max - 1]) > 0 { max := right; }
      assert max == Largest(cmp, a[..], i, cnt);
      SiftStep(cmp, a[..], lo, cnt, i);
      if max == i { break; }
      SwapPermutes(a[..], i, max, cnt);
      SlicesAgree(a);
      DoSwap(a, i, max);
      SlicesAgree(a);
      i := max;
    }
  }

  lemma SlicesAgree<E>(a: array<E>)
    ensures forall n | 0 <= n <= a.Length :: a[..n] == a[..][..n] && a[n..] == a[..][n..]
  {}

  // The first N elements are a heap, the rest sorted and none smaller than those.
  ghost predicate Partly<E>(cmp: (E, E) -> int, s: seq<E>, n: int)
    requires 0 <= n <= |s|
  {
    Heap(cmp, s, 1, n) && Sorted(cmp, s[n..]) && AllBelow(cmp, s[..n], s[n..])
  }

  ghost predicate AllBelow<E>(cmp: (E, E) -> int, s: seq<E>, t: seq<E>) {
    forall x, y | x in s && y in t :: Le(cmp, x, y)
  }

  lemma MaxMoved<E(!new)>(cmp: (E, E) -> int, s: seq<E>, n: int)
    requires Consistent(cmp) && 2 <= n <= |s| && Partly(cmp, s, n)
    ensures var t := Swapped(s, 1, n);
      && HeapBut(cmp, t, 1, n - 1, 1) && Grand(cmp, t, 1, n - 1, 1)
      && Sorted(cmp, t[n - 1..]) && AllBelow(cmp, t[..n - 1], t[n - 1..])
  {
    var t := Swapped(s, 1, n);
    var m := n - 1;
    forall p | 1 <= p <= m && p != 1 ensures Node(cmp, t, p, m) { assert Node(cmp, s, p, n); }
    TailSorted(cmp, s, n);
    var front, back := t[..n - 1], t[n - 1..];
    forall x, y | x in front && y in back ensures Le(cmp, x, y) { BelowTail(cmp, s, n, x, y); }
  }

  lemma TailSorted<E(!new)>(cmp: (E, E) -> int, s: seq<E>, n: int)
    requires Consistent(cmp) && 2 <= n <= |s| && Partly(cmp, s, n)
    ensures Sorted(cmp, Swapped(s, 1, n)[n - 1..])
  {
    var t := Swapped(s, 1, n);
    assert t[n - 1..] == [s[0]] + s[n..];
    assert s[0] in s[..n];
  }

  lemma BelowTail<E(!new)>(cmp: (E, E) -> int, s: seq<E>, n: int, x: E, y: E)
    requires Consistent(cmp) && 2 <= n <= |s| && Partly(cmp, s, n)
    requires x in Swapped(s, 1, n)[..n - 1] && y in Swapped(s, 1, n)[n - 1..]
    ensures Le(cmp, x, y)
  {
    var t := Swapped(s, 1, n);
    var i :| 0 <= i < n - 1 && t[i] == x;
    var k := if i == 0 then n else i + 1;
    assert At(s, k) == x;
    RootLargest(cmp, s, n, k);
    var j :| n - 1 <= j < |t| && t[j] == y;
    if j >= n { assert s[n..][j - n] == y; assert s[..n][k - 1] == x; }
  }

  method Sort<E(!new)>(cmp: (E, E) -> int, a: array<E>)
    requires Consistent(cmp)
    modifies a
    ensures Sorted(cmp, a[..]) && multiset(a[..]) == multiset(old(a[..]))
  {
    var cnt := a.Length;
    BuildHeap(cmp, a);
    var i := cnt;
    while i > 1
      invariant 0 <= i <= cnt && Partly(cmp, a[..], i) && multiset(a[..]) == multiset(old(a[..]))
    {
      SortTurn(cmp, a, i);
      i := i - 1;
    }
  }

  method BuildHeap<E(!new)>(cmp: (E, E) -> int, a: array<E>)
    requires Consistent(cmp)
    modifies a
    ensures Heap(cmp, a[..], 1, a.Length) && multiset(a[..]) == multiset(old(a[..]))
  {
    var cnt := a.Length;
    var i := cnt / 2;
    while i > 0
      invariant 0 <= i <= cnt / 2 && Heap(cmp, a[..], i + 1, cnt) && multiset(a[..]) == multiset(old(a[..]))
    {
      assert a[..cnt] == a[..];
      Heapify(cmp, a, i, cnt, i);
      assert a[..cnt] == a[..];
      i := i - 1;
    }
  }

  method SortTurn<E(!new)>(cmp: (E, E) -> int, a: array<E>, i: int)
    requires Consistent(cmp) && 2 <= i <= a.Length && Partly(cmp, a[..], i)
    modifies a
    ensures Partly(cmp, a[..], i - 1) && multiset(a[..]) == multiset(old(a[..]))
  {
    MaxMoved(cmp, a[..], i);
    SwapPermutes(a[..], 1, i, a.Length);
    DoSwap(a, 1, i);
    ghost var s := a[..];
    SlicesAgree(a);
    Heapify(cmp, a, 1, i - 1, 1);
    SlicesAgree(a);
    PrefixPermutes(s, a[..], i - 1);
    ghost var front, back := a[..][..i - 1], a[..][i - 1..];
    forall x, y | x in front && y in back ensures Le(cmp, x, y) {
      SameMembers(s[..i - 1], front, x);
    }
  }

  // ---------- binary search ----------

  // Index of an element that compares equal to KEY, None if there is none.
  method BinarySearch<E(!new)>(cmp: (E, E) -> int, key: E, s: seq<E>) returns (r: Option<int>)
    requires Consistent(cmp) && Sorted(cmp, s)
    ensures r.Some? ==> 0 <= r.value < |s| && cmp(key, s[r.value]) == 0
    ensures r == None ==> forall i | 0 <= i < |s| :: cmp(key, s[i]) != 0
  {
    var first, last := 0, |s|;
    while first < last
      invariant 0 <= first <= last <= |s|
      invariant forall i | 0 <= i < first :: cmp(key, s[i]) > 0
      invariant forall i | last <= i < |s| :: cmp(key, s[i]) < 0
    {
      var middle := first + (last - first) / 2;
      var c := cmp(key, s[middle]);
      if c < 0 {
        forall i | middle <= i < |s| ensures cmp(key, s[i]) < 0 { AfterToo(cmp, key, s, middle, i); }
        last := middle;
      } else if c > 0 {
        forall i | 0 <= i <= middle ensures cmp(key, s[i]) > 0 { BeforeToo(cmp, key, s, middle, i); }
        first := middle + 1;
      } else {
        return Some(middle);
      }
    }
    return None;
  }

  lemma AfterToo<E(!new)>(cmp: (E, E) -> int, key: E, s: seq<E>, m: int, i: int)
    requires Consistent(cmp) && Sorted(cmp, s) && 0 <= m <= i < |s| && cmp(key, s[m]) < 0
    ensures cmp(key, s[i]) < 0
  {
    var x, y := s[m], s[i];
    Reflexive(cmp, x);
    assert Le(cmp, x, y);
    assert Le(cmp, y, key) ==> Le(cmp, x, key);
  }

  lemma BeforeToo<E(!new)>(cmp: (E, E) -> int, key: E, s: seq<E>, m: int, i: int)
    requires Consistent(cmp) && Sorted(cmp, s) && 0 <= i <= m < |s| && cmp(key, s[m]) > 0
    ensures cmp(key, s[i]) > 0
  {
    var x, y := s[i], s[m];
    Reflexive(cmp, x);
    assert Le(cmp, x, y);
    assert Le(cmp, key, x) ==> Le(cmp, key, y);
  }
}
