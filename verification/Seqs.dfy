// Sequences without repetitions.

module Seqs {

  ghost predicate NoDup<T>(s: seq<T>) {
    forall i, j :: 0 <= i < j < |s| ==> s[i] != s[j]
  }

  lemma PopFront<T>(s: seq<T>)
    requires |s| > 0 && NoDup(s)
    ensures NoDup(s[1..])
    ensures forall x :: x in s[1..] <==> x in s && x != s[0]
  {
    forall x | x in s && x != s[0] ensures x in s[1..] {
      var i :| 0 <= i < |s| && s[i] == x;
      assert s[1..][i - 1] == x;
    }
  }

  lemma PushBack<T>(s: seq<T>, x: T)
    requires NoDup(s) && x !in s
    ensures NoDup(s + [x])
    ensures forall y :: y in s + [x] <==> y in s || y == x
  {
  }

  // A slice of a slice, by places of the whole sequence.
  lemma SubSlice<T>(r: seq<T>, a: nat, b: nat, lo: nat, hi: nat)
    requires a <= lo <= hi <= b <= |r|
    ensures r[a..b][lo - a..hi - a] == r[lo..hi]
    ensures r[a..b][lo - a..] == r[lo..b] && r[a..b][..hi - a] == r[a..hi]
  {
    var s := r[a..b];
    var u, v := s[lo - a..hi - a], r[lo..hi];
    forall i | 0 <= i < |u| ensures u[i] == v[i] {
      assert u[i] == s[lo - a + i];
    }
    assert u == v;
  }
}
