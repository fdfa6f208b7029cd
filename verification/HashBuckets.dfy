// lib/kernel/hash.c: buckets of elements, each element in the bucket that its hash names.

module HashBuckets {
  import opened Bitwise

  // Equal as hash.c sees it: neither is less.
  predicate Same<E>(less: (E, E) -> bool, a: E, b: E) { !less(a, b) && !less(b, a) }

  // Equality is an equivalence, and equal elements hash equally.
  ghost predicate Keyed<E(!new)>(hash: E -> int, less: (E, E) -> bool) {
    && (forall a :: Same(less, a, a))
    && (forall a, b, c :: Same(less, a, b) && Same(less, b, c) ==> Same(less, a, c))
    && (forall a, b :: Same(less, a, b) ==> hash(a) == hash(b))
    && (forall a :: 0 <= hash(a))
  }

  // Pairwise different.
  predicate Distinct<E>(less: (E, E) -> bool, s: seq<E>) {
    forall i, j | 0 <= i < |s| && 0 <= j < |s| && i != j :: !Same(less, s[i], s[j])
  }

  // find_bucket.
  function BucketOf<E>(hash: E -> int, n: int, e: E): (i: int) { And(hash(e), n - 1) }

  function Flat<E>(buckets: seq<seq<E>>): (s: seq<E>) {
    if buckets == [] then [] else buckets[0] + Flat(buckets[1..])
  }

  predicate Sized(n: int) { 4 <= n && TopPow(n) == n }

  predicate Placed<E>(hash: E -> int, n: int, bucket: seq<E>, i: int) {
    forall j | 0 <= j < |bucket| :: BucketOf(hash, n, bucket[j]) == i
  }

  predicate AllPlaced<E>(hash: E -> int, buckets: seq<seq<E>>) {
    forall i | 0 <= i < |buckets| :: Placed(hash, |buckets|, buckets[i], i)
  }

  ghost predicate TableOk<E>(hash: E -> int, less: (E, E) -> bool, buckets: seq<seq<E>>) {
    Sized(|buckets|) && AllPlaced(hash, buckets) && Distinct(less, Flat(buckets))
  }

  // The index is the hash modulo the number of buckets.
  lemma BucketInRange<E>(hash: E -> int, n: int, e: E)
    requires Sized(n) && 0 <= hash(e)
    ensures 0 <= BucketOf(hash, n, e) < n && BucketOf(hash, n, e) == hash(e) % n
  {
    var k := TopPowIsPow2(n);
    AndMask(hash(e), k);
  }

  // ---------- flattening ----------

  lemma {:induction false} FlatSplit<E>(buckets: seq<seq<E>>, i: int)
    requires 0 <= i < |buckets|
    ensures Flat(buckets) == Flat(buckets[..i]) + buckets[i] + Flat(buckets[i + 1..])
    decreases i
  {
    if i == 0 {
      assert buckets[..0] == [];
    } else {
      FlatSplit(buckets[1..], i - 1);
      assert buckets[1..][..i - 1] == buckets[..i][1..] && buckets[1..][i..] == buckets[i + 1..];
      FlatAssoc(buckets[0], Flat(buckets[..i][1..]), buckets[i], Flat(buckets[i + 1..]));
    }
  }

  lemma FlatAssoc<E>(a: seq<E>, b: seq<E>, c: seq<E>, d: seq<E>)
    ensures a + (b + c + d) == (a + b) + c + d
  {}

  lemma FlatUpdate<E>(buckets: seq<seq<E>>, i: int, b: seq<E>)
    requires 0 <= i < |buckets|
    ensures Flat(buckets[i := b]) == Flat(buckets[..i]) + b + Flat(buckets[i + 1..])
  {
    var u := buckets[i := b];
    FlatSplit(u, i);
    assert u[..i] == buckets[..i] && u[i + 1..] == buckets[i + 1..];
  }

  lemma InFlat<E>(buckets: seq<seq<E>>, i: int, e: E)
    requires 0 <= i < |buckets| && e in buckets[i]
    ensures e in Flat(buckets)
  {
    FlatSplit(buckets, i);
  }

  lemma {:induction false} FlatIn<E>(buckets: seq<seq<E>>, e: E) returns (i: int)
    requires e in Flat(buckets)
    ensures 0 <= i < |buckets| && e in buckets[i]
  {
    if e in buckets[0] {
      i := 0;
    } else {
      i := FlatIn(buckets[1..], e);
      i := i + 1;
    }
  }

  // ---------- one bucket changed ----------

  lemma DistinctInsert<E(!new)>(less: (E, E) -> bool, a: seq<E>, b: seq<E>, e: E)
    requires Distinct(less, a + b) && forall x | x in a + b :: !Same(less, x, e)
    ensures Distinct(less, a + [e] + b)
  {
    var s, t := a + b, a + [e] + b;
    forall i, j | 0 <= i < |t| && 0 <= j < |t| && i != j ensures !Same(less, t[i], t[j]) {
      var i0, j0 := if i < |a| then i else i - 1, if j < |a| then j else j - 1;
      if i != |a| { assert t[i] == s[i0] && s[i0] in s; }
      if j != |a| { assert t[j] == s[j0] && s[j0] in s; }
    }
  }

  lemma DistinctDrop<E(!new)>(less: (E, E) -> bool, a: seq<E>, b: seq<E>, e: E)
    requires Distinct(less, a + [e] + b)
    ensures Distinct(less, a + b) && (Same(less, e, e) ==> e !in a + b)
    ensures forall x | x in a + b :: !Same(less, x, e)
  {
    var s, t := a + b, a + [e] + b;
    forall i | 0 <= i < |s| ensures s[i] == t[if i < |a| then i else i + 1] {}
    assert t[|a|] == e;
    forall i, j | 0 <= i < |s| && 0 <= j < |s| && i != j ensures !Same(less, s[i], s[j]) {
      assert !Same(less, t[if i < |a| then i else i + 1], t[if j < |a| then j else j + 1]);
    }
    forall i | 0 <= i < |s| ensures !Same(less, s[i], e) {
      assert !Same(less, t[if i < |a| then i else i + 1], t[|a|]);
    }
  }

  // Elements equal to E are all in E's bucket.
  lemma OnlyThere<E(!new)>(hash: E -> int, less: (E, E) -> bool, buckets: seq<seq<E>>, e: E, x: E)
    requires Keyed(hash, less) && TableOk(hash, less, buckets) && x in Flat(buckets) && Same(less, x, e)
    ensures 0 <= BucketOf(hash, |buckets|, e) < |buckets| && x in buckets[BucketOf(hash, |buckets|, e)]
  {
    var i := FlatIn(buckets, x);
    BucketInRange(hash, |buckets|, e);
    assert Placed(hash, |buckets|, buckets[i], i);
  }

  // ---------- rehash ----------

  function Empty<E>(n: int): (r: seq<seq<E>>)
    requires 0 <= n
  {
    seq(n, _ => [])
  }

  // What rehash makes of the elements ES: each pushed on the front of its bucket among N.
  function Scattered<E>(hash: E -> int, n: int, es: seq<E>): (r: seq<seq<E>>)
    requires 0 <= n
    ensures |r| == n
    decreases |es|
  {
    if es == [] then Empty<E>(n)
    else
      var r := Scattered(hash, n, es[..|es| - 1]);
      var e := es[|es| - 1];
      var i := BucketOf(hash, n, e);
      if 0 <= i < n then r[i := [e] + r[i]] else r
  }

  lemma {:induction false} FlatEmpty<E>(n: int)
    requires 0 <= n
    ensures Flat(Empty<E>(n)) == []
    decreases n
  {
    if n > 0 {
      FlatEmpty<E>(n - 1);
      assert Empty<E>(n)[1..] == Empty<E>(n - 1);
    }
  }

  lemma PushFlat<E>(r: seq<seq<E>>, i: int, e: E)
    requires 0 <= i < |r|
    ensures multiset(Flat(r[i := [e] + r[i]])) == multiset(Flat(r)) + multiset{e}
  {
    FlatUpdate(r, i, [e] + r[i]);
    FlatSplit(r, i);
    var a, c := Flat(r[..i]), Flat(r[i + 1..]);
    assert a + ([e] + r[i]) + c == a + [e] + (r[i] + c);
    assert a + r[i] + c == a + (r[i] + c);
  }

  // Nothing is lost and nothing is duplicated, and everything is in its place.
  lemma {:induction false} ScatterKeeps<E(!new)>(hash: E -> int, n: int, es: seq<E>)
    requires Sized(n) && forall e :: 0 <= hash(e)
    ensures multiset(Flat(Scattered(hash, n, es))) == multiset(es) && AllPlaced(hash, Scattered(hash, n, es))
    decreases |es|
  {
    if es == [] {
      FlatEmpty<E>(n);
    } else {
      var rest, e := es[..|es| - 1], es[|es| - 1];
      ScatterKeeps(hash, n, rest);
      var r := Scattered(hash, n, rest);
      var i := BucketOf(hash, n, e);
      BucketInRange(hash, n, e);
      PushFlat(r, i, e);
      assert es == rest + [e];
      var r1 := r[i := [e] + r[i]];
      forall k | 0 <= k < n ensures Placed(hash, n, r1[k], k) { assert Placed(hash, n, r[k], k); }
    }
  }

  // Being pairwise different does not depend on the order.
  lemma DistinctPerm<E(!new)>(less: (E, E) -> bool, s: seq<E>, t: seq<E>)
    requires Distinct(less, s) && multiset(s) == multiset(t) && forall a :: Same(less, a, a)
    ensures Distinct(less, t)
  {
    forall i, j | 0 <= i < |t| && 0 <= j < |t| && i != j ensures !Same(less, t[i], t[j]) {
      assert t[i] in multiset(t) && t[j] in multiset(t);
      var p :| 0 <= p < |s| && s[p] == t[i];
      var q :| 0 <= q < |s| && s[q] == t[j];
      if p == q { TwiceIn(t, i, j); OnceIn(less, s, p); }
    }
  }

  lemma TwiceIn<E>(t: seq<E>, i: int, j: int)
    requires 0 <= i < |t| && 0 <= j < |t| && i != j && t[i] == t[j]
    ensures multiset(t)[t[i]] >= 2
  {
    var a, b := if i < j then i else j, if i < j then j else i;
    assert t == t[..a] + [t[a]] + t[a + 1..b] + [t[b]] + t[b + 1..];
  }

  lemma OnceIn<E>(less: (E, E) -> bool, s: seq<E>, p: int)
    requires Distinct(less, s) && 0 <= p < |s| && Same(less, s[p], s[p])
    ensures multiset(s)[s[p]] == 1
  {
    assert s == s[..p] + [s[p]] + s[p + 1..];
    assert s[p] !in s[..p] && s[p] !in s[p + 1..];
  }

  // rehash as a whole.
  lemma RehashOk<E(!new)>(hash: E -> int, less: (E, E) -> bool, buckets: seq<seq<E>>, n: int)
    requires Keyed(hash, less) && TableOk(hash, less, buckets) && Sized(n)
    ensures var r := Scattered(hash, n, Flat(buckets));
      TableOk(hash, less, r) && multiset(Flat(r)) == multiset(Flat(buckets))
  {
    ScatterKeeps(hash, n, Flat(buckets));
    DistinctPerm(less, Flat(buckets), Flat(Scattered(hash, n, Flat(buckets))));
  }

  // Best number of buckets for CNT elements.
  function BestCnt(cnt: int): (n: int) { TopPow(if cnt / 2 < 4 then 4 else cnt / 2) }

  lemma {:induction false} TopPowTop(x: int)
    ensures TopPow(TopPow(x)) == TopPow(x)
    decreases x
  {
    if x >= 2 {
      TopPowTop(x / 2);
      assert TopPow(x) / 2 == TopPow(x / 2);
    }
  }

  lemma {:induction false} TopPowMono(x: int, y: int)
    requires x <= y
    ensures TopPow(x) <= TopPow(y)
    decreases y
  {
    if x >= 2 { TopPowMono(x / 2, y / 2); }
  }

  lemma BestSized(cnt: int)
    requires 0 <= cnt
    ensures Sized(BestCnt(cnt)) && cnt < 4 * BestCnt(cnt) && (BestCnt(cnt) == 4 || 2 * BestCnt(cnt) <= cnt)
  {
    var x := if cnt / 2 < 4 then 4 else cnt / 2;
    TopPowTop(x);
    TopPowMono(4, x);
    assert TopPow(4) == 4 by { assert TopPow(2) == 2; }
  }
}
