// lib/kernel/hash.c: the chained hash table that resizes itself, and its iterator.

module HashTables {
  import opened Options
  import opened Bitwise
  import opened HashBuckets

  lemma FlatAppend<E>(buckets: seq<seq<E>>, i: int)
    requires 0 <= i < |buckets|
    ensures Flat(buckets[..i + 1]) == Flat(buckets[..i]) + buckets[i]
  {
    var b := buckets[..i + 1];
    FlatSplit(b, i);
    assert b[..i] == buckets[..i] && b[i + 1..] == [];
  }

  lemma AppendOne<E>(a: seq<E>, b: seq<E>, j: int)
    requires 0 <= j < |b|
    ensures a + b[..j + 1] == (a + b[..j]) + [b[j]]
  {}

  lemma ScatterOne<E>(hash: E -> int, n: int, es: seq<E>, e: E)
    requires 0 <= n && 0 <= BucketOf(hash, n, e) < n
    ensures var r := Scattered(hash, n, es); var i := BucketOf(hash, n, e);
      Scattered(hash, n, es + [e]) == r[i := [e] + r[i]]
  {
    assert (es + [e])[..|es|] == es;
  }

  ghost function Set<E>(s: seq<E>): (r: set<E>) { set e | e in s }

  lemma SetInsert<E>(a: seq<E>, b: seq<E>, e: E)
    ensures Set(a + [e] + b) == Set(a + b) + {e}
  {
    forall x | x in Set(a + b) ensures x in a + [e] + b { assert x in a || x in b; }
  }

  lemma SetPerm<E>(s: seq<E>, t: seq<E>)
    requires multiset(s) == multiset(t)
    ensures Set(s) == Set(t) && |s| == |t|
  {
    forall x ensures x in s <==> x in t { assert x in multiset(s) <==> x in multiset(t); }
    assert |multiset(s)| == |s| && |multiset(t)| == |t|;
  }

  // As many elements in the set as places in the table.
  lemma {:induction false} DistinctCard<E(!new)>(less: (E, E) -> bool, s: seq<E>)
    requires Distinct(less, s) && forall a :: Same(less, a, a)
    ensures |Set(s)| == |s|
  {
    if s != [] {
      var t := s[1..];
      forall i, j | 0 <= i < |t| && 0 <= j < |t| && i != j ensures !Same(less, t[i], t[j]) {
        assert t[i] == s[i + 1] && t[j] == s[j + 1];
      }
      DistinctCard(less, t);
      assert s[0] !in t by { forall i | 0 <= i < |t| ensures t[i] != s[0] { assert !Same(less, s[0], s[i + 1]); } }
      assert Set(s) == Set(t) + {s[0]};
    }
  }

  lemma PushedFlat<E>(buckets: seq<seq<E>>, i: int, e: E) returns (a: seq<E>, b: seq<E>)
    requires 0 <= i < |buckets|
    ensures Flat(buckets) == a + b && Flat(buckets[i := [e] + buckets[i]]) == a + [e] + b
  {
    FlatSplit(buckets, i);
    FlatUpdate(buckets, i, [e] + buckets[i]);
    a, b := Flat(buckets[..i]), buckets[i] + Flat(buckets[i + 1..]);
    assert a + ([e] + buckets[i]) + Flat(buckets[i + 1..]) == a + [e] + b;
  }

  lemma TakenFlat<E>(buckets: seq<seq<E>>, i: int, j: int) returns (a: seq<E>, b: seq<E>)
    requires 0 <= i < |buckets| && 0 <= j < |buckets[i]|
    ensures Flat(buckets) == a + [buckets[i][j]] + b
    ensures Flat(buckets[i := buckets[i][..j] + buckets[i][j + 1..]]) == a + b
  {
    var x, e, y := buckets[i][..j], buckets[i][j], buckets[i][j + 1..];
    FlatSplit(buckets, i);
    FlatUpdate(buckets, i, x + y);
    a, b := Flat(buckets[..i]) + x, y + Flat(buckets[i + 1..]);
    assert buckets[i] == x + [e] + y;
    assert Flat(buckets[..i]) + (x + [e] + y) + Flat(buckets[i + 1..]) == a + [e] + b;
    assert Flat(buckets[..i]) + (x + y) + Flat(buckets[i + 1..]) == a + b;
  }

  // Inserting E at the front of its bucket.
  lemma Pushed<E(!new)>(hash: E -> int, less: (E, E) -> bool, buckets: seq<seq<E>>, e: E)
    requires Keyed(hash, less) && TableOk(hash, less, buckets)
    requires forall x | x in Flat(buckets) :: !Same(less, x, e)
    ensures 0 <= BucketOf(hash, |buckets|, e) < |buckets|
    ensures var i := BucketOf(hash, |buckets|, e); var r := buckets[i := [e] + buckets[i]];
      TableOk(hash, less, r) && Set(Flat(r)) == Set(Flat(buckets)) + {e} && |Flat(r)| == |Flat(buckets)| + 1
  {
    var n := |buckets|;
    BucketInRange(hash, n, e);
    var i := BucketOf(hash, n, e);
    var r := buckets[i := [e] + buckets[i]];
    var a, b := PushedFlat(buckets, i, e);
    DistinctInsert(less, a, b, e);
    SetInsert(a, b, e);
    forall k | 0 <= k < n ensures Placed(hash, n, r[k], k) { assert Placed(hash, n, buckets[k], k); }
  }

  // Taking the element at place J out of bucket I.
  lemma Taken<E(!new)>(hash: E -> int, less: (E, E) -> bool, buckets: seq<seq<E>>, i: int, j: int)
    requires Keyed(hash, less) && TableOk(hash, less, buckets) && 0 <= i < |buckets| && 0 <= j < |buckets[i]|
    ensures var e := buckets[i][j]; var r := buckets[i := buckets[i][..j] + buckets[i][j + 1..]];
      && TableOk(hash, less, r) && e in Flat(buckets) && Set(Flat(r)) == Set(Flat(buckets)) - {e}
      && |Flat(r)| == |Flat(buckets)| - 1 && forall x | x in Flat(r) :: !Same(less, x, e)
  {
    var n, e := |buckets|, buckets[i][j];
    var r := buckets[i := buckets[i][..j] + buckets[i][j + 1..]];
    var a, b := TakenFlat(buckets, i, j);
    DistinctDrop(less, a, b, e);
    SetInsert(a, b, e);
    forall k | 0 <= k < n ensures Placed(hash, n, r[k], k) { TakenPlaced(hash, buckets, r, i, j, k); }
  }

  lemma TakenPlaced<E>(hash: E -> int, buckets: seq<seq<E>>, r: seq<seq<E>>, i: int, j: int, k: int)
    requires AllPlaced(hash, buckets) && 0 <= i < |buckets| && 0 <= j < |buckets[i]| && 0 <= k < |buckets|
    requires r == buckets[i := buckets[i][..j] + buckets[i][j + 1..]]
    ensures Placed(hash, |buckets|, r[k], k)
  {
    assert Placed(hash, |buckets|, buckets[k], k);
    if k == i {
      forall m | 0 <= m < |r[i]| ensures BucketOf(hash, |buckets|, r[i][m]) == i {
        assert r[i][m] == buckets[i][if m < j then m else m + 1];
      }
    }
  }

  // hash_init; MEMOK says whether there is memory for the buckets, and null stands for a failure.
  method HashInit<E(==, !new)>(hash: E -> int, less: (E, E) -> bool, memOk: bool) returns (t: Table?<E>)
    requires Keyed(hash, less)
    ensures t != null <==> memOk
    ensures t != null ==>
      fresh(t) && t.Valid() && t.Elems() == {} && t.elemCnt == 0 && |t.buckets| == 4 && t.hash == hash && t.less == less
  {
    if memOk {
      t := new Table(hash, less);
    } else {
      t := null;
    }
  }

  class Table<E(==, !new)> {
    const hash: E -> int
    const less: (E, E) -> bool
    var buckets: seq<seq<E>>
    var elemCnt: int

    ghost predicate Valid()
      reads this
    {
      Keyed(hash, less) && TableOk(hash, less, buckets) && elemCnt == |Flat(buckets)|
    }

    ghost function Elems(): (s: set<E>)
      reads this
    {
      Set(Flat(buckets))
    }

    constructor (hash: E -> int, less: (E, E) -> bool)
      requires Keyed(hash, less)
      ensures Valid() && Elems() == {} && elemCnt == 0 && |buckets| == 4 && this.hash == hash && this.less == less
    {
      this.hash, this.less := hash, less;
      buckets, elemCnt := Empty<E>(4), 0;
      FlatEmpty<E>(4);
      assert TopPow(4) == 4 by { assert TopPow(2) == 2; }
    }

    // Place in bucket I of an element equal to E.
    method FindElem(i: int, e: E) returns (r: Option<int>)
      requires 0 <= i < |buckets|
      ensures r.Some? ==> 0 <= r.value < |buckets[i]| && Same(less, buckets[i][r.value], e)
      ensures r == None ==> forall x | x in buckets[i] :: !Same(less, x, e)
    {
      var j := 0;
      while j < |buckets[i]|
        invariant 0 <= j <= |buckets[i]| && forall k | 0 <= k < j :: !Same(less, buckets[i][k], e)
      {
        if !less(buckets[i][j], e) && !less(e, buckets[i][j]) { return Some(j); }
        j := j + 1;
      }
      return None;
    }

    // Bucket and place of the element equal to E, anywhere in the table.
    method Locate(e: E) returns (i: int, r: Option<int>)
      requires Valid()
      ensures i == BucketOf(hash, |buckets|, e) && 0 <= i < |buckets|
      ensures r.Some? ==> 0 <= r.value < |buckets[i]| && Same(less, buckets[i][r.value], e)
      ensures r == None ==> forall x | x in Elems() :: !Same(less, x, e)
    {
      BucketInRange(hash, |buckets|, e);
      i := And(hash(e), |buckets| - 1);
      r := FindElem(i, e);
      if r == None {
        forall x | x in Flat(buckets) ensures !Same(less, x, e) {
          if Same(less, x, e) { OnlyThere(hash, less, buckets, e, x); }
        }
      }
    }

    method InsertElem(i: int, e: E)
      requires Valid() && i == BucketOf(hash, |buckets|, e) && forall x | x in Elems() :: !Same(less, x, e)
      modifies this
      ensures Valid() && Elems() == old(Elems()) + {e} && |buckets| == old(|buckets|)
    {
      Pushed(hash, less, buckets, e);
      elemCnt := elemCnt + 1;
      buckets := buckets[i := [e] + buckets[i]];
    }

    method RemoveElem(i: int, j: int)
      requires Valid() && 0 <= i < |buckets| && 0 <= j < |buckets[i]|
      modifies this
      ensures Valid() && |buckets| == old(|buckets|) && old(buckets[i][j]) in old(Elems())
      ensures Elems() == old(Elems()) - {old(buckets[i][j])}
      ensures forall x | x in Elems() :: !Same(less, x, old(buckets[i][j]))
    {
      Taken(hash, less, buckets, i, j);
      elemCnt := elemCnt - 1;
      buckets := buckets[i := buckets[i][..j] + buckets[i][j + 1..]];
    }

    // The number of buckets for the present number of elements.
    method NewBucketCnt() returns (n: int)
      requires 0 <= elemCnt
      ensures n == BestCnt(elemCnt)
    {
      n := elemCnt / 2;
      if n < 4 { n := 4; }
      ghost var top := TopPow(n);
      while !Pow2Test(n)
        invariant 0 < n && TopPow(n) == top
        decreases n
      {
        TopPowKept(n);
        TurnOffLess(n);
        n := TurnOff(n);
      }
      Pow2TestRight(n);
    }

    // Moves each element of OLDBUCKETS into the new buckets.
    method MoveAll(oldBuckets: seq<seq<E>>)
      requires Keyed(hash, less) && Sized(|buckets|) && buckets == Empty<E>(|buckets|)
      modifies `buckets
      ensures buckets == Scattered(hash, old(|buckets|), Flat(oldBuckets))
    {
      ghost var n := |buckets|;
      var i := 0;
      while i < |oldBuckets|
        invariant 0 <= i <= |oldBuckets|
        invariant buckets == Scattered(hash, n, Flat(oldBuckets[..i]))
      {
        MoveBucket(oldBuckets[i], n, Flat(oldBuckets[..i]));
        FlatAppend(oldBuckets, i);
        i := i + 1;
      }
      assert oldBuckets[..i] == oldBuckets;
    }

    method MoveBucket(bucket: seq<E>, ghost n: int, ghost done: seq<E>)
      requires Keyed(hash, less) && Sized(n) && buckets == Scattered(hash, n, done)
      modifies `buckets
      ensures buckets == Scattered(hash, n, done + bucket)
    {
      var j := 0;
      assert done + bucket[..0] == done;
      while j < |bucket|
        invariant 0 <= j <= |bucket|
        invariant buckets == Scattered(hash, n, done + bucket[..j])
      {
        var e := bucket[j];
        BucketInRange(hash, n, e);
        ScatterOne(hash, n, done + bucket[..j], e);
        AppendOne(done, bucket, j);
        var k := And(hash(e), |buckets| - 1);
        buckets := buckets[k := [e] + buckets[k]];
        j := j + 1;
      }
      assert bucket[..j] == bucket;
    }

    // MALLOCOK says whether there is memory for a new array of buckets.
    method Rehash(mallocOk: bool)
      requires Valid()
      modifies this
      ensures Valid() && Elems() == old(Elems()) && elemCnt == old(elemCnt)
      ensures |buckets| == if mallocOk then BestCnt(elemCnt) else old(|buckets|)
      ensures mallocOk ==> elemCnt < 4 * |buckets|
    {
      var n := NewBucketCnt();
      BestSized(elemCnt);
      if n == |buckets| || !mallocOk { return; }
      RehashOk(hash, less, buckets, n);
      SetPerm(Flat(buckets), Flat(Scattered(hash, n, Flat(buckets))));
      var oldBuckets := buckets;
      buckets := Empty<E>(n);
      MoveAll(oldBuckets);
    }

    method Insert(e: E, mallocOk: bool) returns (was: Option<E>)
      requires Valid()
      modifies this
      ensures Valid() && (mallocOk ==> elemCnt < 4 * |buckets|)
      ensures was.Some? ==> was.value in old(Elems()) && Same(less, was.value, e) && Elems() == old(Elems())
      ensures was == None ==> (forall x | x in old(Elems()) :: !Same(less, x, e)) && Elems() == old(Elems()) + {e}
    {
      var i, j := Locate(e);
      if j == None {
        InsertElem(i, e);
        was := None;
      } else {
        InFlat(buckets, i, buckets[i][j.value]);
        was := Some(buckets[i][j.value]);
      }
      Rehash(mallocOk);
    }

    method Replace(e: E, mallocOk: bool) returns (was: Option<E>)
      requires Valid()
      modifies this
      ensures Valid() && (mallocOk ==> elemCnt < 4 * |buckets|)
      ensures was.Some? ==> was.value in old(Elems()) && Same(less, was.value, e)
      ensures was.Some? ==> Elems() == old(Elems()) - {was.value} + {e}
      ensures was == None ==> (forall x | x in old(Elems()) :: !Same(less, x, e)) && Elems() == old(Elems()) + {e}
    {
      var i, j := Locate(e);
      was := None;
      if j.Some? {
        was := Some(buckets[i][j.value]);
        RemoveElem(i, j.value);
        OthersDiffer(hash, less, Flat(buckets), was.value, e);
      }
      InsertElem(i, e);
      Rehash(mallocOk);
    }

    method Find(e: E) returns (r: Option<E>)
      requires Valid()
      ensures r.Some? ==> r.value in Elems() && Same(less, r.value, e)
      ensures r == None ==> forall x | x in Elems() :: !Same(less, x, e)
    {
      var i, j := Locate(e);
      if j == None { return None; }
      InFlat(buckets, i, buckets[i][j.value]);
      return Some(buckets[i][j.value]);
    }

    method Delete(e: E, mallocOk: bool) returns (was: Option<E>)
      requires Valid()
      modifies this
      ensures Valid()
      ensures was.Some? ==>
        was.value in old(Elems()) && Same(less, was.value, e) && Elems() == old(Elems()) - {was.value}
      ensures was.Some? && mallocOk ==> elemCnt < 4 * |buckets|
      ensures was == None ==> (forall x | x in old(Elems()) :: !Same(less, x, e)) && Elems() == old(Elems())
    {
      var i, j := Locate(e);
      if j == None { return None; }
      was := Some(buckets[i][j.value]);
      RemoveElem(i, j.value);
      Rehash(mallocOk);
    }
  }

  lemma OthersDiffer<E(!new)>(hash: E -> int, less: (E, E) -> bool, s: seq<E>, was: E, e: E)
    requires Keyed(hash, less) && Same(less, was, e) && forall x | x in s :: !Same(less, x, was)
    ensures forall x | x in s :: !Same(less, x, e)
  {
    assert Same(less, e, was);
    forall x | x in s ensures !Same(less, x, e) {
      assert Same(less, x, e) && Same(less, e, was) ==> Same(less, x, was);
    }
  }

  // Equal elements find the same one: the table is a map keyed by equality.
  lemma AtMostOne<E(!new)>(hash: E -> int, less: (E, E) -> bool, s: seq<E>, x: E, y: E, e: E)
    requires Keyed(hash, less) && Distinct(less, s) && x in s && y in s && Same(less, x, e) && Same(less, y, e)
    ensures x == y
  {
    assert Same(less, e, y);
    assert Same(less, x, y);
    var i :| 0 <= i < |s| && s[i] == x;
    var j :| 0 <= j < |s| && s[j] == y;
    assert Same(less, s[i], s[j]);
  }

  // ---------- iteration ----------

  // The elements from place POS of bucket B on.
  ghost function From<E>(buckets: seq<seq<E>>, b: int, pos: int): (s: seq<E>)
    requires 0 <= b < |buckets| && 0 <= pos <= |buckets[b]|
  {
    buckets[b][pos..] + Flat(buckets[b + 1..])
  }

  lemma FromStart<E>(buckets: seq<seq<E>>)
    requires |buckets| > 0
    ensures From(buckets, 0, 0) == Flat(buckets)
  {}

  lemma NextBucket<E>(buckets: seq<seq<E>>, b: int)
    requires 0 <= b < |buckets|
    ensures b + 1 < |buckets| ==> From(buckets, b, |buckets[b]|) == From(buckets, b + 1, 0)
    ensures b + 1 == |buckets| ==> From(buckets, b, |buckets[b]|) == []
  {
    if b + 1 < |buckets| { assert buckets[b + 1..][1..] == buckets[b + 2..]; }
  }

  lemma HeadOf<E>(buckets: seq<seq<E>>, b: int, pos: int)
    requires 0 <= b < |buckets| && 0 <= pos < |buckets[b]|
    ensures From(buckets, b, pos) == [buckets[b][pos]] + From(buckets, b, pos + 1)
  {
    assert buckets[b][pos..] == [buckets[b][pos]] + buckets[b][pos + 1..];
  }

  // The loop of hash_next: past the end of its bucket, and past empty buckets.
  method SkipEmpty<E>(bs: seq<seq<E>>, b0: int, p0: int) returns (b: int, p: int)
    requires 0 <= b0 < |bs| && 0 <= p0 <= |bs[b0]|
    ensures b0 <= b <= |bs|
    ensures b < |bs| ==> 0 <= p < |bs[b]| && From(bs, b, p) == From(bs, b0, p0)
    ensures b == |bs| ==> From(bs, b0, p0) == []
  {
    b, p := b0, p0;
    while p == |bs[b]|
      invariant b0 <= b < |bs| && 0 <= p <= |bs[b]| && From(bs, b, p) == From(bs, b0, p0)
      decreases |bs| - b
    {
      NextBucket(bs, b);
      b := b + 1;
      if b >= |bs| { return; }
      p := 0;
    }
  }

  class Cursor<E(==, !new)> {
    const table: Table<E>
    var bucket: int
    var pos: int
    var ended: bool

    ghost predicate Valid()
      reads this, table
    {
      0 <= bucket < |table.buckets| && -1 <= pos < |table.buckets[bucket]|
    }

    // The elements that hash_next will still give.
    ghost function ToCome(): (s: seq<E>)
      requires Valid()
      reads this, table
    {
      if ended then [] else From(table.buckets, bucket, pos + 1)
    }

    constructor (t: Table<E>)
      requires t.Valid()
      ensures table == t && Valid() && ToCome() == Flat(t.buckets)
    {
      table, bucket, pos, ended := t, 0, -1, false;
      new;
      FromStart(t.buckets);
    }

    // Gives the elements in the order of the flattened buckets, each once.
    method Next() returns (r: Option<E>)
      requires Valid() && !ended
      modifies this
      ensures Valid() && (r == None <==> old(ToCome()) == [])
      ensures r.Some? ==> !ended && old(ToCome()) == [r.value] + ToCome()
      ensures r == None ==> ended
    {
      var b, p := SkipEmpty(table.buckets, bucket, pos + 1);
      if b == |table.buckets| {
        ended := true;
        return None;
      }
      HeadOf(table.buckets, b, p);
      bucket, pos := b, p;
      return Some(table.buckets[b][p]);
    }
  }
}
