// lib/kernel/list.c on the heap: elements linked by prev and next between two
// headers.  The ghost sequence ring is what the links represent, headers included.

module ListHeap {
  import opened Seqs
  import opened RunMerge

  class Elem {
    var prev: Elem?
    var next: Elem?

    constructor ()
      ensures prev == null && next == null
    {
      prev, next := null, null;
    }
  }

  // r with its neighbouring stretches x to y and y to z exchanged.
  ghost function Exchange(r: seq<Elem>, x: nat, y: nat, z: nat): (s: seq<Elem>)
    requires x <= y <= z <= |r|
    ensures |s| == |r|
  {
    r[..x] + r[y..z] + r[x..y] + r[z..]
  }

  ghost predicate Link(r: seq<Elem>, i: int)
    reads r
  {
    0 <= i < |r| - 1 ==> r[i].next == r[i + 1] && r[i + 1].prev == r[i]
  }

  ghost predicate Linked(r: seq<Elem>)
    reads r
  {
    forall i {:trigger Link(r, i)} :: Link(r, i)
  }

  class List {
    const head: Elem
    const tail: Elem
    ghost var ring: seq<Elem>

    ghost predicate Valid()
      reads this, head, tail, ring
    {
      && |ring| >= 2 && ring[0] == head && ring[|ring| - 1] == tail
      && NoDup(ring) && Linked(ring) && head.prev == null && tail.next == null
    }

    // The interior elements, front to back.
    ghost function Elems(): (s: seq<Elem>)
      requires |ring| >= 2
      reads this
    {
      ring[1..|ring| - 1]
    }

    constructor ()
      ensures Valid() && Elems() == [] && fresh(head) && fresh(tail)
    {
      var h := new Elem();
      var t := new Elem();
      h.next := t;
      t.prev := h;
      head, tail, ring := h, t, [h, t];
    }

    // list_insert: BEFORE is at place i of the ring.
    method Insert(before: Elem, elem: Elem, ghost i: nat)
      requires Valid() && 0 < i < |ring| && ring[i] == before && elem !in ring
      modifies this, ring, elem
      ensures Valid() && ring == old(ring)[..i] + [elem] + old(ring)[i..]
    {
      ghost var r := ring;
      assert Link(r, i - 1);
      elem.prev := before.prev;
      elem.next := before;
      before.prev.next := elem;
      before.prev := elem;
      ring := r[..i] + [elem] + r[i..];
      forall j ensures Link(ring, j) {
        assert old(Link(r, j)) && old(Link(r, j - 1));
      }
    }

    method PushBack(elem: Elem)
      requires Valid() && elem !in ring
      modifies this, ring, elem
      ensures Valid() && Elems() == old(Elems()) + [elem] && ring == Grown(old(ring), |old(ring)| - 1, [elem])
    {
      Insert(tail, elem, |ring| - 1);
    }

    method PushFront(elem: Elem)
      requires Valid() && elem !in ring
      modifies this, ring, elem
      ensures Valid() && Elems() == [elem] + old(Elems())
    {
      ghost var r := ring;
      assert Link(ring, 0);
      Insert(head.next, elem, 1);
      assert ring == [head] + ([elem] + r[1..]);
    }

    // list_remove; the result is the element that followed.
    method Remove(elem: Elem, ghost i: nat) returns (after: Elem)
      requires Valid() && 0 < i < |ring| - 1 && ring[i] == elem
      modifies this, ring
      ensures Valid() && ring == old(ring)[..i] + old(ring)[i + 1..]
      ensures after == ring[i] && elem !in ring
    {
      ghost var r := ring;
      assert Link(r, i - 1) && Link(r, i);
      elem.prev.next := elem.next;
      elem.next.prev := elem.prev;
      after := elem.next;
      ring := r[..i] + r[i + 1..];
      forall j ensures Link(ring, j) {
        assert old(Link(r, j)) && old(Link(r, j + 1));
      }
    }

    method PopFront() returns (front: Elem)
      requires Valid() && Elems() != []
      modifies this, ring
      ensures Valid() && front == old(Elems())[0] && Elems() == old(Elems())[1..] && ring == Shrunk(old(ring), 1, 2)
    {
      assert Link(ring, 0);
      front := head.next;
      var _ := Remove(front, 1);
    }

    // All elements are in nodes.
    ghost predicate Inside(nodes: set<Elem>)
      reads this, nodes
    {
      head in nodes && tail in nodes && (forall e :: e in ring ==> e in nodes) && Valid()
    }

    // Another list that shares no element with this one.
    ghost predicate Apart(other: List)
      reads this, other, other.head, other.tail, other.ring
    {
      other != this && other.Valid() && forall e :: e in ring ==> e !in other.ring
    }

    // list_splice, FIRST at place p and LAST at place q of the list they are on,
    // BEFORE at place b of this one.  The stretch comes from this list, and then
    // BEFORE is outside it, or from a list apart from this one.
    method Splice(before: Elem, first: Elem, last: Elem, ghost from: List, ghost b: nat, ghost p: nat, ghost q: nat)
      requires Valid() && 0 < b < |ring| && ring[b] == before
      requires from == this ==> b < p || q <= b
      requires from != this ==> Apart(from)
      requires 0 < p <= q < |from.ring| && from.ring[p] == first && from.ring[q] == last
      modifies this, ring, from, from.ring
      ensures Valid()
      ensures from == this && b < p ==> ring == Exchange(old(ring), b, p, q)
      ensures from == this && q <= b ==> ring == Exchange(old(ring), p, q, b)
      ensures from != this ==> Apart(from)
      ensures from != this ==> ring == Grown(old(ring), b, old(from.ring)[p..q])
      ensures from != this ==> from.ring == Shrunk(old(from.ring), p, q)
    {
      ghost var r, t := from.ring, ring;
      assert from != this ==> t[0] !in r;
      if first == last {
        NoneMoved(r, t, b, p);
        return;
      }
      assert Link(r, q - 1);
      MoveLinks(before, first, last.prev, r, t, b, p, q);
      if from == this {
        Relabel(Regrouped(r, b, p, q));
      } else {
        MovedApart(r, t, b, p, q);
        Relabel(Grown(t, b, r[p..q]));
        from.Relabel(Shrunk(r, p, q));
      }
    }

    // The links already are those of the ring u.
    ghost method Relabel(u: seq<Elem>)
      requires |u| >= 2 && u[0] == head && u[|u| - 1] == tail
      requires NoDup(u) && Linked(u) && head.prev == null && tail.next == null
      modifies this`ring
      ensures Valid() && ring == u
    {
      ring := u;
    }

    // find_end_of_run on the stretch i to j of the ring.
    method FindEndOfRun(a: Elem, b: Elem, less: (Elem, Elem) -> bool, ghost i: nat, ghost j: nat)
      returns (e: Elem, ghost k: nat)
      requires Valid() && 0 < i < j < |ring| && ring[i] == a && ring[j] == b
      ensures k == i + RunLen(less, ring[i..j]) && i < k <= j && e == ring[k]
    {
      assert Link(ring, i);
      e, k := a.next, i + 1;
      assert ring[k - 1..j] == ring[i..j];
      while e != b && !less(e, e.prev)
        invariant i < k <= j && e == ring[k] && e.prev == ring[k - 1]
        invariant RunLen(less, ring[i..j]) == k - 1 - i + RunLen(less, ring[k - 1..j])
        decreases j - k
      {
        assert Link(ring, k) && Link(ring, k - 1);
        assert ring[k - 1..j][1..] == ring[k..j];
        e, k := e.next, k + 1;
      }
    }

    // inplace_merge of the stretches i to m and m to j of the ring.
    method InplaceMerge(a0: Elem, a1b0: Elem, b1: Elem, less: (Elem, Elem) -> bool,
                        ghost i: nat, ghost m: nat, ghost j: nat, ghost nodes: set<Elem>)
      requires Inside(nodes) && 0 < i < m < j < |ring|
      requires ring[i] == a0 && ring[m] == a1b0 && ring[j] == b1
      modifies this, nodes
      ensures Inside(nodes)
      ensures ring == old(ring)[..i] + Merge(less, old(ring)[i..m], old(ring)[m..j]) + old(ring)[j..]
    {
      ghost var r := ring;
      var a, b := a0, a1b0;
      ghost var x, y := i, m;
      while a != b && b != b1
        invariant Inside(nodes) && 0 < x <= y <= j < |ring| == |r| && ring[x] == a && ring[y] == b && ring[j] == b1
        invariant ring[j..] == r[j..]
        invariant Partly(less, ring, x, y, j) == Partly(less, r, i, m, j)
        decreases j - x
      {
        a, b, y := MergeTurn(a, b, less, x, y, j, nodes);
        x := x + 1;
      }
      MergeEnd(less, ring, x, y, j);
    }

    // One turn of the loop of inplace_merge.
    method MergeTurn(a0: Elem, a1b0: Elem, less: (Elem, Elem) -> bool, ghost x: nat, ghost y: nat, ghost j: nat,
                     ghost nodes: set<Elem>)
      returns (a: Elem, b: Elem, ghost z: nat)
      requires Inside(nodes) && 0 < x < y < j < |ring| && ring[x] == a0 && ring[y] == a1b0
      modifies this, nodes
      ensures Inside(nodes) && |ring| == |old(ring)| && x < z <= j && ring[x + 1] == a && ring[z] == b
      ensures ring[j..] == old(ring)[j..] && ring[j] == old(ring)[j]
      ensures Partly(less, ring, x + 1, z, j) == Partly(less, old(ring), x, y, j)
    {
      assert Link(ring, x) && Link(ring, y);
      if !less(a1b0, a0) {
        MergeKeep(less, ring, x, y, j);
        a, b, z := a0.next, a1b0, y;
      } else {
        a, b, z := a0, a1b0.next, y + 1;
        TakeOne(a, b, less, x, y, j, nodes);
      }
    }

    // The splice in the loop of inplace_merge.
    method TakeOne(a: Elem, b: Elem, ghost less: (Elem, Elem) -> bool, ghost x: nat, ghost y: nat, ghost j: nat,
                   ghost nodes: set<Elem>)
      requires Inside(nodes) && 0 < x < y < j < |ring| && ring[x] == a && ring[y + 1] == b && less(ring[y], ring[x])
      modifies this, nodes
      ensures Inside(nodes) && |ring| == |old(ring)| && ring[x + 1] == a && ring[y + 1] == b
      ensures ring[j..] == old(ring)[j..] && ring[j] == old(ring)[j]
      ensures Partly(less, ring, x + 1, y + 1, j) == Partly(less, old(ring), x, y, j)
    {
      ghost var r := ring;
      MergeTake(less, r, x, y, j);
      SpliceOne(a, b, x, y, nodes);
      assert ring == Exchange(r, x, y, y + 1);
    }

    method SpliceOne(a: Elem, b: Elem, ghost x: nat, ghost y: nat, ghost nodes: set<Elem>)
      requires Inside(nodes) && 0 < x < y < |ring| - 1 && ring[x] == a && ring[y + 1] == b
      modifies this, nodes
      ensures Inside(nodes) && |ring| == |old(ring)| && ring == Exchange(old(ring), x, y, y + 1)
    {
      assert Link(ring, y);
      ExchangeSame(ring, x, y, y + 1);
      Splice(a, b.prev, b, this, x, y, y + 1);
    }

    // One pass of list_sort over the whole list.
    method SortPass(less: (Elem, Elem) -> bool, ghost nodes: set<Elem>) returns (outputRunCnt: nat)
      requires Inside(nodes)
      modifies this, nodes
      ensures Inside(nodes) && |ring| == |old(ring)|
      ensures Elems() == Pass(less, old(Elems())) && outputRunCnt == Outputs(less, old(Elems()))
    {
      outputRunCnt := PassLoop(less, nodes);
      PassOver(less, old(ring), ring);
    }

    method PassLoop(less: (Elem, Elem) -> bool, ghost nodes: set<Elem>) returns (outputRunCnt: nat)
      requires Inside(nodes)
      modifies this, nodes
      ensures Inside(nodes) && |ring| == |old(ring)| && Passed(less, ring, |ring| - 1) == Passed(less, old(ring), 1)
      ensures outputRunCnt + Coming(less, ring, |ring| - 1) == Coming(less, old(ring), 1)
    {
      outputRunCnt := 0;
      assert Link(ring, 0);
      var a0 := head.next;
      ghost var x := 1;
      while a0 != tail
        invariant Inside(nodes) && |ring| == |old(ring)| && 0 < x < |ring| && ring[x] == a0
        invariant Passed(less, ring, x) == Passed(less, old(ring), 1)
        invariant outputRunCnt + Coming(less, ring, x) == Coming(less, old(ring), 1)
        decreases |ring| - x
      {
        outputRunCnt := outputRunCnt + 1;
        a0, x := PassTurn(a0, less, x, nodes);
      }
    }

    // One turn of the inner loop of list_sort: find a run and merge the next one, if there is one, into it.
    method PassTurn(a0: Elem, less: (Elem, Elem) -> bool, ghost x: nat, ghost nodes: set<Elem>)
      returns (b1: Elem, ghost j: nat)
      requires Inside(nodes) && 0 < x < |ring| - 1 && ring[x] == a0
      modifies this, nodes
      ensures Inside(nodes) && |ring| == |old(ring)| && x < j < |ring| && ring[j] == b1
      ensures Passed(less, ring, j) == Passed(less, old(ring), x)
      ensures 1 + Coming(less, ring, j) == Coming(less, old(ring), x)
    {
      var a1b0, m := FindEndOfRun(a0, tail, less, x, |ring| - 1);
      if a1b0 == tail {
        PassedOne(less, ring, x);
        return a1b0, m;
      }
      b1, j := MergeTwo(a0, a1b0, less, x, m, nodes);
    }

    // Find the second run of two and merge it into the first.
    method MergeTwo(a0: Elem, a1b0: Elem, less: (Elem, Elem) -> bool, ghost x: nat, ghost m: nat,
                    ghost nodes: set<Elem>)
      returns (b1: Elem, ghost j: nat)
      requires Inside(nodes) && 0 < x < m < |ring| - 1 && m == x + RunLen(less, ring[x..|ring| - 1])
      requires ring[x] == a0 && ring[m] == a1b0
      modifies this, nodes
      ensures Inside(nodes) && |ring| == |old(ring)| && x < j < |ring| && ring[j] == b1
      ensures Passed(less, ring, j) == Passed(less, old(ring), x)
      ensures 1 + Coming(less, ring, j) == Coming(less, old(ring), x)
    {
      b1, j := FindEndOfRun(a1b0, tail, less, m, |ring| - 1);
      PassedTwo(less, ring, x, m, j);
      InplaceMerge(a0, a1b0, b1, less, x, m, j, nodes);
    }

    // list_sort; passes counts the turns of its outer loop.
    method Sort(less: (Elem, Elem) -> bool, ghost dom: set<Elem>) returns (ghost passes: nat)
      requires Valid() && WeakOrder(less, dom) && Within(Elems(), dom)
      modifies this, ring
      ensures Valid() && Sorted(less, Elems()) && Stable(less, dom, old(Elems()), Elems())
      ensures passes <= Turns(Runs(less, old(Elems())))
    {
      ghost var s, nodes := Elems(), set e | e in ring;
      passes := 0;
      var outputRunCnt := 2;
      while outputRunCnt > 1
        invariant Inside(nodes) && |ring| == |old(ring)|
        invariant Within(Elems(), dom) && Stable(less, dom, s, Elems())
        invariant outputRunCnt <= 1 ==> Sorted(less, Elems())
        invariant outputRunCnt > 1 ==> passes + Turns(Runs(less, Elems())) <= Turns(Runs(less, s))
        invariant outputRunCnt <= 1 ==> passes <= Turns(Runs(less, s))
        decreases if outputRunCnt > 1 then 1 + Turns(Runs(less, Elems())) else 0
      {
        ghost var t := Elems();
        PassDone(less, dom, t);
        PassStable(less, dom, t);
        PassWithin(less, dom, t);
        StableTrans(less, dom, s, t, Pass(less, t));
        OutputsHalve(less, t);
        outputRunCnt := SortPass(less, nodes);
        passes := passes + 1;
      }
    }

    // list_reverse.
    method Reverse()
      requires Valid()
      modifies this, ring
      ensures Valid() && Elems() == Reversed(old(Elems()))
    {
      assert Link(ring, 0);
      if head.next != tail {
        TurnInterior();
        head.next, tail.prev := tail.prev, head.next;
        head.next.prev, tail.prev.next := tail.prev.next, head.next.prev;
        TurnedRound(ring);
      }
      ReversedRing(ring);
      ring := [head] + Reversed(Elems()) + [tail];
    }

    // The loop of list_reverse: swap prev and next of every interior element.
    method TurnInterior()
      requires Valid() && |ring| > 2
      modifies ring
      ensures forall i | 0 < i < |ring| - 1 :: ring[i].prev == ring[i + 1] && ring[i].next == ring[i - 1]
      ensures head.next == ring[1] && tail.prev == ring[|ring| - 2] && head.prev == null && tail.next == null
    {
      ghost var r, n := ring, |ring| - 1;
      assert Link(r, 0) && Link(r, n - 1);
      forall i | 0 < i < n ensures r[i].prev == r[i - 1] && r[i].next == r[i + 1] {
        assert Link(r, i) && Link(r, i - 1);
      }
      var e := head.next;
      ghost var k := 1;
      while e != tail
        invariant 0 < k <= n && e == r[k]
        invariant forall i | 0 < i < k :: r[i].prev == r[i + 1] && r[i].next == r[i - 1]
        invariant forall i | k <= i < n :: r[i].prev == r[i - 1] && r[i].next == r[i + 1]
        invariant head.next == r[1] && tail.prev == r[n - 1] && head.prev == null && tail.next == null
        decreases n - k
      {
        e.prev, e.next := e.next, e.prev;
        e := e.prev;
        k := k + 1;
      }
    }

    // list_unique; DUPLICATES is null or a list apart from this one.
    method Unique(less: (Elem, Elem) -> bool, duplicates: List?)
      requires Valid() && (duplicates != null ==> Apart(duplicates))
      modifies this, ring, duplicates, RingOf(duplicates)
      ensures Valid() && Elems() == Uniq(less, old(Elems()))
      ensures duplicates != null ==> Apart(duplicates)
      ensures duplicates != null ==> duplicates.Elems() == old(duplicates.Elems()) + Dups(less, old(Elems()))
    {
      assert Link(ring, 0);
      if head.next == tail {
        return;
      }
      ghost var nodes := set e | e in ring || e in RingOf(duplicates);
      ghost var k := UniqueLoop(less, duplicates, nodes);
      assert ring[1..k] + ring[k..|ring| - 1] == Elems();
    }

    // The loop of list_unique, on lists whose elements are all in nodes.
    method UniqueLoop(less: (Elem, Elem) -> bool, duplicates: List?, ghost nodes: set<Elem>) returns (ghost k: nat)
      requires Ready(duplicates, nodes) && |ring| > 2
      modifies this, duplicates, nodes
      ensures Ready(duplicates, nodes) && 0 < k == |ring| - 2
      ensures Kept(less, ring, k) == Kept(less, old(ring), 1)
      ensures duplicates != null ==>
        duplicates.Elems() + Gone(less, ring, k) == old(duplicates.Elems()) + Gone(less, old(ring), 1)
    {
      assert Link(ring, 0) && Link(ring, 1);
      var elem := head.next;
      k := 1;
      var next := elem.next;
      while next != tail
        invariant Ready(duplicates, nodes) && 0 < k < |ring| - 1 && elem == ring[k] && next == ring[k + 1]
        invariant Kept(less, ring, k) == Kept(less, old(ring), 1)
        invariant duplicates != null ==>
          duplicates.Elems() + Gone(less, ring, k) == old(duplicates.Elems()) + Gone(less, old(ring), 1)
        decreases |ring| - k
      {
        elem, k := UniqueTurn(elem, next, less, duplicates, k, nodes);
        assert Link(ring, k);
        next := elem.next;
      }
    }

    ghost predicate Ready(duplicates: List?, nodes: set<Elem>)
      reads this, duplicates, nodes
    {
      Inside(nodes) && (duplicates != null ==> duplicates.Inside(nodes) && Apart(duplicates))
    }

    // One turn of the loop of list_unique.
    method UniqueTurn(elem: Elem, next: Elem, less: (Elem, Elem) -> bool, duplicates: List?, ghost k: nat,
                      ghost nodes: set<Elem>)
      returns (kept: Elem, ghost z: nat)
      requires Ready(duplicates, nodes) && 0 < k && k + 2 < |ring| && elem == ring[k] && next == ring[k + 1]
      modifies this, duplicates, nodes
      ensures Ready(duplicates, nodes) && 0 < z < |ring| - 1 && kept == ring[z] && |ring| - z < |old(ring)| - k
      ensures Kept(less, ring, z) == Kept(less, old(ring), k)
      ensures duplicates != null ==>
        duplicates.Elems() + Gone(less, ring, z) == old(duplicates.Elems()) + Gone(less, old(ring), k)
    {
      UniqStep(less, ring, k);
      kept, z := elem, k;
      if !less(elem, next) && !less(next, elem) {
        MoveTo(next, duplicates, k + 1, nodes);
      } else {
        kept, z := next, k + 1;
      }
    }

    // list_remove, and list_push_back on DUPLICATES if there is such a list.
    method MoveTo(elem: Elem, duplicates: List?, ghost i: nat, ghost nodes: set<Elem>)
      requires Ready(duplicates, nodes) && 0 < i < |ring| - 1 && ring[i] == elem
      modifies this, duplicates, nodes
      ensures Ready(duplicates, nodes) && ring == Shrunk(old(ring), i, i + 1)
      ensures duplicates != null ==> duplicates.Elems() == old(duplicates.Elems()) + [elem]
    {
      RemoveApart(elem, duplicates, i);
      if duplicates != null {
        duplicates.PushApart(elem, this);
      }
    }

    // list_remove does not touch a list apart from this one.
    method RemoveApart(elem: Elem, ghost other: List?, ghost i: nat)
      requires Valid() && 0 < i < |ring| - 1 && ring[i] == elem && (other != null ==> Apart(other))
      modifies this, ring
      ensures Valid() && ring == Shrunk(old(ring), i, i + 1) && elem !in ring
      ensures forall e :: e in ring ==> e in old(ring)
      ensures other != null ==> Apart(other) && other.ring == old(other.ring) && elem !in other.ring
    {
      ghost var r := ring;
      assert elem in r;
      var _ := Remove(elem, i);
      assert forall e :: e in ring ==> e in r;
      if other != null {
        other.Untouched(r);
      }
    }

    // A list whose elements are none of those changed stays as it was.
    twostate lemma Untouched(changed: seq<Elem>)
      requires old(Valid()) && ring == old(ring)
      requires forall e :: e in ring ==> e !in changed
      requires forall e | e in old(ring) && e !in changed :: e.prev == old(e.prev) && e.next == old(e.next)
      ensures Valid()
    {
      assert head in ring && tail in ring;
      forall i ensures Link(ring, i) {
        assert old(Link(ring, i));
        if 0 <= i < |ring| - 1 {
          assert ring[i] in ring && ring[i + 1] in ring;
        }
      }
    }

    // list_push_back of an element that no other list has.
    method PushApart(elem: Elem, ghost other: List)
      requires Valid() && other.Apart(this) && other.Valid() && elem !in ring && elem !in other.ring
      modifies this, ring, elem
      ensures Valid() && Elems() == old(Elems()) + [elem] && forall e :: e in ring ==> e in old(ring) || e == elem
      ensures other.Apart(this) && other.Valid() && other.ring == old(other.ring)
    {
      ghost var r := ring;
      Insert(tail, elem, |ring| - 1);
      assert ring == r[..|r| - 1] + [elem] + r[|r| - 1..];
      assert forall e :: e in ring ==> e in r || e == elem;
      other.Untouched(r + [elem]);
    }
  }

  ghost function RingOf(l: List?): (r: seq<Elem>)
    reads l
  {
    if l == null then [] else l.ring
  }

  // What list_unique keeps and moves away of the ring r once it has come to place k.
  ghost function Kept(less: (Elem, Elem) -> bool, r: seq<Elem>, k: nat): (s: seq<Elem>)
    requires 0 < k < |r|
  {
    r[1..k] + Uniq(less, r[k..|r| - 1])
  }

  ghost function Gone(less: (Elem, Elem) -> bool, r: seq<Elem>, k: nat): (s: seq<Elem>)
    requires 0 < k < |r|
  {
    Dups(less, r[k..|r| - 1])
  }

  ghost function Reversed(s: seq<Elem>): (t: seq<Elem>) {
    seq(|s|, i requires 0 <= i < |s| => s[|s| - 1 - i])
  }

  lemma ReversedRing(r: seq<Elem>)
    requires |r| >= 2 && NoDup(r)
    ensures var t := [r[0]] + Reversed(r[1..|r| - 1]) + [r[|r| - 1]];
            NoDup(t) && t[1..|t| - 1] == Reversed(r[1..|r| - 1]) && (|r| == 2 ==> t == r)
  {
    var n := |r| - 1;
    var t := [r[0]] + Reversed(r[1..n]) + [r[n]];
    assert forall i | 0 < i < n :: t[i] == r[n - i];
  }

  // The links that list_reverse leaves.
  lemma TurnedRound(r: seq<Elem>)
    requires |r| > 2
    requires forall i | 1 <= i < |r| - 2 :: r[i].prev == r[i + 1]
    requires forall i | 2 <= i < |r| - 1 :: r[i].next == r[i - 1]
    requires r[0].next == r[|r| - 2] && r[|r| - 2].prev == r[0]
    requires r[|r| - 1].prev == r[1] && r[1].next == r[|r| - 1]
    ensures Linked([r[0]] + Reversed(r[1..|r| - 1]) + [r[|r| - 1]])
  {
    var n := |r| - 1;
    var t := [r[0]] + Reversed(r[1..n]) + [r[n]];
    assert forall i | 1 <= i < n :: t[i] == r[n - i];
    forall j ensures Link(t, j) {
      if 1 <= j < n - 1 {
        assert r[n - j].next == r[n - j - 1] && r[n - j - 1].prev == r[n - j - 1 + 1];
      }
    }
  }

  // One turn of the loop of list_unique, on the ring.
  lemma UniqStep(less: (Elem, Elem) -> bool, r: seq<Elem>, k: nat)
    requires 0 < k && k + 2 < |r|
    ensures Equiv(less, r[k], r[k + 1]) ==>
              var t := Shrunk(r, k + 1, k + 2);
              Kept(less, t, k) == Kept(less, r, k) && Gone(less, r, k) == [r[k + 1]] + Gone(less, t, k)
    ensures !Equiv(less, r[k], r[k + 1]) ==>
              Kept(less, r, k + 1) == Kept(less, r, k) && Gone(less, r, k + 1) == Gone(less, r, k)
  {
    var s := r[k..|r| - 1];
    if Equiv(less, r[k], r[k + 1]) {
      var t := Shrunk(r, k + 1, k + 2);
      assert t[k..|t| - 1] == [s[0]] + s[2..] && t[1..k] == r[1..k];
    } else {
      assert s[1..] == r[k + 1..|r| - 1] && r[1..k + 1] == r[1..k] + [s[0]];
    }
  }

  // The number of passes a list of k runs can take.
  function Turns(k: nat): (n: nat)
    ensures n > 0
  {
    if Log2Up(k) < 1 then 1 else Log2Up(k)
  }

  // What a pass makes of the ring r, and how many runs it is still to count, once it has come to place x.
  ghost function Passed(less: (Elem, Elem) -> bool, r: seq<Elem>, x: nat): (s: seq<Elem>)
    requires 0 < x < |r|
  {
    r[1..x] + Pass(less, r[x..|r| - 1])
  }

  ghost function Coming(less: (Elem, Elem) -> bool, r: seq<Elem>, x: nat): (k: nat)
    requires 0 < x < |r|
  {
    Outputs(less, r[x..|r| - 1])
  }

  // At the end of the list the pass over r0 is over.
  lemma PassOver(less: (Elem, Elem) -> bool, r0: seq<Elem>, r: seq<Elem>)
    requires |r| >= 2 && |r0| >= 2 && Passed(less, r, |r| - 1) == Passed(less, r0, 1)
    ensures r[1..|r| - 1] == Pass(less, r0[1..|r0| - 1]) && Coming(less, r, |r| - 1) == 0
    ensures Coming(less, r0, 1) == Outputs(less, r0[1..|r0| - 1])
  {
    assert r[|r| - 1..|r| - 1] == [];
    assert r0[1..1] + Pass(less, r0[1..|r0| - 1]) == Pass(less, r0[1..|r0| - 1]);
  }

  // One run left over.
  lemma PassedOne(less: (Elem, Elem) -> bool, r: seq<Elem>, x: nat)
    requires 0 < x < |r| - 1 && x + RunLen(less, r[x..|r| - 1]) == |r| - 1
    ensures Passed(less, r, |r| - 1) == Passed(less, r, x) && 1 + Coming(less, r, |r| - 1) == Coming(less, r, x)
  {
    assert r[1..x] + r[x..|r| - 1] == r[1..|r| - 1] && r[|r| - 1..|r| - 1] == [];
  }

  // Two runs merged.
  lemma PassedTwo(less: (Elem, Elem) -> bool, r: seq<Elem>, x: nat, m: nat, j: nat)
    requires 0 < x < m < j < |r| && m == x + RunLen(less, r[x..|r| - 1]) && j == m + RunLen(less, r[m..|r| - 1])
    ensures var t := r[..x] + Merge(less, r[x..m], r[m..j]) + r[j..];
            |t| == |r| && Passed(less, t, j) == Passed(less, r, x) && 1 + Coming(less, t, j) == Coming(less, r, x)
  {
    PassStep(less, r, x, m, j, |r| - 1);
    PassedWith(less, r, Merge(less, r[x..m], r[m..j]), x, j);
  }

  lemma PassedWith(less: (Elem, Elem) -> bool, r: seq<Elem>, w: seq<Elem>, x: nat, j: nat)
    requires 0 < x < j < |r| && |w| == j - x
    ensures var t := r[..x] + w + r[j..];
            && |t| == |r| && Coming(less, t, j) == Coming(less, r, j)
            && Passed(less, t, j) == r[1..x] + (w + Pass(less, r[j..|r| - 1]))
  {
    var t := r[..x] + w + r[j..];
    Replaced(r, w, Pass(less, r[j..|r| - 1]), x, j, |r| - 1);
    assert t[j..|t| - 1] == r[j..|r| - 1];
  }

  // One turn of the inner loop of list_sort, on the ring.
  lemma PassStep(less: (Elem, Elem) -> bool, r: seq<Elem>, x: nat, m: nat, j: nat, n: nat)
    requires 0 < x < m < j <= n < |r|
    requires m == x + RunLen(less, r[x..n]) && j == m + RunLen(less, r[m..n])
    ensures Pass(less, r[x..n]) == Merge(less, r[x..m], r[m..j]) + Pass(less, r[j..n])
    ensures Outputs(less, r[x..n]) == 1 + Outputs(less, r[j..n])
  {
    SubSlice(r, x, n, m, j);
    SubSlice(r, x, n, x, m);
    SubSlice(r, x, n, j, n);
    PassUnfold(less, r[x..n], m - x, j - x, r[x..m], r[m..j], r[j..n], r[m..n]);
  }

  lemma Replaced(r: seq<Elem>, w: seq<Elem>, p: seq<Elem>, x: nat, j: nat, n: nat)
    requires 0 < x < j <= n < |r| && |w| == j - x
    ensures var t := r[..x] + w + r[j..];
            |t| == |r| && t[j..n] == r[j..n] && t[1..j] + p == r[1..x] + (w + p)
  {
    var t := r[..x] + w + r[j..];
    assert t[1..j] == r[1..x] + w;
  }

  // The list up to j once the stretches x to y and y to j are merged.
  ghost function Partly(less: (Elem, Elem) -> bool, r: seq<Elem>, x: nat, y: nat, j: nat): (s: seq<Elem>)
    requires x <= y <= j <= |r|
  {
    r[..x] + Merge(less, r[x..y], r[y..j])
  }

  // The two turns of the loop of inplace_merge, on the ring.
  lemma MergeKeep(less: (Elem, Elem) -> bool, r: seq<Elem>, x: nat, y: nat, j: nat)
    requires x < y < j < |r| && !less(r[y], r[x])
    ensures Partly(less, r, x + 1, y, j) == Partly(less, r, x, y, j)
  {
    assert r[x..y][1..] == r[x + 1..y] && r[..x + 1] == r[..x] + [r[x]];
  }

  lemma MergeTake(less: (Elem, Elem) -> bool, r: seq<Elem>, x: nat, y: nat, j: nat)
    requires x < y < j < |r| && less(r[y], r[x])
    ensures var t := Exchange(r, x, y, y + 1);
            && Partly(less, t, x + 1, y + 1, j) == Partly(less, r, x, y, j)
            && t[x + 1] == r[x] && t[y + 1] == r[y + 1] && t[j] == r[j] && t[j..] == r[j..]
  {
    OneTaken(r, x, y, j);
  }

  lemma OneTaken(r: seq<Elem>, x: nat, y: nat, j: nat)
    requires x < y < j < |r|
    ensures var t := Exchange(r, x, y, y + 1);
            && t[x + 1..y + 1] == r[x..y] && t[y + 1..j] == r[y..j][1..] && t[..x + 1] == r[..x] + [r[y]]
            && t[x + 1] == r[x] && t[y + 1] == r[y + 1] && t[j] == r[j] && t[j..] == r[j..]
  {}

  lemma MergeEnd(less: (Elem, Elem) -> bool, r: seq<Elem>, x: nat, y: nat, j: nat)
    requires x <= y <= j <= |r| && (x == y || y == j)
    ensures r == Partly(less, r, x, y, j) + r[j..]
  {
    assert r[x..y] + r[y..j] == r[x..j];
    assert Merge(less, r[x..y], r[y..j]) == r[x..j];
  }

  // list_splice of the stretch p to q of the ring r before place b of the ring t.
  method MoveLinks(before: Elem, first: Elem, end: Elem, ghost r: seq<Elem>, ghost t: seq<Elem>,
                   ghost b: nat, ghost p: nat, ghost q: nat)
    requires NoDup(r) && NoDup(t) && Linked(r) && Linked(t)
    requires 0 < p < q < |r| && r[p] == first && r[q - 1] == end && 0 < b < |t| && t[b] == before
    requires r == t ==> b < p || q <= b
    requires r != t ==> forall e :: e in t ==> e !in r
    modifies r, t
    ensures r == t ==> Linked(Regrouped(r, b, p, q))
    ensures r != t ==> Linked(Grown(t, b, r[p..q])) && Linked(Shrunk(r, p, q))
    ensures r[0].prev == old(r[0].prev) && r[|r| - 1].next == old(r[|r| - 1].next)
    ensures t[0].prev == old(t[0].prev) && t[|t| - 1].next == old(t[|t| - 1].next)
  {
    assert Link(r, p - 1) && Link(r, q - 1) && Link(t, b - 1);
    assert t[b] in t && r[p] in r && t[0] in t && t[|t| - 1] in t && r[0] in r && r[|r| - 1] in r;
    ghost var d := if r == t && b == q then r[p - 1] else t[b - 1];
    forall i | 0 <= i < |r| - 1 ensures r[i].next == r[i + 1] && r[i + 1].prev == r[i] { assert Link(r, i); }
    forall i | 0 <= i < |t| - 1 ensures t[i].next == t[i + 1] && t[i + 1].prev == t[i] { assert Link(t, i); }
    Relink(before, first, end, r[p - 1], r[q], d, r, t);
    assert Changed(r, before, first, end, r[p - 1], r[q], d) && Changed(t, before, first, end, r[p - 1], r[q], d);
    if r == t {
      RelinkedWithin(r, b, p, q);
      RegroupedLinked(r, b, p, q);
    } else {
      RelinkedAcross(r, t, b, p, q);
      Moved(r, t, b, p, q);
    }
  }

  // The six pointer assignments of list_splice; a and c are the neighbours of the
  // stretch, d is the element before BEFORE once the stretch is out.
  method Relink(before: Elem, first: Elem, end: Elem, ghost a: Elem, ghost c: Elem, ghost d: Elem,
                ghost r: seq<Elem>, ghost t: seq<Elem>)
    requires first.prev == a && end.next == c && before != first && if before == c then d == a else before.prev == d
    modifies {before, first, end, a, c, d}
    ensures forall i | 0 <= i < |r| :: r[i].next == NextAfter(r[i], old(r[i].next), before, first, end, a, c, d)
    ensures forall i | 0 <= i < |r| :: r[i].prev == PrevAfter(r[i], old(r[i].prev), before, first, end, a, c, d)
    ensures forall i | 0 <= i < |t| :: t[i].next == NextAfter(t[i], old(t[i].next), before, first, end, a, c, d)
    ensures forall i | 0 <= i < |t| :: t[i].prev == PrevAfter(t[i], old(t[i].prev), before, first, end, a, c, d)
  {
    first.prev.next := end.next;
    assert end.next == c;
    end.next.prev := first.prev;
    assert before.prev == d;
    first.prev := before.prev;
    end.next := before;
    before.prev.next := first;
    before.prev := end;
    assert forall e: Elem | old(allocated(e)) :: e.next == NextAfter(e, old(e.next), before, first, end, a, c, d);
    assert forall e: Elem | old(allocated(e)) :: e.prev == PrevAfter(e, old(e.prev), before, first, end, a, c, d);
  }

  ghost function NextAfter(e: Elem, was: Elem?, before: Elem, first: Elem, end: Elem, a: Elem, c: Elem,
                           d: Elem): (n: Elem?) {
    if e == d then first else if e == end then before else if e == a then c else was
  }

  ghost function PrevAfter(e: Elem, was: Elem?, before: Elem, first: Elem, end: Elem, a: Elem, c: Elem,
                           d: Elem): (p: Elem?) {
    if e == before then end else if e == first then d else if e == c then a else was
  }

  // The new links of the ring r of the stretch and of the ring t of BEFORE, when they are two.
  lemma LinksOfStretch(r: seq<Elem>, t: seq<Elem>, b: nat, p: nat, q: nat, i: nat)
    requires NoDup(r) && 0 < b < |t| && 0 < p < q < |r| && t[b] !in r && t[b - 1] !in r && i < |r| - 1
    ensures NextAfter(r[i], r[i + 1], t[b], r[p], r[q - 1], r[p - 1], r[q], t[b - 1])
            == if i == q - 1 then t[b] else if i == p - 1 then r[q] else r[i + 1]
    ensures PrevAfter(r[i + 1], r[i], t[b], r[p], r[q - 1], r[p - 1], r[q], t[b - 1])
            == if i + 1 == p then t[b - 1] else if i + 1 == q then r[p - 1] else r[i]
  {}

  lemma LinksOfBefore(r: seq<Elem>, t: seq<Elem>, b: nat, p: nat, q: nat, i: nat)
    requires NoDup(t) && 0 < b < |t| && 0 < p < q < |r| && i < |t| - 1
    requires r[p] !in t && r[q - 1] !in t && r[p - 1] !in t && r[q] !in t
    ensures NextAfter(t[i], t[i + 1], t[b], r[p], r[q - 1], r[p - 1], r[q], t[b - 1])
         == if i == b - 1 then r[p] else t[i + 1]
    ensures PrevAfter(t[i + 1], t[i], t[b], r[p], r[q - 1], r[p - 1], r[q], t[b - 1])
         == if i + 1 == b then r[q - 1] else t[i]
  {}

  // The new links when they are one.
  lemma LinksWithin(r: seq<Elem>, b: nat, p: nat, q: nat, i: nat)
    requires NoDup(r) && 0 < b < |r| && 0 < p < q < |r| && (b < p || q <= b) && i < |r| - 1
    ensures var d := if b == q then r[p - 1] else r[b - 1];
      && NextAfter(r[i], r[i + 1], r[b], r[p], r[q - 1], r[p - 1], r[q], d)
         == (if b == q then r[i + 1] else if i == b - 1 then r[p] else if i == q - 1 then r[b]
             else if i == p - 1 then r[q] else r[i + 1])
      && PrevAfter(r[i + 1], r[i], r[b], r[p], r[q - 1], r[p - 1], r[q], d)
         == (if b == q then r[i] else if i + 1 == b then r[q - 1] else if i + 1 == p then r[b - 1]
             else if i + 1 == q then r[p - 1] else r[i])
  {}

  // The links of a ring r that was linked, after the assignments.
  ghost predicate Changed(r: seq<Elem>, before: Elem, first: Elem, end: Elem, a: Elem, c: Elem, d: Elem)
    reads r
  {
    && (forall i | 0 <= i < |r| - 1 :: r[i].next == NextAfter(r[i], r[i + 1], before, first, end, a, c, d))
    && (forall i | 0 < i < |r| :: r[i].prev == PrevAfter(r[i], r[i - 1], before, first, end, a, c, d))
  }

  // What the assignments leave on one ring.
  lemma RelinkedWithin(r: seq<Elem>, b: nat, p: nat, q: nat)
    requires NoDup(r) && 0 < b < |r| && 0 < p < q < |r| && (b < p || q <= b)
    requires Changed(r, r[b], r[p], r[q - 1], r[p - 1], r[q], if b == q then r[p - 1] else r[b - 1])
    ensures if b < p then Swapped(r, b, p, q) else Swapped(r, p, q, b)
  {
    forall i: nat | i < |r| - 1
      ensures r[i].next == (if b == q then r[i + 1] else if i == b - 1 then r[p] else if i == q - 1 then r[b]
         else if i == p - 1 then r[q] else r[i + 1])
      ensures r[i + 1].prev == (if b == q then r[i] else if i + 1 == b then r[q - 1] else if i + 1 == p then r[b - 1]
         else if i + 1 == q then r[p - 1] else r[i])
    {
      LinksWithin(r, b, p, q, i);
    }
  }

  // What they leave on two.
  lemma RelinkedAcross(r: seq<Elem>, t: seq<Elem>, b: nat, p: nat, q: nat)
    requires NoDup(r) && NoDup(t) && 0 < b < |t| && 0 < p < q < |r|
    requires forall e :: e in t ==> e !in r
    requires Changed(r, t[b], r[p], r[q - 1], r[p - 1], r[q], t[b - 1])
      && Changed(t, t[b], r[p], r[q - 1], r[p - 1], r[q], t[b - 1])
    ensures Across(r, t, b, p, q)
  {
    assert t[b] in t && t[b - 1] in t && r[p] in r && r[q] in r && r[p - 1] in r && r[q - 1] in r;
    forall i: nat | i < |r| - 1
      ensures r[i].next == if i == q - 1 then t[b] else if i == p - 1 then r[q] else r[i + 1]
      ensures r[i + 1].prev == if i + 1 == p then t[b - 1] else if i + 1 == q then r[p - 1] else r[i]
    {
      LinksOfStretch(r, t, b, p, q, i);
    }
    forall i: nat | i < |t| - 1
      ensures t[i].next == if i == b - 1 then r[p] else t[i + 1]
      ensures t[i + 1].prev == if i + 1 == b then r[q - 1] else t[i]
    {
      LinksOfBefore(r, t, b, p, q, i);
    }
  }

  // t with the stretch s before its place b, and r without its stretch p to q.
  ghost function Grown(t: seq<Elem>, b: nat, s: seq<Elem>): (u: seq<Elem>)
    requires b <= |t|
  {
    t[..b] + s + t[b..]
  }

  ghost function Shrunk(r: seq<Elem>, p: nat, q: nat): (u: seq<Elem>)
    requires p <= q <= |r|
  {
    r[..p] + r[q..]
  }

  // The links once the stretch p to q of r stands before place b of t.
  ghost predicate Across(r: seq<Elem>, t: seq<Elem>, b: nat, p: nat, q: nat)
    requires 0 < p < q < |r| && 0 < b < |t|
    reads r, t
  {
    && (forall i | 0 <= i < |r| - 1 && i != p - 1 && i != q - 1 :: r[i].next == r[i + 1])
    && (forall i | 0 < i < |r| && i != p && i != q :: r[i].prev == r[i - 1])
    && (forall i | 0 <= i < |t| - 1 && i != b - 1 :: t[i].next == t[i + 1])
    && (forall i | 0 < i < |t| && i != b :: t[i].prev == t[i - 1])
    && r[p - 1].next == r[q] && r[q].prev == r[p - 1]
    && t[b - 1].next == r[p] && r[p].prev == t[b - 1]
    && r[q - 1].next == t[b] && t[b].prev == r[q - 1]
  }

  lemma MovedApart(r: seq<Elem>, t: seq<Elem>, b: nat, p: nat, q: nat)
    requires p < q < |r| && b < |t| && NoDup(r) && NoDup(t) && forall e :: e in t ==> e !in r
    ensures NoDup(Grown(t, b, r[p..q])) && NoDup(Shrunk(r, p, q))
    ensures forall e :: e in Grown(t, b, r[p..q]) ==> e !in Shrunk(r, p, q)
  {
    var g, s := Grown(t, b, r[p..q]), Shrunk(r, p, q);
    assert forall i | 0 <= i < |g| ::
      if i < b then g[i] == t[i] else if i < b + q - p then g[i] == r[i - b + p] else g[i] == t[i - (q - p)];
    assert forall i | 0 <= i < |s| :: if i < p then s[i] == r[i] else s[i] == r[i + q - p];
    forall i, j | 0 <= i < |g| && 0 <= j < |g| && i != j ensures g[i] != g[j] {
      assert i < b ==> t[i] !in r;
      assert j < b ==> t[j] !in r;
      assert b + q - p <= i ==> t[i - (q - p)] !in r;
      assert b + q - p <= j ==> t[j - (q - p)] !in r;
    }
    forall i, j | 0 <= i < |g| && 0 <= j < |s| ensures g[i] != s[j] {
      assert i < b ==> t[i] !in r;
      assert b + q - p <= i ==> t[i - (q - p)] !in r;
    }
  }

  lemma Moved(r: seq<Elem>, t: seq<Elem>, b: nat, p: nat, q: nat)
    requires 0 < p < q < |r| && 0 < b < |t| && Across(r, t, b, p, q)
    ensures Linked(Grown(t, b, r[p..q])) && Linked(Shrunk(r, p, q))
  {
    Stretch(r, 0, p);
    Stretch(r, p, q);
    Stretch(r, q, |r|);
    Stretch(t, 0, b);
    Stretch(t, b, |t|);
    assert r[0..p] == r[..p] && r[q..|r|] == r[q..] && t[0..b] == t[..b] && t[b..|t|] == t[b..];
    LinkedAppend(r[..p], r[q..]);
    LinkedAppend(t[..b], r[p..q]);
    LinkedAppend(t[..b] + r[p..q], t[b..]);
  }

  // The links between x - 1 and z are those of the list with its stretches x to
  // y and y to z exchanged; the other links are those of r.
  ghost predicate Swapped(r: seq<Elem>, x: nat, y: nat, z: nat)
    requires 0 < x < y <= z < |r|
    reads r
  {
    && (forall i | 0 <= i < |r| - 1 && i != x - 1 && i != y - 1 && i != z - 1 :: r[i].next == r[i + 1])
    && (forall i | 0 < i < |r| && i != x && i != y && i != z :: r[i].prev == r[i - 1])
    && (y < z ==> r[x - 1].next == r[y] && r[y].prev == r[x - 1])
    && (y < z ==> r[z - 1].next == r[x] && r[x].prev == r[z - 1])
    && (y == z ==> r[x - 1].next == r[x] && r[x].prev == r[x - 1])
    && r[y - 1].next == r[z] && r[z].prev == r[y - 1]
  }

  lemma ExchangeNone(r: seq<Elem>, x: nat, y: nat)
    requires x <= y <= |r|
    ensures Exchange(r, x, y, y) == r && Exchange(r, x, x, y) == r
  {
  }

  lemma ExchangeSame(r: seq<Elem>, x: nat, y: nat, z: nat)
    requires x <= y <= z <= |r|
    ensures forall e :: e in Exchange(r, x, y, z) ==> e in r
  {}

  lemma ExchangeEnds(r: seq<Elem>, x: nat, y: nat, z: nat)
    requires 0 < x <= y <= z < |r| && NoDup(r)
    ensures NoDup(Exchange(r, x, y, z))
    ensures Exchange(r, x, y, z)[0] == r[0] && Exchange(r, x, y, z)[|r| - 1] == r[|r| - 1]
    ensures y == z || x == y ==> Exchange(r, x, y, z) == r
  {
    ExchangeNone(r, x, z);
  }

  lemma LinkedAppend(a: seq<Elem>, b: seq<Elem>)
    requires Linked(a) && Linked(b)
    requires a != [] && b != [] ==> a[|a| - 1].next == b[0] && b[0].prev == a[|a| - 1]
    ensures Linked(a + b)
  {
    forall i ensures Link(a + b, i) {
      assert Link(a, i) && Link(b, i - |a|);
    }
  }

  // A stretch with its inner links in place is linked.
  lemma Stretch(r: seq<Elem>, lo: nat, hi: nat)
    requires lo <= hi <= |r|
    requires forall i | lo <= i < hi - 1 :: r[i].next == r[i + 1]
    requires forall i | lo < i < hi :: r[i].prev == r[i - 1]
    ensures Linked(r[lo..hi])
  {
    forall i ensures Link(r[lo..hi], i) {
      if 0 <= i < hi - lo - 1 {
        assert r[lo + i].next == r[lo + i + 1] && r[lo + i + 1].prev == r[lo + i + 1 - 1];
      }
    }
  }

  // The ring that list_splice leaves within one list.
  ghost function Regrouped(r: seq<Elem>, b: nat, p: nat, q: nat): (u: seq<Elem>)
    requires 0 < b < |r| && 0 < p < q < |r| && (b < p || q <= b) && NoDup(r)
    ensures NoDup(u) && |u| == |r| && u[0] == r[0] && u[|r| - 1] == r[|r| - 1]
  {
    if b < p then ExchangeEnds(r, b, p, q); Exchange(r, b, p, q)
    else ExchangeEnds(r, p, q, b); Exchange(r, p, q, b)
  }

  lemma RegroupedLinked(r: seq<Elem>, b: nat, p: nat, q: nat)
    requires 0 < b < |r| && 0 < p < q < |r| && (b < p || q <= b) && NoDup(r)
    requires if b < p then Swapped(r, b, p, q) else Swapped(r, p, q, b)
    ensures Linked(Regrouped(r, b, p, q))
  {
    if b < p { Exchanged(r, b, p, q); } else { Exchanged(r, p, q, b); }
  }

  // Moving the empty stretch changes nothing.
  lemma NoneMoved(r: seq<Elem>, t: seq<Elem>, b: nat, p: nat)
    requires b <= |t| && p <= |r|
    ensures Grown(t, b, r[p..p]) == t && Shrunk(r, p, p) == r
    ensures b <= p ==> Exchange(r, b, p, p) == r
    ensures p <= b <= |r| ==> Exchange(r, p, p, b) == r
  {
    if b <= p { ExchangeNone(r, b, p); }
    if p <= b <= |r| { ExchangeNone(r, p, b); }
    assert t[..b] + t[b..] == t && r[p..p] == [];
  }

  lemma Exchanged(r: seq<Elem>, x: nat, y: nat, z: nat)
    requires 0 < x < y <= z < |r| && Swapped(r, x, y, z)
    ensures Linked(Exchange(r, x, y, z))
  {
    Stretch(r, 0, x);
    Stretch(r, x, y);
    Stretch(r, y, z);
    Stretch(r, z, |r|);
    assert r[0..x] == r[..x] && r[z..|r|] == r[z..];
    LinkedAppend(r[..x], r[y..z]);
    LinkedAppend(r[..x] + r[y..z], r[x..y]);
    LinkedAppend(r[..x] + r[y..z] + r[x..y], r[z..]);
  }
}
