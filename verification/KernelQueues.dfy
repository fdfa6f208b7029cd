// The lists of thread.c and synch.c as linked lists on the heap.  A thread has one
// list element, which serves the ready list and every waiter list; a call of
// cond_wait has one on its stack, for the list of its condition variable.

module KernelQueues {
  import opened Seqs
  import opened KernelModel
  import opened ListHeap

  datatype Queue = ReadyList | WaitersOf(s: SemaId) | CondList(c: Cond)

  datatype Node = ThreadNode(t: Tid) | CallNode(k: Ticket)

  // ---------- which elements are on which ring ----------

  // The nodes on each list, the ring of each, the element of each node, what list_entry makes of
  // an element, and the list that a linked element or a header is on.
  datatype Layout = Layout(content: map<Queue, seq<Node>>, rings: map<Queue, seq<Elem>>, elems: map<Node, Elem>,
                           entries: map<Elem, Node>, home: map<Elem, Queue>)

  // The elements between the headers of ring are those of the nodes c.
  ghost predicate Carries(ring: seq<Elem>, elems: map<Node, Elem>, c: seq<Node>) {
    |ring| == |c| + 2 && forall i | 0 <= i < |c| :: c[i] in elems && ring[i + 1] == elems[c[i]]
  }

  ghost predicate RingOk(y: Layout, q: Queue) {
    && (q in y.rings <==> q in y.content)
    && (q in y.rings ==>
          var ring := y.rings[q];
          && Carries(ring, y.elems, y.content[q]) && ring[0] !in y.entries && ring[|ring| - 1] !in y.entries
          && forall e :: e in ring ==> e in y.home && y.home[e] == q)
  }

  // A node's element finds its way back by list_entry.
  ghost predicate EntryOk(y: Layout, n: Node) {
    n in y.elems ==> y.elems[n] in y.entries && y.entries[y.elems[n]] == n
  }

  // An element at home on a list is on its ring.
  ghost predicate HomeOk(y: Layout, e: Elem) {
    e in y.home ==> y.home[e] in y.rings && e in y.rings[y.home[e]]
  }

  ghost predicate LayoutOk(y: Layout) {
    && (forall q {:trigger RingOk(y, q)} :: RingOk(y, q))
    && (forall n {:trigger EntryOk(y, n)} :: EntryOk(y, n))
    && (forall e: Elem {:trigger HomeOk(y, e)} | e in y.home :: HomeOk(y, e))
  }

  // The node is on no list.
  ghost predicate Loose(content: map<Queue, seq<Node>>, n: Node) {
    forall q | q in content :: n !in content[q]
  }

  lemma LooseAway(y: Layout, n: Node)
    requires LayoutOk(y) && n in y.elems && Loose(y.content, n)
    ensures y.elems[n] in y.entries && y.elems[n] !in y.home
  {
    var e := y.elems[n];
    assert EntryOk(y, n);
    if e in y.home {
      assert HomeOk(y, e) && RingOk(y, y.home[e]);
      NotCarried(y, y.home[e], n);
      assert false;
    }
  }

  lemma NotCarried(y: Layout, q: Queue, n: Node)
    requires LayoutOk(y) && n in y.elems && q in y.rings && q in y.content && n !in y.content[q]
    ensures y.elems[n] !in y.rings[q]
  {
    var ring, c := y.rings[q], y.content[q];
    assert RingOk(y, q) && EntryOk(y, n);
    forall i | 0 <= i < |ring| ensures ring[i] != y.elems[n] {
      if 0 < i < |ring| - 1 {
        assert c[i - 1] in c && ring[i - 1 + 1] == y.elems[c[i - 1]] && EntryOk(y, c[i - 1]);
      }
    }
  }

  // y with node n at the end of list q.
  ghost function Pushed(y: Layout, q: Queue, n: Node): (z: Layout)
    requires q in y.content && q in y.rings && n in y.elems && |y.rings[q]| >= 2
  {
    var r := y.rings[q];
    y.(content := y.content[q := y.content[q] + [n]], rings := y.rings[q := Grown(r, |r| - 1, [y.elems[n]])],
       home := y.home[y.elems[n] := q])
  }

  lemma PushedOk(y: Layout, q: Queue, n: Node)
    requires LayoutOk(y) && n in y.elems && y.elems[n] !in y.home
    requires q in y.content && q in y.rings && |y.rings[q]| >= 2
    ensures LayoutOk(Pushed(y, q, n))
  {
    var z, r, e := Pushed(y, q, n), y.rings[q], y.elems[n];
    var r1 := z.rings[q];
    assert forall d :: d in r1 <==> d in r || d == e;
    forall p ensures RingOk(z, p) {
      assert RingOk(y, p) && EntryOk(y, n);
    }
    forall m ensures EntryOk(z, m) { assert EntryOk(y, m); }
    forall d | d in z.home ensures HomeOk(z, d) { assert d != e ==> HomeOk(y, d); }
  }

  // y without the first node of list q.
  ghost function Popped(y: Layout, q: Queue): (z: Layout)
    requires q in y.content && q in y.rings && y.content[q] != [] && |y.rings[q]| > 2
  {
    var r := y.rings[q];
    y.(content := y.content[q := y.content[q][1..]], rings := y.rings[q := Shrunk(r, 1, 2)], home := y.home - {r[1]})
  }

  lemma PoppedOk(y: Layout, q: Queue)
    requires LayoutOk(y) && q in y.content && q in y.rings && y.content[q] != []
    requires |y.rings[q]| > 2 && NoDup(y.rings[q])
    ensures y.rings[q][1] in y.entries && y.entries[y.rings[q][1]] == y.content[q][0]
    ensures LayoutOk(Popped(y, q))
  {
    var z, r, c := Popped(y, q), y.rings[q], y.content[q];
    assert RingOk(y, q) && r[0 + 1] == y.elems[c[0]] && EntryOk(y, c[0]);
    PoppedSame(r, z.rings[q]);
    PoppedCarries(r, y.elems, c);
    forall p ensures RingOk(z, p) {
      assert RingOk(y, p) && y.home[r[1]] == q;
    }
    forall m ensures EntryOk(z, m) { assert EntryOk(y, m); }
    forall d | d in z.home ensures HomeOk(z, d) { assert HomeOk(y, d); }
  }

  lemma PoppedSame(r: seq<Elem>, r1: seq<Elem>)
    requires NoDup(r) && |r| > 2 && r1 == Shrunk(r, 1, 2)
    ensures forall e :: e in r1 <==> e in r && e != r[1]
    ensures r1[0] == r[0] && r1[|r1| - 1] == r[|r| - 1]
  {
    forall e | e in r && e != r[1] ensures e in r1 {
      var i :| 0 <= i < |r| && r[i] == e;
      assert r1[if i == 0 then 0 else i - 1] == e;
    }
  }

  lemma PoppedCarries(r: seq<Elem>, elems: map<Node, Elem>, c: seq<Node>)
    requires c != [] && Carries(r, elems, c)
    ensures Carries(Shrunk(r, 1, 2), elems, c[1..])
  {
    var r1 := Shrunk(r, 1, 2);
    forall i | 0 <= i < |c[1..]| ensures c[1..][i] in elems && r1[i + 1] == elems[c[1..][i]] {
      assert r[i + 1 + 1] == elems[c[i + 1]];
    }
  }

  lemma NewListOk(y: Layout, q: Queue, h: Elem, t: Elem)
    requires LayoutOk(y) && q !in y.content
    requires h !in y.home && t !in y.home && h !in y.entries && t !in y.entries
    ensures LayoutOk(y.(content := y.content[q := []], rings := y.rings[q := [h, t]], home := y.home[h := q][t := q]))
  {
    var z := y.(content := y.content[q := []], rings := y.rings[q := [h, t]], home := y.home[h := q][t := q]);
    assert RingOk(y, q) && h in [h, t] && t in [h, t];
    forall p ensures RingOk(z, p) { assert RingOk(y, p); }
    forall m ensures EntryOk(z, m) { assert EntryOk(y, m); }
    forall d | d in z.home ensures HomeOk(z, d) { assert d != h && d != t ==> HomeOk(y, d); }
  }

  lemma NewNodeOk(y: Layout, n: Node, e: Elem)
    requires LayoutOk(y) && n !in y.elems && e !in y.entries && e !in y.home
    ensures LayoutOk(y.(elems := y.elems[n := e], entries := y.entries[e := n]))
  {
    var z := y.(elems := y.elems[n := e], entries := y.entries[e := n]);
    forall p ensures RingOk(z, p) {
      assert RingOk(y, p);
      if p in y.rings { assert y.rings[p][0] in y.rings[p] && y.rings[p][|y.rings[p]| - 1] in y.rings[p]; }
    }
    forall m ensures EntryOk(z, m) { assert EntryOk(y, m); }
    forall d | d in z.home ensures HomeOk(z, d) { assert HomeOk(y, d); }
  }

  // ---------- the lists on the heap ----------

  class Queues {
    var lists: map<Queue, List>
    var elems: map<Node, Elem>
    var entries: map<Elem, Node>
    ghost var y: Layout
    ghost var all: set<List>
    ghost var nodes: set<Elem>

    ghost predicate ListOk(q: Queue)
      reads this, all, nodes
    {
      && (q in lists <==> q in y.rings)
      && (q in lists ==> lists[q] in all && lists[q].ring == y.rings[q] && lists[q].Inside(nodes))
    }

    ghost predicate Known(e: Elem)
      reads this
    {
      e in y.entries ==> e in nodes
    }

    ghost predicate Valid()
      reads this, all, nodes
    {
      && LayoutOk(y) && y.elems == elems && y.entries == entries
      && (forall q {:trigger ListOk(q)} :: ListOk(q))
      && (forall e: Elem {:trigger Known(e)} | e in y.entries :: Known(e))
    }

    constructor ()
      ensures Valid() && y.content == map[] && y.elems == map[] && all == {} && nodes == {}
    {
      lists, elems, entries := map[], map[], map[];
      y, all, nodes := Layout(map[], map[], map[], map[], map[]), {}, {};
    }

    // A new element or header is neither linked nor a node's.
    lemma NewIsLoose(e: Elem)
      requires Valid() && e !in nodes
      ensures e !in y.home && e !in y.entries
    {
      assert e in y.home ==> HomeOk(y, e) && ListOk(y.home[e]);
      assert e in y.entries ==> Known(e);
    }

    // list_init.
    method NewList(q: Queue)
      requires Valid() && q !in y.content
      modifies this
      ensures Valid() && y.content == old(y.content)[q := []] && y.elems == old(y.elems)
      ensures fresh(all - old(all)) && fresh(nodes - old(nodes))
    {
      var l := new List();
      assert l.ring == [l.head, l.tail];
      forall p ensures ListOk(p) { assert old(ListOk(p)); }
      forall e | e in y.entries ensures Known(e) { assert old(Known(e)); }
      Adopt(q, l);
    }

    method Adopt(q: Queue, l: List)
      requires Valid() && q !in y.content && l.Valid() && l.ring == [l.head, l.tail]
      requires l.head !in nodes && l.tail !in nodes
      modifies this
      ensures Valid() && y.content == old(y.content)[q := []] && y.elems == old(y.elems)
      ensures all == old(all) + {l} && nodes == old(nodes) + {l.head, l.tail}
    {
      NewIsLoose(l.head);
      NewIsLoose(l.tail);
      NewListOk(y, q, l.head, l.tail);
      assert RingOk(y, q) && ListOk(q);
      lists := lists[q := l];
      y := y.(content := y.content[q := []], rings := y.rings[q := l.ring], home := y.home[l.head := q][l.tail := q]);
      all, nodes := all + {l}, nodes + {l.head, l.tail};
      forall p ensures ListOk(p) { assert old(ListOk(p)); }
      forall e | e in y.entries ensures Known(e) { assert old(Known(e)); }
    }

    method NewNode(n: Node)
      requires Valid() && n !in y.elems
      modifies this
      ensures Valid() && y.content == old(y.content) && y.elems.Keys == old(y.elems).Keys + {n}
      ensures all == old(all) && fresh(nodes - old(nodes))
    {
      var e := new Elem();
      NewIsLoose(e);
      NewNodeOk(y, n, e);
      elems, entries := elems[n := e], entries[e := n];
      y, nodes := y.(elems := elems, entries := entries), nodes + {e};
      forall p ensures ListOk(p) { assert old(ListOk(p)); }
      forall d | d in y.entries ensures Known(d) { assert d != e ==> old(Known(d)); }
    }

    // list_empty.
    method IsEmpty(q: Queue) returns (b: bool)
      requires Valid() && q in y.content
      ensures b <==> y.content[q] == []
    {
      assert ListOk(q) && RingOk(y, q);
      var l := lists[q];
      assert Link(l.ring, 0);
      b := l.head.next == l.tail;
    }

    // An element that is on no list goes to the end of one; the other lists stay as they are.
    method PushOn(q: Queue, e: Elem)
      requires Valid() && q in lists && q in y.rings && e !in y.home && e in nodes && |y.rings[q]| >= 2
      modifies all, nodes
      ensures lists[q].Inside(nodes) && lists[q].ring == Grown(y.rings[q], |y.rings[q]| - 1, [e])
      ensures forall p | p != q :: ListOk(p)
    {
      var l := lists[q];
      assert ListOk(q) && RingOk(y, q);
      l.PushBack(e);
      forall p | p != q ensures ListOk(p) {
        assert old(ListOk(p)) && RingOk(y, p);
        if p in lists {
          assert lists[p].head in y.rings[p] && l.head in y.rings[q];
          lists[p].Untouched(y.rings[q] + [e]);
        }
      }
    }

    // The first element leaves a list; the other lists stay as they are.
    method PopOff(q: Queue) returns (e: Elem)
      requires Valid() && q in lists && q in y.rings && |y.rings[q]| > 2
      modifies all, nodes
      ensures e == y.rings[q][1] && lists[q].Inside(nodes) && lists[q].ring == Shrunk(y.rings[q], 1, 2)
      ensures forall p | p != q :: ListOk(p)
    {
      var l := lists[q];
      assert ListOk(q) && RingOk(y, q);
      e := l.PopFront();
      forall p | p != q ensures ListOk(p) {
        assert old(ListOk(p)) && RingOk(y, p);
        if p in lists {
          assert lists[p].head in y.rings[p] && l.head in y.rings[q];
          lists[p].Untouched(y.rings[q]);
        }
      }
    }

    // list_push_back of a node that is on no list.
    method Push(q: Queue, n: Node)
      requires Valid() && q in y.content && n in y.elems && Loose(y.content, n)
      modifies this, all, nodes
      ensures Valid() && y.content == old(y.content)[q := old(y.content)[q] + [n]] && y.elems == old(y.elems)
      ensures all == old(all) && nodes == old(nodes)
    {
      LooseAway(y, n);
      assert RingOk(y, q) && ListOk(q) && Known(y.elems[n]);
      PushedOk(y, q, n);
      PushOn(q, elems[n]);
      label linked:
      y := Pushed(y, q, n);
      forall p ensures ListOk(p) { assert p != q ==> old@linked(ListOk(p)); }
      forall d | d in y.entries ensures Known(d) { assert old(Known(d)); }
    }

    // list_pop_front, and list_entry of what it gives.
    method Pop(q: Queue) returns (n: Node)
      requires Valid() && q in y.content && y.content[q] != []
      modifies this, all, nodes
      ensures Valid() && n == old(y.content)[q][0] && y.content == old(y.content)[q := old(y.content)[q][1..]]
      ensures y.elems == old(y.elems) && all == old(all) && nodes == old(nodes)
    {
      assert RingOk(y, q) && ListOk(q);
      PoppedOk(y, q);
      var e := PopOff(q);
      n := entries[e];
      label unlinked:
      y := Popped(y, q);
      forall p ensures ListOk(p) { assert p != q ==> old@unlinked(ListOk(p)); }
      forall d | d in y.entries ensures Known(d) { assert old(Known(d)); }
    }
  }
}
