// The file system: ownership of sectors, for a set of live inodes.

module FsOwners {
  import opened Extents
  import opened BitRuns
  import opened FsModel

  // Sector K belongs to the inode at S.
  predicate Owns(headers: map<int, Header>, s: int, k: int) {
    s in headers && (k == s || InExtent(headers[s], k))
  }

  // All of an inode's sectors are marked, and its data does not run over its own inode.
  predicate Solid(used: seq<bool>, headers: map<int, Header>, s: int) {
    && s in headers && 0 <= headers[s].length && !InExtent(headers[s], s)
    && RunAt(used, s, 1, true) && RunAt(used, headers[s].start, Sectors(headers[s].length), true)
  }

  ghost predicate Apart(headers: map<int, Header>, s: int, t: int) {
    forall k :: Owns(headers, s, k) ==> !Owns(headers, t, k)
  }

  ghost predicate Owners(used: seq<bool>, headers: map<int, Header>, live: set<int>) {
    && (forall s | s in live :: Solid(used, headers, s))
    && (forall s, t | s in live && t in live && s != t :: Apart(headers, s, t))
  }

  lemma OwnedUsed(used: seq<bool>, headers: map<int, Header>, s: int, k: int)
    requires Solid(used, headers, s) && Owns(headers, s, k)
    ensures 0 <= k < |used| && used[k]
  {}

  lemma Fewer(used: seq<bool>, headers: map<int, Header>, live: set<int>, live1: set<int>)
    requires Owners(used, headers, live) && live1 <= live
    ensures Owners(used, headers, live1)
  {}

  // Changing headers outside the live sectors and marking more sectors harms nobody.
  ghost predicate Keeps(used: seq<bool>, headers: map<int, Header>, used1: seq<bool>, headers1: map<int, Header>,
                        s: int) {
    && s in headers && s in headers1 && headers1[s] == headers[s] && |used1| == |used|
    && forall k | 0 <= k < |used| && Owns(headers, s, k) && used[k] :: used1[k]
  }

  lemma SolidKept(used: seq<bool>, headers: map<int, Header>, used1: seq<bool>, headers1: map<int, Header>, s: int)
    requires Solid(used, headers, s) && Keeps(used, headers, used1, headers1, s)
    ensures Solid(used1, headers1, s)
  {
    var h := headers[s];
    forall k | h.start <= k < h.start + Sectors(h.length) ensures used1[k] {
      assert Owns(headers, s, k);
      OwnedUsed(used, headers, s, k);
    }
    assert Owns(headers, s, s);
  }

  lemma ApartKept(headers: map<int, Header>, headers1: map<int, Header>, s: int, t: int)
    requires Apart(headers, s, t) && s in headers && t in headers
    requires s in headers1 && t in headers1 && headers1[s] == headers[s] && headers1[t] == headers[t]
    ensures Apart(headers1, s, t)
  {
    forall k | Owns(headers1, s, k) ensures !Owns(headers1, t, k) { assert Owns(headers, s, k); }
  }

  lemma OwnersKept(used: seq<bool>, headers: map<int, Header>, used1: seq<bool>, headers1: map<int, Header>,
                   live: set<int>)
    requires Owners(used, headers, live) && forall s | s in live :: Keeps(used, headers, used1, headers1, s)
    ensures Owners(used1, headers1, live)
  {
    forall s | s in live ensures Solid(used1, headers1, s) {
      assert Solid(used, headers, s) && Keeps(used, headers, used1, headers1, s);
      SolidKept(used, headers, used1, headers1, s);
    }
    forall s, t | s in live && t in live && s != t ensures Apart(headers1, s, t) {
      assert Apart(headers, s, t) && Solid(used, headers, s) && Solid(used, headers, t);
      assert Keeps(used, headers, used1, headers1, s) && Keeps(used, headers, used1, headers1, t);
      ApartKept(headers, headers1, s, t);
    }
  }

  // ---------- a new inode on free sectors ----------

  // S and the extent of H were free.
  ghost predicate WasFree(used: seq<bool>, s: int, h: Header) {
    && 0 <= h.length && !InExtent(h, s)
    && RunAt(used, s, 1, false) && RunAt(used, h.start, Sectors(h.length), false)
  }

  function Marked(used: seq<bool>, s: int, h: Header): (r: seq<bool>)
    requires RunAt(used, s, 1, false) && RunAt(used, h.start, Sectors(h.length), false)
  {
    Filled(Filled(used, s, 1, true), h.start, Sectors(h.length), true)
  }

  lemma NewKeeps(used: seq<bool>, headers: map<int, Header>, s: int, h: Header, used1: seq<bool>, t: int)
    requires WasFree(used, s, h) && Solid(used, headers, t) && |used1| == |used|
    requires forall k | 0 <= k < |used| && used[k] :: used1[k]
    ensures t != s && Keeps(used, headers, used1, NewHeaders(headers, s, h), t)
  {
    OwnedUsed(used, headers, t, t);
  }

  lemma NewSolid(used: seq<bool>, headers: map<int, Header>, s: int, h: Header)
    requires WasFree(used, s, h)
    ensures Solid(Marked(used, s, h), NewHeaders(headers, s, h), s)
  {}

  lemma NewApart(used: seq<bool>, headers: map<int, Header>, s: int, h: Header, t: int)
    requires WasFree(used, s, h) && Solid(used, headers, t)
    ensures Apart(NewHeaders(headers, s, h), s, t) && Apart(NewHeaders(headers, s, h), t, s)
  {
    var headers1 := NewHeaders(headers, s, h);
    NewKeeps(used, headers, s, h, used, t);
    forall k | Owns(headers1, s, k) ensures !Owns(headers1, t, k) {
      if Owns(headers1, t, k) {
        assert Owns(headers, t, k);
        OwnedUsed(used, headers, t, k);
      }
    }
    forall k | Owns(headers1, t, k) ensures !Owns(headers1, s, k) {
      assert Owns(headers, t, k);
      OwnedUsed(used, headers, t, k);
    }
  }

  lemma NewOwner(used: seq<bool>, headers: map<int, Header>, live: set<int>, s: int, h: Header)
    requires Owners(used, headers, live) && WasFree(used, s, h)
    ensures s !in live && Owners(Marked(used, s, h), NewHeaders(headers, s, h), live + {s})
  {
    var used1, headers1 := Marked(used, s, h), NewHeaders(headers, s, h);
    forall t | t in live ensures t != s && Keeps(used, headers, used1, headers1, t) {
      assert Solid(used, headers, t);
      NewKeeps(used, headers, s, h, used1, t);
    }
    OwnersKept(used, headers, used1, headers1, live);
    NewSolid(used, headers, s, h);
    forall t, u | t in live + {s} && u in live + {s} && t != u ensures Apart(headers1, t, u) {
      if t == s { assert Solid(used, headers, u); NewApart(used, headers, s, h, u); }
      else if u == s { assert Solid(used, headers, t); NewApart(used, headers, s, h, t); }
    }
  }

  // ---------- giving an inode's sectors back ----------

  lemma ReleaseOk(used: seq<bool>, headers: map<int, Header>, s: int)
    requires Solid(used, headers, s)
    ensures ReleaseInode(used, s, headers[s]).Some?
    ensures var used1 := ReleaseInode(used, s, headers[s]).value;
      |used1| == |used| && forall k | 0 <= k < |used| :: used1[k] == (used[k] && !Owns(headers, s, k))
  {
    var h := headers[s];
    var used1 := Filled(used, s, 1, false);
    forall k | h.start <= k < h.start + Sectors(h.length) ensures used1[k] { assert used[k]; }
  }

  lemma ReleaseOwner(used: seq<bool>, headers: map<int, Header>, live: set<int>, s: int)
    requires Owners(used, headers, live) && s in live
    ensures ReleaseInode(used, s, headers[s]).Some?
    ensures Owners(ReleaseInode(used, s, headers[s]).value, headers, live - {s})
  {
    assert Solid(used, headers, s);
    ReleaseOk(used, headers, s);
    var used1 := ReleaseInode(used, s, headers[s]).value;
    forall t | t in live - {s} ensures Keeps(used, headers, used1, headers, t) {
      assert Solid(used, headers, t) && Apart(headers, t, s);
    }
    Fewer(used, headers, live, live - {s});
    OwnersKept(used, headers, used1, headers, live - {s});
  }
}
