// lib/kernel/bitmap.c: bits as the callers of a bitmap see them.

module BitRuns {

  import opened Options

  // CNT bits from I on, all equal to V.
  predicate RunAt(bits: seq<bool>, i: int, cnt: int, v: bool) {
    0 <= i && 0 <= cnt && i + cnt <= |bits| && forall k | i <= k < i + cnt :: bits[k] == v
  }

  ghost predicate NoRun(bits: seq<bool>, from: int, cnt: int, v: bool) {
    forall i | from <= i :: !RunAt(bits, i, cnt, v)
  }

  // R is the first group of CNT bits equal to V at or after START, or None for want of one.
  ghost predicate FirstRun(bits: seq<bool>, start: int, cnt: int, v: bool, r: Option<int>) {
    match r
    case None => NoRun(bits, start, cnt, v)
    case Some(i) => start <= i && RunAt(bits, i, cnt, v) && forall j | start <= j < i :: !RunAt(bits, j, cnt, v)
  }

  // BITS with CNT bits from START on set to V.
  function Filled(bits: seq<bool>, start: int, cnt: int, v: bool): (r: seq<bool>)
    requires 0 <= start && 0 <= cnt && start + cnt <= |bits|
    ensures |r| == |bits|
    ensures forall k | 0 <= k < |bits| :: r[k] == if start <= k < start + cnt then v else bits[k]
  {
    bits[..start] + seq(cnt, _ => v) + bits[start + cnt..]
  }

  function Count(bits: seq<bool>, lo: int, hi: int, v: bool): (n: int)
    requires 0 <= lo <= hi <= |bits|
    ensures 0 <= n <= hi - lo
    decreases hi
  {
    if lo == hi then 0 else Count(bits, lo, hi - 1, v) + if bits[hi - 1] == v then 1 else 0
  }

  ghost function Indices(bits: seq<bool>, lo: int, hi: int, v: bool): (s: set<int>)
    requires 0 <= lo <= hi <= |bits|
  {
    set i | lo <= i < hi && bits[i] == v
  }

  // The count is the number of indices with the value.
  lemma {:induction false} CountIs(bits: seq<bool>, lo: int, hi: int, v: bool)
    requires 0 <= lo <= hi <= |bits|
    ensures Count(bits, lo, hi, v) == |Indices(bits, lo, hi, v)|
    decreases hi
  {
    if lo == hi {
      assert Indices(bits, lo, hi, v) == {};
    } else {
      CountIs(bits, lo, hi - 1, v);
      assert Indices(bits, lo, hi, v)
          == Indices(bits, lo, hi - 1, v) + (if bits[hi - 1] == v then {hi - 1} else {});
    }
  }

  // The search that bitmap_scan makes, one start at a time.
  function Search(bits: seq<bool>, start: int, cnt: int, v: bool): (r: Option<int>)
    decreases |bits| - start
  {
    if start < 0 || cnt < 0 || start + cnt > |bits| then None
    else if RunAt(bits, start, cnt, v) then Some(start)
    else Search(bits, start + 1, cnt, v)
  }

  lemma {:induction false} SearchFinds(bits: seq<bool>, start: int, cnt: int, v: bool)
    requires 0 <= start && 0 <= cnt
    ensures FirstRun(bits, start, cnt, v, Search(bits, start, cnt, v))
    decreases |bits| - start
  {
    if start + cnt <= |bits| && !RunAt(bits, start, cnt, v) {
      SearchFinds(bits, start + 1, cnt, v);
    }
  }

  // A group of no bits is found at the start, so the result is 0 exactly for a start of 0.
  lemma ZeroCount(bits: seq<bool>, start: int, v: bool)
    requires 0 <= start <= |bits|
    ensures Search(bits, start, 0, v) == Some(start) && (Search(bits, start, 0, v) == Some(0) <==> start == 0)
  {}

  lemma FirstRunUnique(bits: seq<bool>, start: int, cnt: int, v: bool, r: Option<int>, s: Option<int>)
    requires FirstRun(bits, start, cnt, v, r) && FirstRun(bits, start, cnt, v, s)
    ensures r == s
  {
    if r.Some? { assert RunAt(bits, r.value, cnt, v); }
    if s.Some? { assert RunAt(bits, s.value, cnt, v); }
  }

  // Filling a run with the other value and filling it back restores every bit.
  lemma FillUndone(bits: seq<bool>, i: int, cnt: int, v: bool)
    requires RunAt(bits, i, cnt, v)
    ensures Filled(Filled(bits, i, cnt, !v), i, cnt, v) == bits
  {}
}
