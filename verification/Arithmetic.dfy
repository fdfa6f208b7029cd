// lib/arithmetic.c: 64-bit division on a machine whose divide instruction takes
// a 64-bit dividend and a 32-bit divisor and traps when the quotient is wider
// than 32 bits.

module Arithmetic {
  import opened Options

  const B31 := 0x8000_0000
  const B32 := 0x1_0000_0000
  const B63 := 0x8000_0000_0000_0000
  const B64 := 0x1_0000_0000_0000_0000

  predicate IsU64(x: int) { 0 <= x < B64 }
  predicate IsI64(x: int) { -B63 <= x < B63 }

  // Conversions of C, on a two's complement machine.
  function ToU64(x: int): (r: int) { x % B64 }
  function ToI64(x: int): (r: int) { if x % B64 < B63 then x % B64 else x % B64 - B64 }
  function ToU32(x: int): (r: int) { x % B32 }
  function ToI32(x: int): (r: int) { if x % B32 < B31 then x % B32 else x % B32 - B32 }

  function Pow2(k: int): (p: int)
    ensures p > 0
  {
    if k <= 0 then 1 else 2 * Pow2(k - 1)
  }

  // The DIVL instruction; None is the divide-error trap.
  function Divl(n: int, d: int): (q: Option<int>) {
    if d == 0 || n / d >= B32 then None else Some(n / d)
  }

  // Number of leading zero bits of a non-zero 32-bit number.
  function Nlz(x: int): (n: int)
    ensures n >= 0
    decreases B32 - x
  {
    if x <= 0 || x >= B31 then 0 else 1 + Nlz(2 * x)
  }

  // Divisor of at most 32 bits: schoolbook division in base 2^32.
  function NarrowQuotient(n: int, d: int): (q: Option<int>) {
    if d == 0 then None
    else
      var n1, n0 := n / B32, n % B32;
      var low := Divl(B32 * (n1 % d) + n0, d);
      if low == None then None else Some(ToU64(low.value + B32 * (n1 / d)))
  }

  // Divisor of more than 32 bits: one divide by its top 32 bits, put back in scale.
  function Estimate(n: int, d: int, s: int): (q: Option<int>) {
    var e := Divl(n / 2, ToU64(d * Pow2(s)) / B32);
    if e == None then None else Some(e.value / Pow2(31 - s))
  }

  function Corrected(n: int, d: int, q: int): (r: int) {
    var p := ToU64(q - 1);
    if ToU64(n - ToU64(p * d)) < d then p else q
  }

  function Udiv64(n: int, d: int): (q: Option<int>) {
    if d / B32 == 0 then NarrowQuotient(n, d)
    else if n < d then Some(0)
    else
      var e := Estimate(n, d, Nlz(d / B32));
      if e == None then None else Some(Corrected(n, d, e.value))
  }

  function Remainder32(n: int, d: int, q: int): (r: int) { ToU32(ToU64(n - d * q)) }

  function SignedRemainder32(n: int, d: int, q: int): (r: int) { ToI32(ToI64(n - ToI64(d * q))) }

  function Umod64(n: int, d: int): (r: Option<int>) {
    var q := Udiv64(n, d);
    if q == None then None else Some(Remainder32(n, d, q.value))
  }

  function Abs64(x: int): (a: int) {
    if x >= 0 then x else ToU64(-ToU64(x))
  }

  function Sdiv64(n: int, d: int): (q: Option<int>) {
    var q := Udiv64(Abs64(n), Abs64(d));
    if q == None then None
    else if (n < 0) == (d < 0) then Some(ToI64(q.value))
    else Some(ToI64(-ToI64(q.value)))
  }

  function Smod64(n: int, d: int): (r: Option<int>) {
    var q := Sdiv64(n, d);
    if q == None then None else Some(SignedRemainder32(n, d, q.value))
  }

  // ---------- nlz ----------

  lemma {:induction false} Pow2Add(a: int, b: int)
    requires a >= 0 && b >= 0
    ensures Pow2(a + b) == Pow2(a) * Pow2(b)
    decreases a
  {
    if a > 0 {
      Pow2Add(a - 1, b);
      assert Pow2(a + b) == 2 * Pow2(a - 1 + b);
      MulAssoc(2, Pow2(a - 1), Pow2(b));
    }
  }

  lemma MulAssoc(a: int, b: int, c: int)
    ensures a * (b * c) == (a * b) * c
  {}

  lemma Distribute(a: int, b: int, c: int)
    ensures (a + b) * c == a * c + b * c
  {}

  lemma MulMono(a: int, b: int, c: int)
    requires a <= b && 0 <= c
    ensures a * c <= b * c
  {}

  lemma Pow2Values()
    ensures Pow2(1) == 2 && Pow2(2) == 4 && Pow2(4) == 16 && Pow2(8) == 0x100 && Pow2(16) == 0x1_0000
    ensures Pow2(31) == B31 && Pow2(32) == B32
  {
    assert Pow2(1) == 2 * Pow2(0);
    assert Pow2(2) == 2 * Pow2(1);
    assert Pow2(4) == 16 by { Pow2Add(2, 2); }
    assert Pow2(8) == 0x100 by { Pow2Add(4, 4); }
    assert Pow2(16) == 0x1_0000 by { Pow2Add(8, 8); }
    assert Pow2(32) == B32 by { Pow2Add(16, 16); }
    assert Pow2(32) == 2 * Pow2(31);
  }

  // x moved up n places has its top bit in place 31.
  predicate LeadingZeros(x: int, n: int) {
    0 <= n && B31 <= x * Pow2(n) < B32
  }

  lemma {:induction false} NlzLeading(x: int)
    requires 0 < x < B32
    ensures LeadingZeros(x, Nlz(x))
    decreases B32 - x
  {
    if x < B31 {
      NlzLeading(2 * x);
      MulAssoc(x, 2, Pow2(Nlz(2 * x)));
      assert Pow2(Nlz(x)) == 2 * Pow2(Nlz(2 * x));
    } else {
      assert Pow2(0) == 1;
    }
  }

  lemma NlzBound(x: int)
    requires 0 < x < B32
    ensures Nlz(x) < 32
  {
    NlzLeading(x);
    var n := Nlz(x);
    if n >= 32 {
      Pow2Values();
      Pow2Add(32, n - 32);
      MulMono(1, Pow2(n - 32), B32);
      MulMono(1, x, Pow2(n));
    }
  }

  lemma LeadingUnique(x: int, m: int, n: int)
    requires LeadingZeros(x, m) && LeadingZeros(x, n)
    ensures m == n
  {
    if m < n { TooFar(x, m, n); }
    if n < m { TooFar(x, n, m); }
  }

  lemma TooFar(x: int, m: int, n: int)
    requires 0 <= m < n && B31 <= x * Pow2(m)
    ensures x * Pow2(n) >= B32
  {
    Pow2Add(m, n - m);
    assert Pow2(n - m) == 2 * Pow2(n - m - 1);
    MulAssoc(x, Pow2(m), Pow2(n - m));
    MulMono(2, Pow2(n - m), x * Pow2(m));
  }

  lemma ShiftedBy(x0: int, n: int, k: int)
    requires 0 <= n && 0 <= k
    ensures x0 * Pow2(n + k) == x0 * Pow2(n) * Pow2(k)
  {
    Pow2Add(n, k);
    MulAssoc(x0, Pow2(n), Pow2(k));
  }

  method CountLeadingZeros(x0: int) returns (n: int)
    requires 0 < x0 < B32
    ensures n == Nlz(x0) && LeadingZeros(x0, n)
  {
    Pow2Values();
    assert Pow2(0) == 1;
    var x := x0;
    n := 0;
    if x <= 0x0000FFFF {
      ShiftedBy(x0, n, 16);
      n := n + 16;
      x := x * 0x1_0000;
    }
    if x <= 0x00FFFFFF {
      ShiftedBy(x0, n, 8);
      n := n + 8;
      x := x * 0x100;
    }
    if x <= 0x0FFFFFFF {
      ShiftedBy(x0, n, 4);
      n := n + 4;
      x := x * 16;
    }
    if x <= 0x3FFFFFFF {
      ShiftedBy(x0, n, 2);
      n := n + 2;
      x := x * 4;
    }
    if x <= 0x7FFFFFFF {
      ShiftedBy(x0, n, 1);
      n := n + 1;
    }
    NlzLeading(x0);
    LeadingUnique(x0, n, Nlz(x0));
  }

  // ---------- quotients ----------

  predicate IsQuotient(n: int, d: int, q: int) { q * d <= n < q * d + d }

  lemma QuotientUnique(n: int, d: int, p: int, q: int)
    requires IsQuotient(n, d, p) && IsQuotient(n, d, q)
    ensures p == q
  {
    if p < q { MulMono(p + 1, q, d); }
    if q < p { MulMono(q + 1, p, d); }
  }

  lemma Floor(n: int, d: int)
    requires d > 0
    ensures IsQuotient(n, d, n / d)
    ensures n % d == n - (n / d) * d && 0 <= n % d < d
  {}

  lemma FloorIs(n: int, d: int, q: int)
    requires d > 0 && IsQuotient(n, d, q)
    ensures n / d == q
  {
    Floor(n, d);
    QuotientUnique(n, d, n / d, q);
  }

  // Dividing twice is dividing once by the product.
  lemma FloorFloor(n: int, a: int, b: int)
    requires a > 0 && b > 0
    ensures a * b > 0 && (n / a) / b == n / (a * b)
  {
    var m := n / a;
    var q := m / b;
    Floor(n, a);
    Floor(m, b);
    MulMono(q * b, m, a);
    MulMono(m + 1, q * b + b, a);
    assert (q * b) * a == q * (a * b);
    assert (q * b + b) * a == q * (a * b) + a * b;
    MulMono(1, a, b);
    FloorIs(n, a * b, q);
  }

  lemma FloorBelow(n: int, d: int, b: int)
    requires d > 0 && n < b * d
    ensures n / d < b
  {
    Floor(n, d);
    if n / d >= b { MulMono(b, n / d, d); }
  }

  lemma FloorNonNeg(n: int, d: int)
    requires d > 0 && n >= 0
    ensures 0 <= n / d <= n
  {
    Floor(n, d);
    if n / d < 0 { MulMono(n / d + 1, 0, d); }
    if n / d > n { MulMono(1, d, n / d); }
  }

  // ---------- udiv64 ----------

  lemma NarrowExact(n: int, d: int)
    requires IsU64(n) && 0 < d < B32
    ensures Divl(B32 * ((n / B32) % d) + n % B32, d).Some?
    ensures NarrowQuotient(n, d) == Some(n / d)
  {
    var n1, n0 := n / B32, n % B32;
    Floor(n1, d);
    NarrowParts(n, n1, n0, d, n1 / d, n1 % d);
    FloorNonNeg(n, d);
    Unwrapped(n / d);
  }

  lemma NarrowParts(n: int, n1: int, n0: int, d: int, t: int, m: int)
    requires 0 < d && n == B32 * n1 + n0 && 0 <= n0 < B32 && m == n1 - t * d && 0 <= m < d
    ensures Divl(B32 * m + n0, d) == Some((B32 * m + n0) / d)
    ensures (B32 * m + n0) / d + B32 * t == n / d
  {
    var u := B32 * m + n0;
    FloorBelow(u, d, B32);
    Floor(u, d);
    Schoolbook(n1, n0, d, t, u, u / d);
    FloorIs(n, d, u / d + B32 * t);
  }

  lemma Schoolbook(n1: int, n0: int, d: int, t: int, u: int, q: int)
    requires u == B32 * (n1 - t * d) + n0 && IsQuotient(u, d, q)
    ensures IsQuotient(B32 * n1 + n0, d, q + B32 * t)
  {
    MulAssoc(B32, t, d);
    Distribute(q, B32 * t, d);
  }

  // The wide divisor d, its shift s and its top 32 bits v.
  predicate Normal(d: int, s: int, v: int) {
    && 0 <= s <= 31
    && B31 <= v < B32
    && v * Pow2(32 - s) <= d < v * Pow2(32 - s) + Pow2(32 - s)
  }

  lemma Normalized(d: int) returns (s: int, v: int)
    requires B32 <= d < B64
    ensures s == Nlz(d / B32) && v == ToU64(d * Pow2(s)) / B32
    ensures Normal(d, s, v)
  {
    var d1 := d / B32;
    s := Nlz(d1);
    NlzLeading(d1);
    NlzBound(d1);
    Pow2Values();
    Pow2Add(s, 32 - s);
    TopFits(d, d1, Pow2(s), Pow2(32 - s));
    v := ToU64(d * Pow2(s)) / B32;
    Scaled(d, Pow2(s), Pow2(32 - s), v);
  }

  lemma TopFits(d: int, d1: int, p: int, r: int)
    requires d1 == d / B32 && B31 <= d1 * p < B32 && p > 0 && p * r == B32
    ensures B31 * B32 <= d * p < B64
  {
    MulMono(d1 * B32, d, p);
    assert (d1 * B32) * p == B32 * (d1 * p);
    if d1 >= r { MulMono(r, d1, p); }
    MulMono(d1 + 1, r, p);
    MulMono(d + 1, (d1 + 1) * B32, p);
    assert ((d1 + 1) * B32) * p == B32 * ((d1 + 1) * p);
    assert (d + 1) * p == d * p + p;
  }

  lemma Scaled(d: int, p: int, r: int, v: int)
    requires p > 0 && p * r == B32 && v == (d * p) / B32
    ensures v * r <= d < v * r + r
  {
    assert v * B32 <= d * p < v * B32 + B32;
    assert v * B32 == (v * r) * p;
    assert v * B32 + B32 == (v * r + r) * p;
    if d < v * r { MulMono(d + 1, v * r, p); }
    if d >= v * r + r { MulMono(v * r + r, d, p); }
  }

  // One divide by the top bits is one divide by the divisor with its low bits cleared.
  lemma EstimateIs(n: int, d: int, s: int, v: int)
    requires IsU64(n) && Normal(d, s, v) && v == ToU64(d * Pow2(s)) / B32
    ensures v * Pow2(32 - s) > 0
    ensures Estimate(n, d, s) == Some(n / (v * Pow2(32 - s)))
  {
    var h := Pow2(31 - s);
    assert Pow2(32 - s) == 2 * h;
    FloorBelow(n / 2, v, B32);
    FloorFloor(n, 2, v);
    FloorFloor(n, 2 * v, h);
    Regroup(v, h);
    assert Divl(n / 2, v) == Some(n / 2 / v);
  }

  lemma Regroup(v: int, h: int)
    ensures (2 * v) * h == v * (2 * h)
  {}

  lemma LowBitsSmall(n: int, d: int, v: int, r: int)
    requires IsU64(n) && B31 <= v && 2 <= r && v * r <= d < v * r + r
    ensures n * (d - v * r) < (v * r) * d
  {
    var w, low := v * r, d - v * r;
    assert 4 * (r - 1) <= r * r by { assert (r - 2) * (r - 2) == r * r - 4 * r + 4; }
    MulMono(B31, v, r);
    SquareBelow(B31 * r, w, d);
    assert (B31 * r) * (B31 * r) == B31 * B31 * (r * r) by { Squared(B31, r); }
    MulMono(n, B64 - 1, low);
    assert low * B64 <= B31 * B31 * (r * r);
    assert n * low <= low * B64 - low by { Distribute(B64, -1, low); }
    if low == 0 { MulMono(1, w, d); }
  }

  lemma SquareBelow(a: int, w: int, d: int)
    requires 0 <= a <= w && a <= d
    ensures a * a <= w * d
  {
    MulMono(a, w, d);
    MulMono(a, d, a);
  }

  lemma Squared(a: int, b: int)
    ensures (a * b) * (a * b) == a * a * (b * b)
  {}

  lemma OffByTwo(n: int, d: int, w: int, q: int)
    requires 0 < w && 0 < d && n < q * d + d && (q + 2) * w <= n
    ensures n * (d - w) >= w * d
  {
    MulMono((q + 2) * w, n, d);
    assert ((q + 2) * w) * d == ((q + 1) * d) * w + w * d;
    MulMono(n + 1, (q + 1) * d, w);
    assert n * (d - w) == n * d - n * w;
  }

  lemma OffByOne(n: int, d: int, w: int)
    requires 0 < w <= d && 0 <= n && n * (d - w) < w * d
    ensures n / d <= n / w <= n / d + 1
  {
    var q, e := n / d, n / w;
    Floor(n, d);
    Floor(n, w);
    FloorNonNeg(n, d);
    MulMono(w, d, q);
    if e < q { MulMono(e + 1, q, w); }
    if e > q + 1 {
      MulMono(q + 2, e, w);
      OffByTwo(n, d, w, q);
    }
  }

  lemma EstimateNear(n: int, d: int)
    requires IsU64(n) && B32 <= d < B64
    ensures Estimate(n, d, Nlz(d / B32)).Some?
    ensures n / d <= Estimate(n, d, Nlz(d / B32)).value <= n / d + 1
  {
    var s, v := Normalized(d);
    EstimateIs(n, d, s, v);
    assert Pow2(32 - s) == 2 * Pow2(31 - s);
    LowBitsSmall(n, d, v, Pow2(32 - s));
    OffByOne(n, d, v * Pow2(32 - s));
  }

  lemma CorrectionExact(n: int, d: int, q: int)
    requires IsU64(n) && 0 < d <= n && n / d <= q <= n / d + 1
    ensures Corrected(n, d, q) == n / d
  {
    var t := n / d;
    Floor(n, d);
    FloorNonNeg(n, d);
    if t <= 0 { MulMono(t, 0, d); }
    Distribute(q - 1, 1, d);
    Distribute(t, 1, d);
    MulMono(0, q - 1, d);
    Unwrapped(q - 1);
    Unwrapped((q - 1) * d);
    Unwrapped(n - (q - 1) * d);
  }

  lemma Unwrapped(x: int)
    requires IsU64(x)
    ensures ToU64(x) == x
  {}

  // The quotient is exact for every 64-bit dividend and every divisor but zero, which traps.
  lemma UdivExact(n: int, d: int)
    requires IsU64(n) && IsU64(d)
    ensures Udiv64(n, d) == if d == 0 then None else Some(n / d)
  {
    if 0 < d < B32 {
      NarrowExact(n, d);
    } else if d != 0 {
      EstimateNear(n, d);
      if n < d {
        FloorIs(n, d, 0);
      } else {
        CorrectionExact(n, d, Estimate(n, d, Nlz(d / B32)).value);
      }
    }
  }

  // ---------- umod64 ----------

  lemma UnsignedProduct(n: int, d: int, q: int)
    requires IsU64(n) && 0 < d && 0 <= q && IsQuotient(n, d, q)
    ensures Remainder32(n, d, q) == (n - q * d) % B32
  {
    MulMono(0, q, d);
    assert d * q == q * d;
    Unwrapped(n - q * d);
  }

  // The remainder comes back in 32 bits.
  lemma UmodValue(n: int, d: int)
    requires IsU64(n) && IsU64(d) && d != 0
    ensures Umod64(n, d) == Some((n % d) % B32)
  {
    UdivExact(n, d);
    UmodOf(n, d, Udiv64(n, d));
  }

  lemma UmodOf(n: int, d: int, q: Option<int>)
    requires IsU64(n) && 0 < d && q == Some(n / d)
    ensures Remainder32(n, d, q.value) == (n % d) % B32
  {
    Floor(n, d);
    FloorNonNeg(n, d);
    UnsignedProduct(n, d, n / d);
  }

  ghost predicate UmodRight(n: int, d: int)
    requires d != 0
  {
    Umod64(n, d) == Some(n % d)
  }

  lemma UmodRightIff(n: int, d: int)
    requires IsU64(n) && IsU64(d) && d != 0
    ensures UmodRight(n, d) <==> n % d < B32
  {
    UmodValue(n, d);
    Small32(n, d, Umod64(n, d));
  }

  lemma Small32(n: int, d: int, r: Option<int>)
    requires 0 < d && r == Some((n % d) % B32)
    ensures r == Some(n % d) <==> n % d < B32
  {
    Floor(n, d);
  }

  // It is the remainder of every dividend exactly when the divisor is at most 2^32.
  lemma UmodExactIff(d: int)
    requires IsU64(d) && d != 0
    ensures (forall n | IsU64(n) :: UmodRight(n, d)) <==> d <= B32
  {
    if d > B32 {
      FloorIs(B32, d, 0);
      UmodRightIff(B32, d);
      Floor(B32, d);
    } else {
      forall n | IsU64(n) ensures UmodRight(n, d) {
        UmodRightIff(n, d);
        Floor(n, d);
      }
    }
  }

  // ---------- sdiv64 and smod64 ----------

  function Magnitude(x: int): (a: int) { if x < 0 then -x else x }

  // The quotient and remainder of C, truncated toward zero.
  function TruncDiv(n: int, d: int): (q: int)
    requires d != 0
  {
    var q := Magnitude(n) / Magnitude(d);
    if (n < 0) == (d < 0) then q else -q
  }

  function TruncMod(n: int, d: int): (r: int)
    requires d != 0
  {
    n - d * TruncDiv(n, d)
  }

  lemma SignedProduct(n: int, d: int)
    requires d != 0
    ensures d * TruncDiv(n, d) == (if n < 0 then -1 else 1) * (Magnitude(d) * (Magnitude(n) / Magnitude(d)))
  {}

  // The remainder is smaller than the divisor and has the sign of the dividend.
  lemma TruncModSmall(n: int, d: int)
    requires d != 0
    ensures Magnitude(TruncMod(n, d)) == Magnitude(n) % Magnitude(d) < Magnitude(d)
    ensures TruncMod(n, d) != 0 ==> (TruncMod(n, d) < 0 <==> n < 0)
  {
    SignedProduct(n, d);
    Floor(Magnitude(n), Magnitude(d));
  }

  lemma Abs64Is(x: int)
    requires IsI64(x)
    ensures Abs64(x) == Magnitude(x) && IsU64(Abs64(x))
  {
    if x < 0 {
      assert ToU64(x) == x + B64;
      assert ToU64(-(x + B64)) == -x;
    }
  }

  // The one quotient that does not fit in 64 bits wraps; every other is exact.
  lemma SdivExactIff(n: int, d: int)
    requires IsI64(n) && IsI64(d) && d != 0
    ensures Sdiv64(n, d) == Some(ToI64(TruncDiv(n, d)))
    ensures Sdiv64(n, d) == Some(TruncDiv(n, d)) <==> !(n == -B63 && d == -1)
  {
    Abs64Is(n);
    Abs64Is(d);
    var a, b := Magnitude(n), Magnitude(d);
    UdivExact(a, b);
    FloorNonNeg(a, b);
    var q := a / b;
    Signed(q);
    if q == B63 {
      Floor(a, b);
      if b >= 2 { MulMono(2, b, q); }
      assert b == 1 && a == B63;
    } else if a == B63 && b == 1 {
      FloorIs(a, b, B63);
    }
  }

  lemma Signed(q: int)
    requires 0 <= q <= B63
    ensures q < B63 ==> ToI64(q) == q && ToI64(-ToI64(q)) == -q && ToI64(-q) == -q
    ensures q == B63 ==> ToI64(q) == -B63 && ToI64(-ToI64(q)) == -B63 && ToI64(-q) == -B63
  {}

  lemma SmodValue(n: int, d: int)
    requires IsI64(n) && IsI64(d) && d != 0
    ensures Smod64(n, d) == Some(ToI32(TruncMod(n, d)))
  {
    SdivExactIff(n, d);
    SmodOf(n, d, Sdiv64(n, d));
  }

  lemma SmodOf(n: int, d: int, q: Option<int>)
    requires IsI64(n) && IsI64(d) && d != 0 && q == Some(ToI64(TruncDiv(n, d)))
    requires q == Some(TruncDiv(n, d)) <==> !(n == -B63 && d == -1)
    ensures SignedRemainder32(n, d, q.value) == ToI32(TruncMod(n, d))
  {
    if n == -B63 && d == -1 {
      FloorIs(B63, 1, B63);
    } else {
      ProductFits(n, d);
      Representable(d * q.value);
      Representable(n - d * q.value);
    }
  }

  lemma Representable(x: int)
    requires IsI64(x)
    ensures ToI64(x) == x
  {}

  lemma ProductFits(n: int, d: int)
    requires IsI64(n) && d != 0
    ensures IsI64(d * TruncDiv(n, d)) && IsI64(TruncMod(n, d))
  {
    var a, b := Magnitude(n), Magnitude(d);
    SignedProduct(n, d);
    Floor(a, b);
    FloorNonNeg(a, b);
    MulMono(0, a / b, b);
    assert b * (a / b) == (a / b) * b;
  }

  ghost predicate SmodRight(n: int, d: int)
    requires d != 0
  {
    Smod64(n, d) == Some(TruncMod(n, d))
  }

  lemma SmodRightIff(n: int, d: int)
    requires IsI64(n) && IsI64(d) && d != 0
    ensures SmodRight(n, d) <==> -B31 <= TruncMod(n, d) < B31
  {
    SmodValue(n, d);
    Signed32(TruncMod(n, d), Smod64(n, d));
  }

  lemma Signed32(x: int, r: Option<int>)
    requires r == Some(ToI32(x))
    ensures r == Some(x) <==> -B31 <= x < B31
  {}

  // Narrowed to 32 bits: right for every dividend exactly when the divisor's magnitude is at most 2^31.
  lemma SmodExactIff(d: int)
    requires IsI64(d) && d != 0
    ensures (forall n | IsI64(n) :: SmodRight(n, d)) <==> Magnitude(d) <= B31
  {
    if Magnitude(d) > B31 {
      SmodRightIff(B31, d);
      RemainderSelf(d);
    } else {
      forall n | IsI64(n) ensures SmodRight(n, d) {
        SmodRightIff(n, d);
        TruncModSmall(n, d);
      }
    }
  }

  lemma RemainderSelf(d: int)
    requires Magnitude(d) > B31
    ensures TruncMod(B31, d) == B31
  {
    FloorIs(B31, Magnitude(d), 0);
    SignedProduct(B31, d);
  }
}
