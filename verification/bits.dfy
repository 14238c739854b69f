/** Bit arithmetic of the ring on unsigned 64-bit values, written on naturals: `Shr`, `BitOr`
    and `BitAnd` work bit by bit, so no division identity is built in. */
module Bits {
  const TWO63: nat := 0x8000_0000_0000_0000
  const TWO64: nat := 0x1_0000_0000_0000_0000

  /** Unsigned subtraction with wrap-around. */
  function Sub64(a: nat, b: nat): (r: nat)
    ensures b <= a < TWO64 ==> r == a - b
    ensures r < TWO64
  {
    (a - b) % TWO64
  }

  /** Unsigned increment with wrap-around. */
  function Next64(m: nat): (r: nat)
    requires m < TWO64
    ensures r == if m == TWO64 - 1 then 0 else m + 1
  {
    (m + 1) % TWO64
  }

  function Pow2(k: nat): (p: nat)
    ensures p >= 1
  {
    if k == 0 then 1 else 2 * Pow2(k - 1)
  }

  ghost predicate IsPow2(n: nat) {
    exists k: nat :: n == Pow2(k)
  }

  function Shr(n: nat, k: nat): nat {
    if k == 0 then n else Shr(n / 2, k - 1)
  }

  function BitOr(a: nat, b: nat): nat
    decreases a + b
  {
    if a == 0 && b == 0 then 0
    else (if a % 2 == 1 || b % 2 == 1 then 1 else 0) + 2 * BitOr(a / 2, b / 2)
  }

  function BitAnd(a: nat, b: nat): nat
    decreases a + b
  {
    if a == 0 && b == 0 then 0
    else (if a % 2 == 1 && b % 2 == 1 then 1 else 0) + 2 * BitAnd(a / 2, b / 2)
  }

  /** `k` one bits. */
  function Ones(k: nat): (n: nat)
    ensures n + 1 == Pow2(k)
  {
    if k == 0 then 0 else 2 * Ones(k - 1) + 1
  }

  function BitLen(n: nat): nat {
    if n == 0 then 0 else 1 + BitLen(n / 2)
  }

  lemma {:induction false} ShrShr(n: nat, j: nat, k: nat)
    ensures Shr(Shr(n, j), k) == Shr(n, j + k)
  {
    if j > 0 {
      ShrShr(n / 2, j - 1, k);
    }
  }

  lemma {:induction false} ShrOr(a: nat, b: nat, k: nat)
    ensures Shr(BitOr(a, b), k) == BitOr(Shr(a, k), Shr(b, k))
  {
    if k > 0 {
      assert BitOr(a, b) / 2 == BitOr(a / 2, b / 2);
      ShrOr(a / 2, b / 2, k - 1);
    }
  }

  lemma {:induction false} ShrOnes(n: nat, k: nat)
    requires k <= n
    ensures Shr(Ones(n), k) == Ones(n - k)
  {
    if k > 0 {
      assert Ones(n) / 2 == Ones(n - 1);
      ShrOnes(n - 1, k - 1);
    }
  }

  lemma {:induction false} OrZero(a: nat)
    ensures BitOr(a, 0) == a
  {
    if a > 0 {
      OrZero(a / 2);
    }
  }

  /** A value whose bits above position `w` are `v` ones, or-ed with `w` ones, is `v + w` ones. */
  lemma {:induction false} OrOnes(a: nat, v: nat, w: nat)
    requires Shr(a, w) == Ones(v)
    ensures BitOr(a, Ones(w)) == Ones(v + w)
  {
    if w == 0 {
      OrZero(a);
    } else {
      assert Ones(w) % 2 == 1 && Ones(w) / 2 == Ones(w - 1);
      OrOnes(a / 2, v, w - 1);
    }
  }

  /** The top `w` of the `len` significant bits of `m` are ones. */
  ghost predicate TopOnes(m: nat, len: nat, w: nat) {
    w <= len && Shr(m, len - w) == Ones(w)
  }

  function Min(a: nat, b: nat): nat { if a < b then a else b }

  /** One smearing step doubles the run of ones at the top, until all bits are ones. */
  lemma Smear(m: nat, len: nat, w: nat)
    requires TopOnes(m, len, Min(w, len))
    ensures TopOnes(BitOr(m, Shr(m, w)), len, Min(2 * w, len))
  {
    if len <= w {
      SmearDone(m, len, w);
    } else if 2 * w <= len {
      SmearDoubles(m, len, w);
    } else {
      SmearFills(m, len, w);
    }
  }

  lemma SmearDone(m: nat, len: nat, w: nat)
    requires len <= w && TopOnes(m, len, len)
    ensures TopOnes(BitOr(m, Shr(m, w)), len, len)
  {
    assert m == Ones(len);
    ShrAll(len, w);
    OrZero(m);
  }

  lemma SmearDoubles(m: nat, len: nat, w: nat)
    requires 2 * w <= len && TopOnes(m, len, w)
    ensures TopOnes(BitOr(m, Shr(m, w)), len, 2 * w)
  {
    SmearDownTo(m, len, w, len - 2 * w);
  }

  lemma SmearFills(m: nat, len: nat, w: nat)
    requires w < len < 2 * w && TopOnes(m, len, w)
    ensures TopOnes(BitOr(m, Shr(m, w)), len, len)
  {
    SmearDownTo(m, len, w, 0);
  }

  lemma SmearDownTo(m: nat, len: nat, w: nat, s: nat)
    requires w + s <= len <= 2 * w + s && Shr(m, len - w) == Ones(w)
    ensures Shr(BitOr(m, Shr(m, w)), s) == Ones(len - s)
  {
    var low := len - w - s;   // the ones this step adds
    assert Shr(Shr(m, s), low) == Ones(w) by {
      ShrShr(m, s, low);
    }
    assert Shr(Shr(m, w), s) == Ones(low) by {
      ShrShr(m, w, s);
      ShrShr(m, len - w, w - low);
      ShrOnes(w, w - low);
    }
    ShrOr(m, Shr(m, w), s);
    OrOnes(Shr(m, s), w, low);
  }

  lemma {:induction false} ShrAll(len: nat, w: nat)
    requires len <= w
    ensures Shr(Ones(len), w) == 0
  {
    ShrOnes(len, len);
    ShrShr(Ones(len), len, w - len);
    ShrZero(w - len);
  }

  lemma {:induction false} ShrZero(k: nat)
    ensures Shr(0, k) == 0
  {
    if k > 0 {
      ShrZero(k - 1);
    }
  }

  lemma {:induction false} BitLenBounds(n: nat)
    ensures n < Pow2(BitLen(n))
    ensures n > 0 ==> Pow2(BitLen(n) - 1) <= n && Shr(n, BitLen(n) - 1) == 1
  {
    if n > 1 {
      BitLenBounds(n / 2);
    } else if n == 1 {
      assert BitLen(1) == 1 + BitLen(0);
    }
  }

  lemma {:induction false} Pow2Monotone(j: nat, k: nat)
    requires j <= k
    ensures Pow2(j) <= Pow2(k)
  {
    if j < k {
      Pow2Monotone(j, k - 1);
    }
  }

  lemma Pow2Facts()
    ensures Pow2(63) == TWO63 && Pow2(64) == TWO64
  {
    Pow2Of32();
    Pow2Sum(32, 31);
    assert Pow2(32) == 2 * Pow2(31);
    assert Pow2(64) == 2 * Pow2(63);
  }

  lemma Pow2Of32()
    ensures Pow2(32) == 0x1_0000_0000
  {
    assert Pow2(3) == 8 && Pow2(4) == 16;
    Pow2Sum(4, 4);
    Pow2Sum(8, 8);
    Pow2Sum(16, 16);
  }

  lemma {:induction false} Pow2Sum(j: nat, k: nat)
    ensures Pow2(j + k) == Pow2(j) * Pow2(k)
  {
    if j > 0 {
      Pow2Sum(j - 1, k);
      assert Pow2(j + k) == 2 * Pow2(j - 1 + k);
    }
  }

  /** One line of the rounding: `m |= m >> w`. */
  function Spread(m: nat, w: nat): nat { BitOr(m, Shr(m, w)) }

  /** The six lines turn every bit below the leading one into a one. */
  lemma SpreadFills(m: nat)
    requires m < TWO64
    ensures Spread(Spread(Spread(Spread(Spread(Spread(m, 1), 2), 4), 8), 16), 32) == Ones(BitLen(m))
  {
    var len := BitLen(m);
    TopBit(m);
    LenAtMost64(m);
    var m1 := SpreadMore(m, len, 1);
    var m2 := SpreadMore(m1, len, 2);
    var m3 := SpreadMore(m2, len, 4);
    var m4 := SpreadMore(m3, len, 8);
    var m5 := SpreadMore(m4, len, 16);
    var m6 := SpreadMore(m5, len, 32);
  }

  lemma TopBit(m: nat)
    ensures TopOnes(m, BitLen(m), Min(1, BitLen(m)))
  {
    BitLenBounds(m);
    assert Ones(1) == 1 && Ones(0) == 0;
  }

  lemma SpreadMore(m: nat, len: nat, w: nat) returns (m': nat)
    requires TopOnes(m, len, Min(w, len))
    ensures m' == Spread(m, w) && TopOnes(m', len, Min(2 * w, len))
  {
    m' := Spread(m, w);
    Smear(m, len, w);
  }

  /** The straight-line rounding: decrement, smear by 1, 2, 4, 8, 16 and 32, increment, on 64 bits. The result is
      the least power of two that is at least `n`; for 0 and above 2^63 it wraps to 0. */
  method NextPowerOfTwo(n: nat) returns (r: nat)
    requires n < TWO64
    ensures 1 <= n <= TWO63 ==>
      IsPow2(r) && n <= r <= TWO63 && forall p: nat :: IsPow2(p) && n <= p ==> r <= p
    ensures n == 0 || n > TWO63 ==> r == 0
  {
    var m := Sub64(n, 1);
    ghost var len := BitLen(m);
    OneLess(n);
    AfterOnes(n, len);
    if 1 <= n <= TWO63 {
      LeastPower(n, len);
    }
    SpreadFills(m);
    m := Spread(m, 1);
    m := Spread(m, 2);
    m := Spread(m, 4);
    m := Spread(m, 8);
    m := Spread(m, 16);
    m := Spread(m, 32);
    r := Next64(m);
  }

  lemma OneLess(n: nat)
    requires n < TWO64
    ensures Sub64(n, 1) == if n == 0 then TWO64 - 1 else n - 1
  {
  }

  /** What comes after the all-ones number: a power of two, which fits the word unless it is 2^64. */
  lemma AfterOnes(n: nat, len: nat)
    requires n < TWO64 && len == BitLen(if n == 0 then TWO64 - 1 else n - 1)
    ensures Ones(len) + 1 == if 1 <= n <= TWO63 then Pow2(len) else TWO64
    ensures 1 <= n <= TWO63 ==> Pow2(len) <= TWO63
  {
    Pow2Facts();
    if 1 <= n <= TWO63 {
      LenAtMost63(n - 1);
      Pow2Monotone(len, 63);
    } else {
      LenIs64(if n == 0 then TWO64 - 1 else n - 1);
    }
  }

  lemma LenIs64(m: nat)
    requires TWO63 <= m < TWO64
    ensures BitLen(m) == 64
  {
    Pow2Facts();
    LenAtMost64(m);
    BitLenBounds(m);
    if BitLen(m) <= 63 {
      Pow2Monotone(BitLen(m), 63);
    }
  }

  lemma LenAtMost64(n: nat)
    requires n < TWO64
    ensures BitLen(n) <= 64
  {
    Pow2Facts();
    BitLenBounds(n);
    if BitLen(n) > 64 {
      Pow2Monotone(64, BitLen(n) - 1);
    }
  }

  lemma LenAtMost63(n: nat)
    requires n < TWO63
    ensures BitLen(n) <= 63
  {
    Pow2Facts();
    BitLenBounds(n);
    if BitLen(n) > 63 {
      Pow2Monotone(63, BitLen(n) - 1);
    }
  }

  lemma LeastPower(n: nat, len: nat)
    requires n >= 1 && len == BitLen(n - 1)
    ensures IsPow2(Pow2(len)) && n <= Pow2(len)
    ensures forall p: nat :: IsPow2(p) && n <= p ==> Pow2(len) <= p
  {
    BitLenBounds(n - 1);
    forall p: nat | IsPow2(p) && n <= p
      ensures Pow2(len) <= p
    {
      var k: nat :| p == Pow2(k);
      if k < len {
        Pow2Monotone(k, len - 1);
      } else {
        Pow2Monotone(len, k);
      }
    }
  }

  /** The constructor's test `size & (size - 1) == 0` recognises exactly 0 and the powers of two. */
  lemma PowerTest(n: nat)
    requires n < TWO64
    ensures BitAnd(n, Sub64(n, 1)) == 0 <==> n == 0 || IsPow2(n)
  {
    if n == 0 {
      ZeroAnd(Sub64(n, 1));
    } else {
      PositivePowerTest(n);
    }
  }

  lemma {:induction false} PositivePowerTest(n: nat)
    requires n >= 1
    ensures BitAnd(n, n - 1) == 0 <==> IsPow2(n)
  {
    if n == 1 {
      assert n == Pow2(0);
      assert BitAnd(1, 0) == 0 + 2 * BitAnd(0, 0);
    } else if n % 2 == 0 {
      PositivePowerTest(n / 2);
      AndEven(n);
      PowerHalves(n);
    } else {
      AndOdd(n);
      OddIsNoPower(n);
    }
  }

  lemma AndEven(n: nat)
    requires n >= 2 && n % 2 == 0
    ensures BitAnd(n, n - 1) == 2 * BitAnd(n / 2, n / 2 - 1)
  {
    assert (n - 1) / 2 == n / 2 - 1;
  }

  lemma AndOdd(n: nat)
    requires n >= 2 && n % 2 == 1
    ensures BitAnd(n, n - 1) == 2 * (n / 2)
  {
    assert (n - 1) / 2 == n / 2;
    AndSelf(n / 2);
  }

  lemma PowerHalves(n: nat)
    requires n >= 2 && n % 2 == 0
    ensures IsPow2(n) <==> IsPow2(n / 2)
  {
    if IsPow2(n / 2) {
      var k: nat :| n / 2 == Pow2(k);
      assert n == Pow2(k + 1);
    }
    if IsPow2(n) {
      var k: nat :| n == Pow2(k);
      assert k > 0 && n / 2 == Pow2(k - 1);
    }
  }

  lemma OddIsNoPower(n: nat)
    requires n >= 2 && n % 2 == 1
    ensures !IsPow2(n)
  {
    forall k: nat
      ensures n != Pow2(k)
    {
      if k > 0 {
        Pow2IsEven(k);
      }
    }
  }

  lemma Pow2IsEven(k: nat)
    requires k > 0
    ensures Pow2(k) % 2 == 0
  {
    var half := Pow2(k - 1);
    assert Pow2(k) == 2 * half;
  }

  lemma {:induction false} AndSelf(n: nat)
    ensures BitAnd(n, n) == n
  {
    if n > 0 {
      AndSelf(n / 2);
    }
  }

  /** Masking a ticket with `capacity - 1` is taking it modulo the capacity. */
  lemma MaskIsMod(t: nat, k: nat)
    ensures BitAnd(t, Pow2(k) - 1) == t % Pow2(k)
  {
    OnesIsMod(t, k);
  }

  lemma {:induction false} OnesIsMod(t: nat, k: nat)
    ensures BitAnd(t, Ones(k)) == t % Pow2(k)
  {
    if k == 0 {
      AndZero(t);
    } else {
      AndOnes(t, k);
      OnesIsMod(t / 2, k - 1);
      ModDouble(t, Pow2(k - 1));
    }
  }

  lemma AndOnes(t: nat, k: nat)
    requires k > 0
    ensures BitAnd(t, Ones(k)) == t % 2 + 2 * BitAnd(t / 2, Ones(k - 1))
  {
    assert Ones(k) % 2 == 1 && Ones(k) / 2 == Ones(k - 1);
  }

  lemma ModDouble(t: nat, c: nat)
    requires c > 0
    ensures t % (2 * c) == t % 2 + 2 * ((t / 2) % c)
  {
    var h := t / 2;
    var q, r := h / c, h % c;
    assert h == c * q + r;
    assert (2 * c) * q == 2 * (c * q);
    ModIs(t, 2 * c, q, t % 2 + 2 * r);
  }

  lemma {:induction false} ZeroAnd(t: nat)
    ensures BitAnd(0, t) == 0
  {
    if t > 0 {
      ZeroAnd(t / 2);
    }
  }

  lemma {:induction false} AndZero(t: nat)
    ensures BitAnd(t, 0) == 0
  {
    if t > 0 {
      AndZero(t / 2);
    }
  }

  lemma ModIs(t: nat, c: nat, q: nat, r: nat)
    requires c > 0 && r < c && t == c * q + r
    ensures t % c == r
  {
    var q' := t / c;
    assert t == c * q' + t % c;
    assert c * (q - q') == t % c - r;
    if q > q' {
      AtLeastOnce(c, q - q');
    } else if q < q' {
      assert c * (q' - q) == r - t % c;
      AtLeastOnce(c, q' - q);
    }
  }

  lemma NotBelow(c: nat, d: int)
    requires c > 0 && c * -d > 0
    ensures d < 0
  {
  }

  lemma AtLeastOnce(c: nat, d: nat)
    requires d >= 1
    ensures c * d >= c
  {
  }

  /** Tickets in the same slot are at least a capacity apart. */
  lemma SameSlotApart(t: nat, u: nat, c: nat)
    requires c > 0 && t % c == u % c && t < u
    ensures t + c <= u
  {
    var a, b := t / c, u / c;
    assert t == c * a + t % c && u == c * b + u % c;
    assert c * (b - a) == u - t;
    NotBelow(c, a - b);
    AtLeastOnce(c, b - a);
  }

  /** Any `capacity` consecutive tickets fall into distinct slots of the masked buffer. */
  lemma ConsecutiveTicketsDistinct(t: nat, u: nat, k: nat)
    requires t < u < t + Pow2(k)
    ensures BitAnd(t, Pow2(k) - 1) != BitAnd(u, Pow2(k) - 1)
  {
    MaskIsMod(t, k);
    MaskIsMod(u, k);
    if t % Pow2(k) == u % Pow2(k) {
      SameSlotApart(t, u, Pow2(k));
    }
  }
}
