/** Powers of two, shifts, and the bitwise operators, with what they are in arithmetic. */
module Bits {
  function Pow2(n: nat): (p: nat)
    ensures p >= 1
  {
    if n == 0 then 1 else 2 * Pow2(n - 1)
  }

  lemma Pow2Values()
    ensures Pow2(1) == 2 && Pow2(2) == 4 && Pow2(3) == 8 && Pow2(4) == 16 && Pow2(5) == 32 && Pow2(6) == 64
    ensures Pow2(7) == 0x80 && Pow2(11) == 0x800 && Pow2(12) == 0x1000 && Pow2(16) == 0x1_0000
    ensures Pow2(18) == 0x4_0000 && Pow2(21) == 0x20_0000 && Pow2(24) == 0x100_0000 && Pow2(26) == 0x400_0000
    ensures Pow2(30) == 0x4000_0000 && Pow2(31) == 0x8000_0000
  {
    Pow2Adds(5, 6);
    Pow2Adds(6, 6);
    Pow2Adds(11, 5);
    Pow2Adds(12, 6);
    Pow2Adds(16, 5);
    Pow2Adds(18, 6);
    Pow2Adds(21, 5);
    Pow2Adds(24, 6);
    Pow2Adds(26, 5);
  }

  lemma {:induction false} Pow2Adds(m: nat, n: nat)
    ensures Pow2(m + n) == Pow2(m) * Pow2(n)
  {
    if n > 0 {
      Pow2Adds(m, n - 1);
    }
  }

  /** `x >> n` */
  function Shr(x: nat, n: nat): nat {
    DivisionNat(x, Pow2(n));
    x / Pow2(n)
  }

  lemma DivisionNat(a: int, b: int)
    requires a >= 0 && b > 0
    ensures a / b >= 0
  {
    var q := a / b;
    assert q <= -1 ==> b * q <= -b;
  }

  /** Shifts by multiples of six. */
  lemma ShrValues(x: nat)
    ensures Shr(x, 0) == x && Shr(x, 6) == x / 0x40 && Shr(x, 12) == x / 0x1000
    ensures Shr(x, 18) == x / 0x4_0000 && Shr(x, 24) == x / 0x100_0000 && Shr(x, 30) == x / 0x4000_0000
  {
    hide Pow2;
    Pow2Values();
    Pow2Zero();
  }

  lemma Pow2Zero()
    ensures Pow2(0) == 1
  {
  }

  // ---- Bitwise operators ----

  /** `x & y` */
  function And(x: nat, y: nat): nat {
    if x == 0 || y == 0 then 0 else 2 * And(x / 2, y / 2) + if x % 2 == 1 && y % 2 == 1 then 1 else 0
  }

  /** `x | y` */
  function Or(x: nat, y: nat): nat
    decreases x + y
  {
    if x == 0 then y
    else if y == 0 then x
    else 2 * Or(x / 2, y / 2) + if x % 2 == 1 || y % 2 == 1 then 1 else 0
  }

  lemma {:induction false} OrSymmetric(x: nat, y: nat)
    ensures Or(x, y) == Or(y, x)
    decreases x + y
  {
    if x > 0 && y > 0 { OrSymmetric(x / 2, y / 2); }
  }

  /** Operands without a common bit: the result is their sum. */
  lemma {:induction false} OrDisjoint(hi: nat, lo: nat, n: nat)
    requires lo < Pow2(n)
    ensures Or(hi * Pow2(n), lo) == hi * Pow2(n) + lo
  {
    hide Or, Pow2;
    if n == 0 {
      Pow2Zero();
      OrZero(hi);
    } else {
      Pow2Step(n);
      Doubled(hi, Pow2(n - 1));
      OrDisjoint(hi, lo / 2, n - 1);
      OrEven(hi * Pow2(n - 1), lo);
    }
  }

  lemma Pow2Step(n: nat)
    requires n > 0
    ensures Pow2(n) == 2 * Pow2(n - 1)
  {
  }

  lemma {:induction false} OrEven(half: nat, lo: nat)
    ensures Or(2 * half, lo) == 2 * Or(half, lo / 2) + lo % 2
  {
    if half == 0 || lo == 0 {
      OrZero(lo);
      OrZero(lo / 2);
      OrZero(2 * half);
      OrZero(half);
    } else {
      assert (2 * half) / 2 == half && (2 * half) % 2 == 0;
    }
  }

  lemma {:induction false} OrZero(x: nat)
    ensures Or(0, x) == x && Or(x, 0) == x
  {
  }

  /** A mask of `n` ones keeps the remainder. */
  lemma {:induction false} AndOnes(x: nat, n: nat)
    ensures And(x, Pow2(n) - 1) == x % Pow2(n)
  {
    hide And, Pow2;
    if n == 0 {
      Pow2Zero();
      AndZero(x);
    } else {
      Pow2Step(n);
      AndOnes(x / 2, n - 1);
      LastDigit(x, Pow2(n - 1));
      AndOdd(x, Pow2(n - 1) - 1);
    }
  }

  lemma {:induction false} AndZero(x: nat)
    ensures And(x, 0) == 0 && x % 1 == 0
  {
  }

  lemma {:induction false} AndOdd(x: nat, m: nat)
    ensures And(x, 2 * m + 1) == 2 * And(x / 2, m) + x % 2
  {
    assert (2 * m + 1) / 2 == m && (2 * m + 1) % 2 == 1;
  }

  lemma LastDigit(x: nat, p: nat)
    requires p > 0
    ensures x % (2 * p) == 2 * ((x / 2) % p) + x % 2
  {
    var h := x / 2;
    var q, r := h / p, h % p;
    assert x == 2 * h + x % 2 && h == p * q + r;
    assert x == (2 * p) * q + (2 * r + x % 2);
    RemainderIs(x, 2 * p, q, 2 * r + x % 2);
  }

  lemma RemainderIs(x: int, d: int, q: int, r: int)
    requires d > 0 && x == d * q + r && 0 <= r < d
    ensures x % d == r && x / d == q
  {
    var k := x / d - q;
    assert d * k == r - x % d;
    assert k >= 1 ==> d * k >= d;
    assert k <= -1 ==> d * k <= -d;
  }

  /** A mask shifted left looks at the value shifted right. */
  lemma {:induction false} AndShifted(x: nat, m: nat, n: nat)
    ensures x / Pow2(n) >= 0 && And(x, m * Pow2(n)) == And(x / Pow2(n), m) * Pow2(n)
  {
    hide And;
    DivisionNat(x, Pow2(n));
    if n > 0 {
      var p := Pow2(n - 1);
      DivisionNat(x / 2, p);
      AndShifted(x / 2, m, n - 1);
      HalfFirst(x, p);
      AndEven(x, m * p);
      Doubled(m, p);
      Doubled(And(x / 2 / p, m), p);
    }
  }

  lemma Doubled(a: int, p: int)
    ensures a * (2 * p) == 2 * (a * p)
  {
  }

  lemma {:induction false} AndEven(x: nat, half: nat)
    ensures And(x, 2 * half) == 2 * And(x / 2, half)
  {
    assert (2 * half) / 2 == half && (2 * half) % 2 == 0;
  }

  lemma HalfFirst(x: nat, p: nat)
    requires p > 0
    ensures x / 2 / p == x / (2 * p)
  {
    var h := x / 2;
    var q, r := h / p, h % p;
    assert x == 2 * h + x % 2 && h == p * q + r;
    assert x == (2 * p) * q + (2 * r + x % 2);
    RemainderIs(x, 2 * p, q, 2 * r + x % 2);
  }

  /** Testing one bit. */
  lemma AndBit(x: nat, n: nat)
    ensures And(x, Pow2(n)) != 0 <==> (x / Pow2(n)) % 2 == 1
  {
    AndShifted(x, 1, n);
    var y := x / Pow2(n);
    AndOnes(y, 1);
    assert Pow2(1) == 2;
    assert (y % 2) * Pow2(n) == if y % 2 == 1 then Pow2(n) else 0;
  }
}
