/** Machine words as bounded integers, powers of two and bitwise operators on naturals. */
module Words {

  const W16 := 0x1_0000
  const W32 := 0x1_0000_0000

  type u8 = x: int | 0 <= x < 256
  type u16 = x: int | 0 <= x < 0x1_0000
  type u32 = x: int | 0 <= x < 0x1_0000_0000

  datatype Option<+T> = None | Some(value: T)

  function Pow2(n: nat): (r: nat)
    ensures r >= 1
    ensures n >= 1 ==> r % 2 == 0
  {
    if n == 0 then 1 else 2 * Pow2(n - 1)
  }

  /** The number that bytes in network order stand for. */
  function BigEndian(bs: seq<u8>): nat {
    if bs == [] then 0 else 256 * BigEndian(bs[..|bs| - 1]) + bs[|bs| - 1]
  }

  /** Bitwise conjunction. */
  function And(a: nat, b: nat): (r: nat)
    ensures r <= a && r <= b
  {
    if a == 0 || b == 0 then 0
    else 2 * And(a / 2, b / 2) + (if a % 2 == 1 && b % 2 == 1 then 1 else 0)
  }

  lemma {:induction false} OrBound(n: nat, a: nat, b: nat)
    requires a < Pow2(n) && b < Pow2(n)
    ensures a + b - And(a, b) < Pow2(n)
  {
    if n > 0 && a != 0 && b != 0 {
      OrBound(n - 1, a / 2, b / 2);
    }
  }

  lemma Pow2At32()
    ensures Pow2(8) == 0x100 && Pow2(16) == W16 && Pow2(32) == W32
  {
    assert Pow2(8) == 0x100;
    assert Pow2(16) == 0x100 * Pow2(8) by {
      assert Pow2(12) == 16 * Pow2(8);
      assert Pow2(16) == 16 * Pow2(12);
    }
    assert Pow2(24) == 0x100 * Pow2(16) by {
      assert Pow2(20) == 16 * Pow2(16);
      assert Pow2(24) == 16 * Pow2(20);
    }
    assert Pow2(32) == 0x100 * Pow2(24) by {
      assert Pow2(28) == 16 * Pow2(24);
      assert Pow2(32) == 16 * Pow2(28);
    }
  }

  /** Bitwise disjunction and exclusive disjunction, from a + b == (a | b) + (a & b). */
  function Or32(a: u32, b: u32): u32 {
    Pow2At32();
    OrBound(32, a, b);
    a + b - And(a, b)
  }

  function Xor32(a: u32, b: u32): u32 {
    Pow2At32();
    OrBound(32, a, b);
    a + b - 2 * And(a, b)
  }

  lemma {:induction false} Pow2Monotone(n: nat, w: nat)
    requires n <= w
    ensures Pow2(n) <= Pow2(w)
  {
    if n < w {
      Pow2Monotone(n, w - 1);
    }
  }

  /** A mask with the low n of w bits clear keeps exactly what is above those n bits. */
  lemma AndHighMask(w: nat, n: nat, a: nat)
    requires n <= w && a < Pow2(w)
    ensures Pow2(n) <= Pow2(w)
    ensures And(a, Pow2(w) - Pow2(n)) == a - a % Pow2(n)
  {
    hide And, Pow2;
    Pow2Monotone(n, w);
    Pow2Add(n, w - n);
    var h, l := DivMod(a, Pow2(n));
    AndAbove(n, w - n, a, h, l, Pow2(w) - Pow2(n));
  }

  lemma DivMod(a: nat, p: nat) returns (h: nat, l: nat)
    requires p > 0
    ensures a == p * h + l && l < p && l == a % p && h == a / p
  {
    h, l := a / p, a % p;
  }

  lemma AndAbove(n: nat, k: nat, a: nat, h: nat, l: nat, mask: nat)
    requires l < Pow2(n) && a == Pow2(n) * h + l && a < Pow2(n) * Pow2(k) && mask == Pow2(n) * Pow2(k) - Pow2(n)
    ensures And(a, mask) == a - l
  {
    hide And, Pow2;
    QuotientBound(Pow2(n), h, l, Pow2(k));
    AndShifted(n, h, Pow2(k) - 1, l);
    AndOnes(k, h);
    Distribute(Pow2(n), Pow2(k));
  }

  lemma QuotientBound(p: nat, h: nat, l: nat, k: nat)
    requires p * h + l < p * k
    ensures h < k
  {
  }

  lemma {:induction false} AndShifted(n: nat, h: nat, m: nat, l: nat)
    requires l < Pow2(n)
    ensures And(Pow2(n) * h + l, Pow2(n) * m) == Pow2(n) * And(h, m)
  {
    hide And;
    if n > 0 {
      AndShifted(n - 1, h, m, l / 2);
      AndDoubled(Pow2(n - 1), h, m, l, And(h, m));
    }
  }

  lemma AndDoubled(p: nat, h: nat, m: nat, l: nat, r: nat)
    requires And(p * h + l / 2, p * m) == p * r
    ensures And((2 * p) * h + l, (2 * p) * m) == (2 * p) * r
  {
    hide And;
    DoubleProduct(p, h);
    DoubleProduct(p, m);
    DoubleProduct(p, r);
    var x := p * h;
    assert (2 * x + l) / 2 == x + l / 2;
    AndStep(2 * x + l, p * m);
  }

  lemma DoubleProduct(p: nat, x: nat)
    ensures (2 * p) * x == 2 * (p * x)
  {
  }

  lemma Distribute(p: int, x: int)
    ensures p * (x - 1) == p * x - p
  {
  }

  lemma {:induction false} Pow2Add(n: nat, m: nat)
    ensures Pow2(n) * Pow2(m) == Pow2(n + m)
  {
    if n > 0 {
      Pow2Add(n - 1, m);
      DoubleProduct(Pow2(n - 1), Pow2(m));
    }
  }

  lemma AndStep(a: nat, b: nat)
    ensures And(a, 2 * b) == 2 * And(a / 2, b)
  {
  }

  lemma {:induction false} AndOnes(w: nat, a: nat)
    requires a < Pow2(w)
    ensures And(a, Pow2(w) - 1) == a
  {
    if w > 0 {
      AndOnes(w - 1, a / 2);
    }
  }

  /** Division with remainder is unique. */
  lemma ModUnique(a: int, m: int, q: int, r: int)
    requires m > 0 && 0 <= r < m && a == m * q + r
    ensures a % m == r && a / m == q
  {
    ghost var q', r' := a / m, a % m;
    assert m * q' + r' == m * q + r;
    MulGap(m, q, q', r' - r);
  }

  lemma MulGap(m: int, q: int, q': int, d: int)
    requires m > 0 && -m < d < m && m * q' + d == m * q
    ensures q == q' && d == 0
  {
    if q >= q' + 1 {
      MulMonotone(m, q' + 1, q);
    } else if q <= q' - 1 {
      MulMonotone(m, q + 1, q');
    }
  }

  lemma MulMonotone(m: int, x: int, y: int)
    requires m >= 0 && x <= y
    ensures m * x <= m * y
  {
  }
}
