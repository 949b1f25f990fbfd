/** The port search of npf_portmap_get (src/kern/npf_portmap.c): which ports a whole search probes. */
module PortSearch {
  import opened Words

  function Gcd(a: nat, b: nat): (g: nat)
    ensures a > 0 || b > 0 ==> g > 0
    decreases b
  {
    if b == 0 then a else Gcd(b, a % b)
  }

  /** Bezout: the greatest common divisor is a combination of the two numbers, and divides both. */
  lemma {:induction false} Bezout(a: nat, b: nat) returns (u: int, v: int, a1: nat, b1: nat)
    ensures u * a + v * b == Gcd(a, b)
    ensures a == Gcd(a, b) * a1 && b == Gcd(a, b) * b1
    decreases b
  {
    if b == 0 {
      u, v, a1, b1 := 1, 0, 1, 0;
    } else {
      var u', v', a', b' := Bezout(b, a % b);
      var q := a / b;
      u, v := v', u' - q * v';
      a1, b1 := b' + q * a', a';
      Combine(a, b, q, u', v', a', b', Gcd(a, b));
    }
  }

  lemma Combine(a: int, b: int, q: int, u: int, v: int, a1: int, b1: int, g: int)
    requires u * b + v * (a - q * b) == g && b == g * a1 && a - q * b == g * b1
    ensures v * a + (u - q * v) * b == g && a == g * (b1 + q * a1)
  {
  }

  /** Offsets from the lowest port, in the order they are probed. */
  function Offset(min: nat, delta: nat, first: nat, k: nat): (o: nat)
    requires first < delta
    ensures o < delta
  {
    if k == 0 then first else (min + Offset(min, delta, first, k - 1) + 1) % delta
  }

  lemma ModStep(x: int, y: int, d: nat)
    requires d > 0
    ensures (x % d + y) % d == (x + y) % d
  {
    var q, r := x / d, x % d;
    var q' := (r + y) / d;
    ModUnique(x + y, d, q + q', (r + y) % d);
  }

  lemma {:induction false} OffsetClosed(min: nat, delta: nat, first: nat, k: nat)
    requires first < delta
    ensures Offset(min, delta, first, k) == (first + k * (min + 1)) % delta
  {
    if k == 0 {
      ModUnique(first, delta, 0, first);
    } else {
      OffsetClosed(min, delta, first, k - 1);
      var x := first + (k - 1) * (min + 1);
      ModStep(x, min + 1, delta);
      assert x + (min + 1) == first + k * (min + 1);
    }
  }

  /** The number of ports a whole search probes. */
  function Period(min: nat, delta: nat): (l: nat)
    requires delta > 0
    ensures l > 0 && delta == Gcd(min + 1, delta) * l
  {
    var g := Gcd(min + 1, delta);
    PeriodExact(min, delta);
    delta / g
  }

  lemma PeriodExact(min: nat, delta: nat)
    requires delta > 0
    ensures var g := Gcd(min + 1, delta); g > 0 && delta / g > 0 && delta == g * (delta / g)
  {
    var u, v, a1, b1 := Bezout(min + 1, delta);
    var g := Gcd(min + 1, delta);
    
    ModUnique(delta, g, b1, 0);
  }

  /** Walking k strides comes back exactly when k is a multiple of the period. */
  lemma StridesReturn(s: nat, d: nat, k: int)
    requires d > 0
    ensures var g := Gcd(s, d); g > 0 && d / g > 0 && ((k * s) % d == 0 <==> k % (d / g) == 0)
  {
    var u, v, s1, l := Bezout(s, d);
    var g := Gcd(s, d);
    ModUnique(d, g, l, 0);
    if (k * s) % d == 0 {
      var q := (k * s) / d;
      assert k * s == q * d;
      Cancel(k, s, d, u, v, g, l, q);
      ModUnique(k, l, u * q + v * k, 0);
    }
    if k % l == 0 {
      var m := k / l;
      Regroup(k, l, m, g, s, s1, d);
      ModUnique(k * s, d, m * s1, 0);
    }
  }

  lemma Cancel(k: int, s: int, d: int, u: int, v: int, g: nat, l: int, q: int)
    requires g > 0 && u * s + v * d == g && d == g * l && k * s == q * d
    ensures k == l * (u * q + v * k)
  {
  }

  lemma Regroup(k: int, l: int, m: int, g: int, s: int, s1: int, d: int)
    requires k == l * m && s == g * s1 && d == g * l
    ensures k * s == d * (m * s1)
  {
  }

  /** Two residues agree exactly when their difference is a multiple of the modulus. */
  lemma ModEqual(x: int, y: int, d: nat)
    requires d > 0
    ensures x % d == y % d <==> (x - y) % d == 0
  {
    var qx, qy := x / d, y / d;
    if x % d == y % d {
      assert x - y == d * qx - d * qy;
      assert d * qx - d * qy == d * (qx - qy);
      ModUnique(x - y, d, qx - qy, 0);
    }
    if (x - y) % d == 0 {
      var q := (x - y) / d;
      assert x == d * qy + y % d + d * q;
      assert d * qy + d * q == d * (qy + q);
      ModUnique(x, d, qy + q, y % d);
    }
  }

  /** Two probes hit the same port exactly when they are a whole number of periods apart. */
  lemma ProbesRepeat(min: nat, delta: nat, first: nat, i: nat, j: nat)
    requires first < delta
    ensures Offset(min, delta, first, i) == Offset(min, delta, first, j) <==> (i - j) % Period(min, delta) == 0
  {
    OffsetClosed(min, delta, first, i);
    OffsetClosed(min, delta, first, j);
    var x, y := first + i * (min + 1), first + j * (min + 1);
    ModEqual(x, y, delta);
    assert x - y == (i - j) * (min + 1);
    StridesReturn(min + 1, delta, i - j);
  }

  /** A search probes exactly the offsets that differ from the first by a multiple of the divisor. */
  lemma ProbesExactly(min: nat, delta: nat, first: nat, o: nat)
    requires first < delta && o < delta
    ensures (exists k: nat :: k < Period(min, delta) && Offset(min, delta, first, k) == o)
            <==> (o - first) % Gcd(min + 1, delta) == 0
  {
    var g, l := Gcd(min + 1, delta), Period(min, delta);
    if (o - first) % g == 0 {
      var k := Reach(min, delta, first, o);
    }
    if k: nat :| k < l && Offset(min, delta, first, k) == o {
      Reached(min, delta, first, k);
    }
  }

  lemma Reached(min: nat, delta: nat, first: nat, k: nat)
    requires first < delta
    ensures (Offset(min, delta, first, k) - first) % Gcd(min + 1, delta) == 0
  {
    var u, v, s1, l := Bezout(min + 1, delta);
    var g := Gcd(min + 1, delta);
    OffsetClosed(min, delta, first, k);
    var q, o := DivMod(first + k * (min + 1), delta);
    Factor(k, min + 1, g, s1, delta, l, q, o - first);
    ModUnique(o - first, g, k * s1 - l * q, 0);
  }

  lemma Factor(k: int, s: int, g: int, s1: int, d: int, l: int, q: int, diff: int)
    requires s == g * s1 && d == g * l && diff == k * s - d * q
    ensures diff == g * (k * s1 - l * q)
  {
  }

  lemma Reach(min: nat, delta: nat, first: nat, o: nat) returns (k: nat)
    requires first < delta && o < delta && (o - first) % Gcd(min + 1, delta) == 0
    ensures k < Period(min, delta) && Offset(min, delta, first, k) == o
  {
    var s := min + 1;
    var u, v, s1, l := Bezout(s, delta);
    var g := Gcd(s, delta);
    var m := (o - first) / g;
    k := (m * u) % Period(min, delta);
    var q := (m * u) / Period(min, delta);
    ReachSum(s, delta, u, v, g, l, s1, m, q, k, o - first, Period(min, delta));
    OffsetClosed(min, delta, first, k);
    ModUnique(first + k * s, delta, 0 - m * v - q * s1, o);
  }

  lemma ReachSum(s: int, d: int, u: int, v: int, g: nat, l: int, s1: int, m: int, q: int, k: int, diff: int, p: int)
    requires u * s + v * d == g && d == g * l && s == g * s1 && g > 0 && diff == g * m && m * u == p * q + k
    requires d == g * p
    ensures k * s == d * (0 - m * v - q * s1) + diff
  {
  }

  /** The ports a search probes, in order. */
  function Probe(min: nat, delta: nat, first: nat, k: nat): (p: nat)
    requires first < delta
    ensures min <= p < min + delta
  {
    min + Offset(min, delta, first, k)
  }

  /**
   * npf_portmap_get. The attempts on single ports are those of the port map under whatever the other
   * threads do: refused(k, p) says that the k-th attempt, on port p, fails. memory says whether the
   * bitmap of the address could be obtained.
   */
  method Get(min: nat, max: nat, random: nat, memory: bool, refused: (nat, nat) -> bool)
    returns (port: nat, found: bool, ghost probes: nat)
    requires max <= 65535
    ensures !found ==> port == 0
    ensures min > max || !memory ==> !found && probes == 0
    ensures min <= max && memory ==>
      var delta := max - min + 1;
      && probes <= Period(min, delta)
      && (forall k: nat :: k < probes ==> refused(k, Probe(min, delta, random % delta, k)))
      && (found ==>
            && probes < Period(min, delta) && port == Probe(min, delta, random % delta, probes)
            && !refused(probes, port))
      && (!found ==> probes == Period(min, delta))
    ensures min <= max && memory && !found && Gcd(min + 1, max - min + 1) == 1 ==>
      AllTaken(min, max - min + 1, random % (max - min + 1), refused)
  {
    probes := 0;
    if min > max || !memory {
      return 0, false, 0;
    }
    var delta := max - min + 1;
    ghost var first := random % delta;
    ghost var period := Period(min, delta);
    var target := min + random % delta;
    var bit := target;
    var k: nat := 0;
    while true
      invariant k < period && bit == Probe(min, delta, first, k)
      invariant forall i: nat :: i < k ==> refused(i, Probe(min, delta, first, i))
      decreases period - k
    {
      if !refused(k, bit) {
        return bit, true, k;
      }
      bit := min + (bit + 1) % delta;
      k := k + 1;
      assert bit == Probe(min, delta, first, k);
      BackAtTarget(min, delta, first, k);
      if bit == target {
        AllTriedInVain(min, delta, first, refused);
        return 0, false, k;
      }
    }
  }

  /** A port was tried and refused in the course of a search. */
  predicate TriedInVain(min: nat, delta: nat, first: nat, refused: (nat, nat) -> bool, p: nat)
    requires first < delta
  {
    exists k: nat :: k < Period(min, delta) && Probe(min, delta, first, k) == p && refused(k, p)
  }

  /** Every port of the range was. */
  ghost predicate AllTaken(min: nat, delta: nat, first: nat, refused: (nat, nat) -> bool)
    requires first < delta
  {
    forall p: nat :: min <= p < min + delta ==> TriedInVain(min, delta, first, refused, p)
  }

  lemma AllTriedInVain(min: nat, delta: nat, first: nat, refused: (nat, nat) -> bool)
    requires first < delta
    requires forall k: nat :: k < Period(min, delta) ==> refused(k, Probe(min, delta, first, k))
    ensures Gcd(min + 1, delta) == 1 ==> AllTaken(min, delta, first, refused)
  {
    CoversRange(min, delta, first);
    if Gcd(min + 1, delta) == 1 {
      forall p: nat | min <= p < min + delta ensures TriedInVain(min, delta, first, refused, p) {
        assert Probed(min, delta, first, p);
      }
    }
  }

  lemma BackAtTarget(min: nat, delta: nat, first: nat, k: nat)
    requires first < delta && 0 < k <= Period(min, delta)
    ensures Probe(min, delta, first, k) == Probe(min, delta, first, 0) <==> k == Period(min, delta)
  {
    ProbesRepeat(min, delta, first, k, 0);
    var l := Period(min, delta);
    if k < l {
      ModUnique(k, l, 0, k);
    } else {
      ModUnique(k, l, 1, 0);
    }
  }

  /** No port is probed twice in a search. */
  lemma ProbesDistinct(min: nat, delta: nat, first: nat, i: nat, j: nat)
    requires first < delta && i < j < Period(min, delta)
    ensures Probe(min, delta, first, i) != Probe(min, delta, first, j)
  {
    ProbesRepeat(min, delta, first, j, i);
    ModUnique(j - i, Period(min, delta), 0, j - i);
  }

  /** A port is tried at some point of an unsuccessful search. */
  predicate Probed(min: nat, delta: nat, first: nat, p: nat)
    requires first < delta
  {
    exists k: nat :: k < Period(min, delta) && Probe(min, delta, first, k) == p
  }

  /**
   * A failed search means that every port of the range was refused, whatever the start, exactly when
   * the step min + 1 and the size of the range are coprime.
   */
  lemma CoversRange(min: nat, delta: nat, first: nat)
    requires first < delta
    ensures (forall p: nat :: min <= p < min + delta ==> Probed(min, delta, first, p)) <==> Gcd(min + 1, delta) == 1
  {
    var g := Gcd(min + 1, delta);
    if g == 1 {
      forall p: nat | min <= p < min + delta ensures Probed(min, delta, first, p) {
        var k := Reach(min, delta, first, p - min);
        assert Probe(min, delta, first, k) == p;
      }
    } else {
      Neighbour(delta, g, Period(min, delta));
      var o := if first == 0 then 1 else first - 1;
      ProbesExactly(min, delta, first, o);
      NotMultiple(o - first, g);
      forall k: nat | k < Period(min, delta) ensures Probe(min, delta, first, k) != min + o {
        assert Offset(min, delta, first, k) != o;
      }
      assert !Probed(min, delta, first, min + o);
    }
  }

  lemma Neighbour(delta: nat, g: nat, l: nat)
    requires delta == g * l && g > 1 && l > 0
    ensures delta > 1
  {
  }

  lemma NotMultiple(x: int, g: nat)
    requires g > 1 && (x == 1 || x == -1)
    ensures x % g != 0
  {
  }

  /** The default ranges, and the call-ID range, are covered. */
  lemma DefaultsCovered()
    ensures Gcd(1024 + 1, 65535 - 1024 + 1) == 1
    ensures Gcd(1024 + 1, 49151 - 1024 + 1) == 1
    ensures Gcd(1 + 1, 65535 - 1 + 1) == 1
  {
    assert Gcd(1025, 64512) == Gcd(64512, 1025) == Gcd(1025, 962) == Gcd(962, 63) == Gcd(63, 17) == Gcd(17, 12)
        == Gcd(12, 5) == Gcd(5, 2) == Gcd(2, 1) == Gcd(1, 0);
    assert Gcd(1025, 48128) == Gcd(48128, 1025) == Gcd(1025, 978) == Gcd(978, 47) == Gcd(47, 38) == Gcd(38, 9)
        == Gcd(9, 2) == Gcd(2, 1) == Gcd(1, 0);
  }

  /** From 2000 to 4000 the search tries a single port and gives up, whatever else is free. */
  lemma OnePortTried()
    ensures Period(2000, 4000 - 2000 + 1) == 1
  {
  }
}
