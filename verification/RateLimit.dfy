/** The committed access rate limiter (src/kern/npf_ext_ratelimit.c). */
module RateLimit {
  import opened Words

  const M64 := 0x1_0000_0000_0000_0000
  const HALF64 := 0x8000_0000_0000_0000

  /** The tokens in a millisecond, the normal burst and the extended burst. */
  datatype Rate = Rate(cirTok: nat, cbs: nat, ebs: nat)

  /** The token counter, the compounded debt and the time of the last refill. */
  datatype Car = Car(tc: int, compounded: nat, tslast: nat)

  datatype Arrival = Arrival(now: nat, nbytes: nat)

  function Min(a: int, b: int): int { if a < b then a else b }

  /** The refill, over unbounded integers. */
  function Refilled(k: Rate, c: Car, now: nat): Car {
    if now > c.tslast then c.(tc := Min(c.tc + (now - c.tslast) * k.cirTok, k.cbs), tslast := now) else c
  }

  /** What happens to a packet, over unbounded integers. */
  function Step(k: Rate, c: Car, a: Arrival): (bool, Car) {
    var r := Refilled(k, c, a.now);
    var debt := a.nbytes - r.tc;
    if debt <= 0 then (true, r.(tc := r.tc - a.nbytes))
    else if debt > k.ebs || r.compounded + debt > k.ebs then (false, r.(compounded := 0))
    else (true, r.(tc := 0 - debt, compounded := r.compounded + debt))
  }

  /** No 64-bit operation overflows. */
  predicate Fits(k: Rate, c: Car, a: Arrival) {
    && k.cbs < HALF64 / 2 && k.ebs < HALF64 / 2 && a.nbytes < HALF64 / 2 && a.now < M64
    && (a.now > c.tslast ==> (a.now - c.tslast) * k.cirTok < HALF64 / 2)
  }

  predicate CarOk(k: Rate, c: Car) {
    0 - k.ebs <= c.tc <= k.cbs && c.compounded <= k.ebs
  }

  // ----- the kernel's 64-bit arithmetic

  function U64(x: int): (r: nat)
    ensures r < M64
  {
    x % M64
  }

  /** An unsigned 64-bit number read as a signed one. */
  function S64(x: int): (r: int)
    ensures -HALF64 <= r < HALF64
  {
    if U64(x) < HALF64 then U64(x) else U64(x) - M64
  }

  lemma U64Small(x: int)
    requires 0 <= x < M64
    ensures U64(x) == x
  {
  }

  lemma S64Small(x: int)
    requires -HALF64 <= x < HALF64
    ensures S64(x) == x && S64(U64(x)) == x
  {
  }

  /** The limiter kept in place. */
  class Limiter {
    const rate: Rate
    var tc: int
    var compounded: nat
    var tslast: nat

    ghost function Value(): Car
      reads this
    {
      Car(tc, compounded, tslast)
    }

    constructor (rate: Rate)
      ensures this.rate == rate && Value() == Start()
    {
      this.rate := rate;
      tc, compounded, tslast := 0, 0, 0;
    }

    /** car_ratelimit: without overflow it is the step over unbounded integers. */
    method Limit(now: nat, nbytes: nat) returns (pass: bool)
      requires CarOk(rate, Value()) && Fits(rate, Value(), Arrival(now, nbytes))
      modifies this
      ensures var r := Step(rate, old(Value()), Arrival(now, nbytes)); pass == r.0 && Value() == r.1
      ensures CarOk(rate, Value())
    {
      hide U64, S64;
      StepKeeps(rate, Value(), Arrival(now, nbytes));
      if now > tslast {
        ghost var t := (now - tslast) * rate.cirTok;
        MulMonotone(rate.cirTok, 0, now - tslast);
        U64Small(t);
        S64Small(tc + t);
        var tokens := U64((now - tslast) * rate.cirTok);
        var refilled := S64(tc + tokens);
        S64Small(rate.cbs);
        tc := if refilled < S64(rate.cbs) then refilled else S64(rate.cbs);
        tslast := now;
      }
      S64Small(nbytes);
      S64Small(tc - nbytes);
      var remaining := S64(tc - S64(nbytes));
      if remaining >= 0 {
        tc := S64(tc - nbytes);
        return true;
      }
      U64Small(0 - tc + nbytes);
      var actual := U64(0 - tc + nbytes);
      U64Small(compounded + actual);
      var total := U64(compounded + actual);
      if actual > rate.ebs {
        compounded := 0;
        return false;
      }
      if total > rate.ebs {
        compounded := 0;
        return false;
      }
      S64Small(0 - actual);
      tc := S64(0 - actual);
      compounded := total;
      return true;
    }
  }

  function Start(): Car { Car(0, 0, 0) }

  // ----- what every step keeps

  /** The counters stay within the bursts, and what passes is paid for. */
  lemma StepKeeps(k: Rate, c: Car, a: Arrival)
    requires CarOk(k, c)
    ensures var r := Step(k, c, a);
      && CarOk(k, r.1) && r.1.tslast >= c.tslast
      && (if r.0 then a.nbytes else 0) <= c.tc - r.1.tc + k.cirTok * (r.1.tslast - c.tslast)
  {
  }

  // ----- whole runs

  ghost predicate Run(k: Rate, run: seq<Car>, arrivals: seq<Arrival>) {
    && |run| == |arrivals| + 1 && run[0] == Start()
    && forall i :: 0 <= i < |arrivals| ==> run[i + 1] == Step(k, run[i], arrivals[i]).1
  }

  lemma {:induction false} CountersInRun(k: Rate, run: seq<Car>, arrivals: seq<Arrival>, i: nat)
    requires Run(k, run, arrivals) && i < |run|
    ensures CarOk(k, run[i])
  {
    hide Step;
    if i > 0 {
      CountersInRun(k, run, arrivals, i - 1);
      StepKeeps(k, run[i - 1], arrivals[i - 1]);
    }
  }

  /** The bytes that pass from packet i on, before packet j. */
  function Passed(k: Rate, run: seq<Car>, arrivals: seq<Arrival>, i: nat, j: nat): nat
    requires i <= j <= |arrivals| && |run| == |arrivals| + 1
  {
    if i == j then 0
    else
      Passed(k, run, arrivals, i, j - 1)
      + if Step(k, run[j - 1], arrivals[j - 1]).0 then arrivals[j - 1].nbytes else 0
  }

  lemma {:induction false} PassedPaid(k: Rate, run: seq<Car>, arrivals: seq<Arrival>, i: nat, j: nat)
    requires Run(k, run, arrivals) && i <= j <= |arrivals|
    ensures run[j].tslast >= run[i].tslast
    ensures Passed(k, run, arrivals, i, j) <= run[i].tc - run[j].tc + k.cirTok * (run[j].tslast - run[i].tslast)
  {
    hide Step;
    if i < j {
      PassedPaid(k, run, arrivals, i, j - 1);
      CountersInRun(k, run, arrivals, j - 1);
      StepKeeps(k, run[j - 1], arrivals[j - 1]);
      Telescope(k.cirTok, run[i].tslast, run[j - 1].tslast, run[j].tslast);
    }
  }

  lemma Telescope(m: int, a: int, b: int, c: int)
    ensures m * (b - a) + m * (c - b) == m * (c - a)
  {
  }

  /** Between any two points of any run no more passes than the bursts and the rate allow. */
  lemma RateBound(k: Rate, run: seq<Car>, arrivals: seq<Arrival>, i: nat, j: nat)
    requires Run(k, run, arrivals) && i <= j <= |arrivals|
    ensures Passed(k, run, arrivals, i, j) <= k.cbs + k.ebs + k.cirTok * (run[j].tslast - run[i].tslast)
  {
    hide Step;
    PassedPaid(k, run, arrivals, i, j);
    CountersInRun(k, run, arrivals, i);
    CountersInRun(k, run, arrivals, j);
  }

  /** The actual debts after the borrowing packets since the last drop, before packet j. */
  function DebtsSince(k: Rate, run: seq<Car>, arrivals: seq<Arrival>, j: nat): int
    requires j <= |arrivals| && |run| == |arrivals| + 1
  {
    if j == 0 || !Step(k, run[j - 1], arrivals[j - 1]).0 then 0
    else DebtsSince(k, run, arrivals, j - 1) + if run[j].tc < 0 then 0 - run[j].tc else 0
  }

  /** The compounded debt is the sum of all actual debts since the last drop. */
  lemma {:induction false} CompoundedIsSum(k: Rate, run: seq<Car>, arrivals: seq<Arrival>, j: nat)
    requires Run(k, run, arrivals) && j <= |arrivals|
    ensures run[j].compounded == DebtsSince(k, run, arrivals, j)
  {
    if j > 0 {
      CompoundedIsSum(k, run, arrivals, j - 1);
      assert run[j] == Step(k, run[j - 1], arrivals[j - 1]).1;
    }
  }
}
