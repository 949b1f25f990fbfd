/**
  * The rate limiter said from its history: the tokens a packet finds are what was earned less what has
  * passed, with the bucket never fuller than the normal burst.
  */
module RateTokens {
  import opened RateLimit

  /** The latest time among the first n arrivals. */
  function Clock(arrivals: seq<Arrival>, n: nat): nat
    requires n <= |arrivals|
  {
    if n == 0 then 0
    else if arrivals[n - 1].now > Clock(arrivals, n - 1) then arrivals[n - 1].now
    else Clock(arrivals, n - 1)
  }

  /** The bytes of the packets from i on, before j, that passed. */
  function Gone(arrivals: seq<Arrival>, passes: seq<bool>, i: nat, j: nat): nat
    requires i <= j <= |arrivals| == |passes|
  {
    if i == j then 0 else Gone(arrivals, passes, i, j - 1) + if passes[j - 1] then arrivals[j - 1].nbytes else 0
  }

  /** The tokens for packet j of a bucket that was full at packet i. */
  function SinceFull(k: Rate, arrivals: seq<Arrival>, passes: seq<bool>, i: nat, j: nat): int
    requires i <= j < |arrivals| == |passes|
  {
    k.cbs + k.cirTok * (Clock(arrivals, j + 1) - Clock(arrivals, i + 1)) - Gone(arrivals, passes, i, j)
  }

  /** The tokens for packet j of a bucket that was never full. */
  function SinceStart(k: Rate, arrivals: seq<Arrival>, passes: seq<bool>, j: nat): int
    requires j < |arrivals| == |passes|
  {
    k.cirTok * Clock(arrivals, j + 1) - Gone(arrivals, passes, 0, j)
  }

  /** The least of these, over the first n packets at which the bucket may have been full. */
  function Least(k: Rate, arrivals: seq<Arrival>, passes: seq<bool>, n: nat, j: nat): int
    requires n <= j + 1 && j < |arrivals| == |passes|
  {
    if n == 0 then SinceStart(k, arrivals, passes, j)
    else Min(Least(k, arrivals, passes, n - 1, j), SinceFull(k, arrivals, passes, n - 1, j))
  }

  function Tokens(k: Rate, arrivals: seq<Arrival>, passes: seq<bool>, j: nat): int
    requires j < |arrivals| == |passes|
  {
    Least(k, arrivals, passes, j + 1, j)
  }

  /** What packet j needs beyond its tokens. */
  function Debt(k: Rate, arrivals: seq<Arrival>, passes: seq<bool>, j: nat): int
    requires j < |arrivals| == |passes|
  {
    arrivals[j].nbytes - Tokens(k, arrivals, passes, j)
  }

  /** The debts taken since the last drop. */
  function Owed(k: Rate, arrivals: seq<Arrival>, passes: seq<bool>, j: nat): int
    requires j <= |arrivals| == |passes|
  {
    if j == 0 || !passes[j - 1] then 0
    else Owed(k, arrivals, passes, j - 1) + Max(0, Debt(k, arrivals, passes, j - 1))
  }

  function Max(a: int, b: int): int { if a < b then b else a }

  ghost predicate Verdicts(k: Rate, run: seq<Car>, arrivals: seq<Arrival>, passes: seq<bool>) {
    && Run(k, run, arrivals) && |passes| == |arrivals|
    && forall j :: 0 <= j < |arrivals| ==> passes[j] == Step(k, run[j], arrivals[j]).0
  }

  // ----- the counter is that number

  lemma {:induction false} ClockAt(k: Rate, run: seq<Car>, arrivals: seq<Arrival>, n: nat)
    requires Run(k, run, arrivals) && n <= |arrivals|
    ensures run[n].tslast == Clock(arrivals, n)
  {
    if n > 0 {
      ClockAt(k, run, arrivals, n - 1);
      assert run[n] == Step(k, run[n - 1], arrivals[n - 1]).1;
    }
  }

  /** One packet on, every candidate has earned and lost the same. */
  lemma {:induction false} LeastNext(k: Rate, arrivals: seq<Arrival>, passes: seq<bool>, n: nat, j: nat)
    requires 0 < j < |arrivals| == |passes| && n <= j
    ensures Least(k, arrivals, passes, n, j)
      == Least(k, arrivals, passes, n, j - 1) + k.cirTok * (Clock(arrivals, j + 1) - Clock(arrivals, j))
         - if passes[j - 1] then arrivals[j - 1].nbytes else 0
  {
    hide Clock;
    if n == 0 {
      Telescope(k.cirTok, 0, Clock(arrivals, j), Clock(arrivals, j + 1));
    } else {
      LeastNext(k, arrivals, passes, n - 1, j);
      Telescope(k.cirTok, Clock(arrivals, n), Clock(arrivals, j), Clock(arrivals, j + 1));
    }
  }

  /** The tokens of one packet from those of the packet before it. */
  lemma TokensNext(k: Rate, arrivals: seq<Arrival>, passes: seq<bool>, j: nat)
    requires j < |arrivals| == |passes|
    ensures var earned := k.cirTok * (Clock(arrivals, j + 1) - Clock(arrivals, j));
      var left :=
        if j == 0 then 0
        else Tokens(k, arrivals, passes, j - 1) - if passes[j - 1] then arrivals[j - 1].nbytes else 0;
      Tokens(k, arrivals, passes, j) == Min(left + earned, k.cbs)
  {
    hide Clock;
    assert SinceFull(k, arrivals, passes, j, j) == k.cbs;
    if j == 0 {
      NoTime(arrivals);
      assert Least(k, arrivals, passes, 0, 0) == SinceStart(k, arrivals, passes, 0);
    } else {
      LeastNext(k, arrivals, passes, j, j);
    }
  }

  /** A refill and a packet, with the refill written as one minimum. */
  lemma StepTokens(k: Rate, c: Car, a: Arrival)
    requires CarOk(k, c)
    ensures var r := Refilled(k, c, a.now); var s := Step(k, c, a);
      && r.tc == Min(c.tc + k.cirTok * (r.tslast - c.tslast), k.cbs) && s.1.tslast == r.tslast
      && s.1.tc == r.tc - (if s.0 then a.nbytes else 0)
  {
  }

  /** In every run the counter, refilled for packet j, is the tokens of packet j. */
  lemma {:induction false} TokensExact(k: Rate, run: seq<Car>, arrivals: seq<Arrival>, passes: seq<bool>, j: nat)
    requires Verdicts(k, run, arrivals, passes) && j < |arrivals|
    ensures Refilled(k, run[j], arrivals[j].now).tc == Tokens(k, arrivals, passes, j)
  {
    hide Step, Refilled, Tokens, Clock;
    CountersInRun(k, run, arrivals, j);
    StepTokens(k, run[j], arrivals[j]);
    ClockAt(k, run, arrivals, j);
    ClockAt(k, run, arrivals, j + 1);
    TokensNext(k, arrivals, passes, j);
    if j == 0 {
      NoTime(arrivals);
    } else {
      TokensExact(k, run, arrivals, passes, j - 1);
      CountersInRun(k, run, arrivals, j - 1);
      StepTokens(k, run[j - 1], arrivals[j - 1]);
    }
  }

  lemma NoTime(arrivals: seq<Arrival>)
    ensures Clock(arrivals, 0) == 0
  {
  }

  lemma {:induction false} OwedExact(k: Rate, run: seq<Car>, arrivals: seq<Arrival>, passes: seq<bool>, j: nat)
    requires Verdicts(k, run, arrivals, passes) && j <= |arrivals|
    ensures run[j].compounded == Owed(k, arrivals, passes, j)
  {
    hide Tokens, Refilled;
    if j > 0 {
      OwedExact(k, run, arrivals, passes, j - 1);
      TokensExact(k, run, arrivals, passes, j - 1);
      DebtStep(k, run[j - 1], arrivals[j - 1]);
    }
  }

  lemma DebtStep(k: Rate, c: Car, a: Arrival)
    ensures var s := Step(k, c, a); var debt := a.nbytes - Refilled(k, c, a.now).tc;
      && s.1.compounded == (if s.0 then c.compounded + Max(0, debt) else 0)
      && (s.0 <==> debt <= 0 || c.compounded + debt <= k.ebs)
  {
  }

  /**
    * In every run a packet passes exactly if its tokens cover it, or the extended burst covers its debt
    * together with the debts taken since the last drop.
    */
  lemma PassesExactly(k: Rate, run: seq<Car>, arrivals: seq<Arrival>, passes: seq<bool>, j: nat)
    requires Verdicts(k, run, arrivals, passes) && j < |arrivals|
    ensures var debt := Debt(k, arrivals, passes, j);
      passes[j] <==> debt <= 0 || Owed(k, arrivals, passes, j) + debt <= k.ebs
  {
    hide Step, Tokens, Refilled, Owed;
    TokensExact(k, run, arrivals, passes, j);
    OwedExact(k, run, arrivals, passes, j);
    DebtStep(k, run[j], arrivals[j]);
  }

  // ----- flows that keep to the rate

  /** All bytes offered from packet i on, before j. */
  function Offered(arrivals: seq<Arrival>, i: nat, j: nat): nat
    requires i <= j <= |arrivals|
  {
    if i == j then 0 else Offered(arrivals, i, j - 1) + arrivals[j - 1].nbytes
  }

  /** From packet i up to packet j no more than one normal burst and what the rate earns. */
  predicate Within(k: Rate, arrivals: seq<Arrival>, i: nat, j: nat)
    requires i <= j < |arrivals|
  {
    Offered(arrivals, i, j + 1) <= k.cbs + k.cirTok * (Clock(arrivals, j + 1) - Clock(arrivals, i + 1))
  }

  /** From the start, with an empty bucket, no more than the rate earns. */
  predicate WithinEarned(k: Rate, arrivals: seq<Arrival>, j: nat)
    requires j < |arrivals|
  {
    Offered(arrivals, 0, j + 1) <= k.cirTok * Clock(arrivals, j + 1)
  }

  predicate Conforms(k: Rate, arrivals: seq<Arrival>) {
    && (forall i, j :: 0 <= i <= j < |arrivals| ==> Within(k, arrivals, i, j))
    && (forall j :: 0 <= j < |arrivals| ==> WithinEarned(k, arrivals, j))
  }

  lemma {:induction false} GoneOffered(arrivals: seq<Arrival>, passes: seq<bool>, i: nat, j: nat)
    requires i <= j <= |arrivals| == |passes|
    ensures Gone(arrivals, passes, i, j) <= Offered(arrivals, i, j)
    ensures (forall m :: i <= m < j ==> passes[m]) ==> Gone(arrivals, passes, i, j) == Offered(arrivals, i, j)
  {
    if i < j {
      GoneOffered(arrivals, passes, i, j - 1);
    }
  }

  lemma {:induction false} LeastAtLeast(k: Rate, arrivals: seq<Arrival>, passes: seq<bool>, n: nat, j: nat)
    requires n <= j + 1 && j < |arrivals| == |passes| && Conforms(k, arrivals)
    ensures Least(k, arrivals, passes, n, j) >= arrivals[j].nbytes
  {
    hide Clock;
    var i := if n == 0 then 0 else n - 1;
    GoneOffered(arrivals, passes, i, j);
    assert Offered(arrivals, i, j + 1) == Offered(arrivals, i, j) + arrivals[j].nbytes;
    assert Within(k, arrivals, i, j) && WithinEarned(k, arrivals, j);
    if n > 0 {
      LeastAtLeast(k, arrivals, passes, n - 1, j);
    }
  }

  /** A flow that conforms loses no packet. */
  lemma NothingLost(k: Rate, run: seq<Car>, arrivals: seq<Arrival>, passes: seq<bool>)
    requires Verdicts(k, run, arrivals, passes) && Conforms(k, arrivals)
    ensures forall j :: 0 <= j < |arrivals| ==> passes[j]
  {
    hide Step, Conforms, Least, Clock;
    forall j | 0 <= j < |arrivals| ensures passes[j] {
      PassesExactly(k, run, arrivals, passes, j);
      LeastAtLeast(k, arrivals, passes, j + 1, j);
    }
  }

  lemma {:induction false} LeastAtMost(k: Rate, arrivals: seq<Arrival>, passes: seq<bool>, n: nat, j: nat, i: nat)
    requires n <= j + 1 && j < |arrivals| == |passes|
    ensures Least(k, arrivals, passes, n, j) <= SinceStart(k, arrivals, passes, j)
    ensures i < n ==> Least(k, arrivals, passes, n, j) <= SinceFull(k, arrivals, passes, i, j)
  {
    hide SinceFull, SinceStart;
    if n > 0 {
      LeastAtMost(k, arrivals, passes, n - 1, j, i);
    }
  }

  /** Without an extended burst only such flows lose nothing. */
  lemma NothingLostExactly(k: Rate, run: seq<Car>, arrivals: seq<Arrival>, passes: seq<bool>)
    requires Verdicts(k, run, arrivals, passes) && k.ebs == 0
    ensures (forall j :: 0 <= j < |arrivals| ==> passes[j]) <==> Conforms(k, arrivals)
  {
    hide Step, Clock;
    if forall j :: 0 <= j < |arrivals| ==> passes[j] {
      forall i, j | 0 <= i <= j < |arrivals| ensures Within(k, arrivals, i, j) && WithinEarned(k, arrivals, j) {
        WithinTokens(k, run, arrivals, passes, i, j);
      }
      forall j | 0 <= j < |arrivals| ensures WithinEarned(k, arrivals, j) {
        assert Within(k, arrivals, 0, j);
      }
    } else if Conforms(k, arrivals) {
      NothingLost(k, run, arrivals, passes);
    }
  }

  lemma WithinTokens(k: Rate, run: seq<Car>, arrivals: seq<Arrival>, passes: seq<bool>, i: nat, j: nat)
    requires Verdicts(k, run, arrivals, passes) && k.ebs == 0 && i <= j < |arrivals|
    requires forall m :: 0 <= m <= j ==> passes[m]
    ensures Within(k, arrivals, i, j) && WithinEarned(k, arrivals, j)
  {
    hide Step, Least, Clock, Owed, Run;
    PassesExactly(k, run, arrivals, passes, j);
    OwedSign(k, arrivals, passes, j);
    LeastAtMost(k, arrivals, passes, j + 1, j, i);
    GoneOffered(arrivals, passes, i, j);
    GoneOffered(arrivals, passes, 0, j);
    assert Offered(arrivals, i, j + 1) == Offered(arrivals, i, j) + arrivals[j].nbytes;
    assert Offered(arrivals, 0, j + 1) == Offered(arrivals, 0, j) + arrivals[j].nbytes;
  }

  lemma {:induction false} OwedSign(k: Rate, arrivals: seq<Arrival>, passes: seq<bool>, j: nat)
    requires j <= |arrivals| == |passes|
    ensures Owed(k, arrivals, passes, j) >= 0
  {
    hide Debt;
    if j > 0 && passes[j - 1] {
      OwedSign(k, arrivals, passes, j - 1);
    }
  }
}
