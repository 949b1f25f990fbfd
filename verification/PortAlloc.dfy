/** The search for a free port on the lock-free port map (src/kern/npf_portmap.c). */
module PortAlloc {
  import opened PortWords
  import opened PortBlocks
  import opened PortSteps
  import opened PortSearch

  /** At turn n of a run an attempt to take a port is answered. */
  predicate Attempt(run: seq<State>, turns: seq<Turn>, n: nat, port: bv64, answer: Answer)
    requires |run| == |turns| + 1
  {
    && n < |turns|
    && PhaseOf(At(run[n], turns[n].thread)) == Asked(Set, port)
    && PhaseOf(At(run[n + 1], turns[n].thread)) == Answered(Set, port, answer)
  }

  /** The answers of a search are those of the port map, for attempts answered at the given turns. */
  ghost predicate FromRun(run: seq<State>, turns: seq<Turn>, times: seq<nat>, min: nat, delta: nat, first: nat,
                          refused: (nat, nat) -> bool)
    requires |run| == |turns| + 1 && first < delta
  {
    forall k: nat :: k < |times| ==>
      var p := Probe(min, delta, first, k);
      exists port: bv64, answer: Answer ::
        && Index(port) == p && PortOk(port) && (answer.Yes? <==> !refused(k, p))
        && Attempt(run, turns, times[k], port, answer)
  }

  /** At some attempt of the search on it, the port was held or memory was lacking. */
  ghost predicate HeldAtAttempt(run: seq<State>, turns: seq<Turn>, times: seq<nat>, port: bv64)
    requires |run| == |turns| + 1 && PortOk(port)
  {
    exists k: nat :: k < |times| &&
      (|| (Attempt(run, turns, times[k], port, No) && Busy(run[times[k]], port))
       || Attempt(run, turns, times[k], port, NoMemory))
  }

  lemma AttemptMeans(run: seq<State>, turns: seq<Turn>, n: nat, port: bv64, answer: Answer)
    requires Run(run, turns) && PortOk(port) && Attempt(run, turns, n, port, answer)
    ensures answer.No? ==> Busy(run[n], port)
    ensures answer.Yes? ==> !Busy(run[n], port) && Busy(run[n + 1], port)
  {
    hide Inv, Initial, Next, Ready, Busy, PortOk;
    RunInvariant(run, turns, n);
    StepRefines(run[n], turns[n].thread, turns[n].input);
  }

  /**
   * In every run of the port map: a search that fails on a range coprime with its step found every port
   * of the range held at the attempt on it, unless memory was lacking for that attempt.
   */
  lemma FailedSearchMeansFull(run: seq<State>, turns: seq<Turn>, times: seq<nat>, min: nat, delta: nat, first: nat,
                              refused: (nat, nat) -> bool)
    requires Run(run, turns) && first < delta && FromRun(run, turns, times, min, delta, first, refused)
    requires |times| == Period(min, delta) && Gcd(min + 1, delta) == 1
    requires forall k: nat :: k < Period(min, delta) ==> refused(k, Probe(min, delta, first, k))
    ensures forall port: bv64 :: PortOk(port) && min <= Index(port) < min + delta ==>
      HeldAtAttempt(run, turns, times, port)
  {
    hide PortOk, Busy, Probe, Index, Attempt, Initial, Next, Ready;
    CoversRange(min, delta, first);
    forall port: bv64 | PortOk(port) && min <= Index(port) < min + delta
      ensures HeldAtAttempt(run, turns, times, port)
    {
      assert Probed(min, delta, first, Index(port));
      var k: nat :| k < Period(min, delta) && Probe(min, delta, first, k) == Index(port);
      HeldAt(run, turns, times, min, delta, first, refused, k, port);
    }
  }

  lemma HeldAt(run: seq<State>, turns: seq<Turn>, times: seq<nat>, min: nat, delta: nat, first: nat,
               refused: (nat, nat) -> bool, k: nat, port: bv64)
    requires Run(run, turns) && first < delta && FromRun(run, turns, times, min, delta, first, refused) && PortOk(port)
    requires k < |times| && Probe(min, delta, first, k) == Index(port) && refused(k, Index(port))
    ensures HeldAtAttempt(run, turns, times, port)
  {
    hide PortOk, Busy, Probe, Index, Next, Ready, Initial;
    var p := Probe(min, delta, first, k);
    var q: bv64, answer: Answer :|
      Index(q) == p && PortOk(q) && (answer.Yes? <==> !refused(k, p)) && Attempt(run, turns, times[k], q, answer);
    IndexInjective(q, port);
    AttemptMeans(run, turns, times[k], port, answer);
  }

  /** A search that succeeds took a port that was free. */
  lemma FoundPortWasFree(run: seq<State>, turns: seq<Turn>, times: seq<nat>, min: nat, delta: nat, first: nat,
                         refused: (nat, nat) -> bool, k: nat, port: bv64)
    requires Run(run, turns) && first < delta && FromRun(run, turns, times, min, delta, first, refused) && PortOk(port)
    requires k < |times| && Probe(min, delta, first, k) == Index(port) && !refused(k, Index(port))
    ensures times[k] < |turns| && !Busy(run[times[k]], port) && Busy(run[times[k] + 1], port)
  {
    hide PortOk, Busy, Probe, Index, Next, Ready, Initial;
    var p := Probe(min, delta, first, k);
    var q: bv64, answer: Answer :|
      Index(q) == p && PortOk(q) && (answer.Yes? <==> !refused(k, p)) && Attempt(run, turns, times[k], q, answer);
    IndexInjective(q, port);
    AttemptMeans(run, turns, times[k], port, answer);
  }
}
