/** What the connection protocol guarantees in every run. */
module ConnSafety {
  import opened Words
  import opened ConnKeys
  import opened NatEntries
  import opened ConnSteps
  import opened ConnInvariant

  /** No assertion of the protocol fails, and no connection is used after it was destroyed. */
  lemma NeverFails(run: seq<State>, actions: seq<Action>, k: nat)
    requires Run(run, actions) && k < |run|
    ensures !run[k].failed
  {
    hide Next;
    RunInvariant(run, actions, k);
  }

  /** A connection has exactly its two entries, one forwards and one backwards, under its present keys. */
  ghost predicate HasBothEntries(s: State, c: nat, x: Conn) {
    && x.fw != x.bk
    && x.fw in s.entries && s.entries[x.fw] == Entry(c, true)
    && x.bk in s.entries && s.entries[x.bk] == Entry(c, false)
    && (forall k :: k in s.entries && s.entries[k].cid == c ==> k == x.fw || k == x.bk)
  }

  ghost predicate HasNoEntry(s: State, c: nat) {
    forall k :: k in s.entries ==> s.entries[k].cid != c
  }

  /** Whenever its lock is free, a connection agrees with the table; and the table has no stray entries. */
  lemma TableAgreement(run: seq<State>, actions: seq<Action>, k: nat)
    requires Run(run, actions) && k < |run|
    ensures forall key :: key in run[k].entries ==> run[k].entries[key].cid in run[k].conns
    ensures forall c :: c in run[k].conns && run[k].conns[c].lock.Free? ==>
      if run[k].conns[c].removed then HasNoEntry(run[k], c) else HasBothEntries(run[k], c, run[k].conns[c])
  {
    hide Next;
    RunInvariant(run, actions, k);
    var s := run[k];
    forall c | c in s.conns && s.conns[c].lock.Free?
      ensures if s.conns[c].removed then HasNoEntry(s, c) else HasBothEntries(s, c, s.conns[c])
    {
      assert ConnOk(s, c);
    }
  }

  /** Whether a thread refers to a connection: by a counted reference, a pointer just read, or its lock. */
  predicate RefersTo(s: State, t: nat, c: nat) {
    t in Refs(s, c) || At(s, t) == LookGot(c) || (At(s, t).Locked? && At(s, t).cid == c)
  }

  /** The reference counter counts the references held, and nobody refers to what does not exist. */
  lemma ReferencesLive(run: seq<State>, actions: seq<Action>, k: nat, c: nat, t: nat)
    requires Run(run, actions) && k < |run|
    ensures c in run[k].conns ==> run[k].conns[c].ref == |Refs(run[k], c)|
    ensures RefersTo(run[k], t, c) ==> c in run[k].conns
  {
    hide Next;
    RunInvariant(run, actions, k);
    var s := run[k];
    if c in s.conns { assert ConnOk(s, c); }
    if t in s.pcs { assert PcOk(s, t); }
  }

  /** Only the worker, in its last phase, takes a connection away. */
  lemma OnlyDestroyTakes(s: State, a: Action, c: nat)
    requires c in s.conns && c !in Next(s, a).conns
    ensures s.worker.Destroy? && s.conns[c].place.Gc? && s.conns[c].ref == 0
  {
    hide Begin, LockedStep, WorkerStep, LookupStep;
    match a
    case Thread(_, _) => ThreadTakesNothing(s, a, c);
    case Collector(w) => WorkerTakes(s, w, c);
    case Expire(_) =>
  }

  lemma ThreadTakesNothing(s: State, a: Action, c: nat)
    requires a.Thread? && c in s.conns
    ensures c in Next(s, a).conns
  {
    hide EstablishStep, SetNatStep, Refs;
    if At(s, a.t).Locked? {
      var d, stage := At(s, a.t).cid, At(s, a.t).stage;
      if d in s.conns {
        EstablishTakesNothing(s, a.t, d, s.conns[d], stage, c);
        SetNatTakesNothing(s, a.t, d, s.conns[d], stage, NewBackKey(s.conns[d]), c);
      }
    }
  }

  lemma EstablishTakesNothing(s: State, t: nat, d: nat, x: Conn, stage: Stage, c: nat)
    requires c in s.conns
    ensures c in EstablishStep(s, t, d, x, stage).conns
  {
    hide Refs, MarkRemoved;
  }

  lemma SetNatTakesNothing(s: State, t: nat, d: nat, x: Conn, stage: Stage, newKey: Key, c: nat)
    requires c in s.conns
    ensures c in SetNatStep(s, t, d, x, stage, newKey).conns
  {
    hide MarkRemoved;
  }

  lemma WorkerTakes(s: State, w: Choice, c: nat)
    requires c in s.conns && c !in WorkerStep(s, w).conns
    ensures s.worker.Destroy? && s.conns[c].place.Gc? && s.conns[c].ref == 0
  {
    hide InEpoch, SweepStep, Migrated, DestroyOne;
    if s.worker.Destroy? {
      DestroyTakes(s, w.cid, c);
    } else if s.worker.Idle? {
      MigratedTakesNothing(s, c);
    } else if s.worker.Sweep? && s.worker.cid in s.conns {
      SweepTakesNothing(s, s.worker.cid, s.conns[s.worker.cid], s.worker.stage, c);
    }
  }

  lemma DestroyTakes(s: State, d: nat, c: nat)
    requires c in s.conns && c !in DestroyOne(s, d).conns
    ensures s.conns[c].place.Gc? && s.conns[c].ref == 0
  {
  }

  lemma MigratedTakesNothing(s: State, c: nat)
    requires c in s.conns
    ensures c in Migrated(s).conns
  {
  }

  lemma SweepTakesNothing(s: State, d: nat, x: Conn, stage: SweepStage, c: nat)
    requires c in s.conns
    ensures c in SweepStep(s, d, x, stage).conns
  {
    hide MarkRemoved;
  }

  /**
   * A connection is destroyed only when no thread holds a reference to it, none has just read a pointer
   * to it or is inside its lock, and no reader can find it any more.
   */
  lemma SafeReclamation(run: seq<State>, actions: seq<Action>, k: nat, c: nat)
    requires Run(run, actions) && k < |actions|
    requires c in run[k].conns && c !in run[k + 1].conns
    ensures forall t :: !RefersTo(run[k], t, c)
    ensures HasNoEntry(run[k], c) && run[k].conns[c].lock.Free? && run[k].conns[c].removed
  {
    hide Next;
    RunInvariant(run, actions, k);
    OnlyDestroyTakes(run[k], actions[k], c);
    DestroyableUnused(run[k], c);
    assert ConnOk(run[k], c);
    assert !WorkerOn(run[k].worker, c);
  }
}
