/**
 * Replacing the configuration under its readers (src/kern/npf_conf.c): any number of packet threads
 * that read it inside epoch sections, and any number of loaders serialised by the configuration lock.
 */
module ConfigReload {

  /** A packet thread: outside, or inside a section with the configurations that its accessors have read. */
  datatype Reader = Outside | Inside(configs: set<nat>)

  /** npf_config_load: before, with the lock held, waiting for readers, with them gone, after the unlock. */
  datatype Loader =
    | Rest | Locked(incoming: nat) | Sync(prev: nat, waiting: set<nat>) | Synced(prev: nat) | Retire(prev: nat)

  /** live holds the configurations not destroyed; failed records the use of a destroyed one. */
  datatype State = State(current: nat, live: set<nat>, used: set<nat>, readers: map<nat, Reader>,
                         loaders: map<nat, Loader>, failed: bool)

  datatype Action = Read(t: nat) | Use(t: nat, config: nat) | Leave(t: nat) | Load(l: nat, newConfig: nat)

  function ReaderAt(s: State, t: nat): Reader {
    if t in s.readers then s.readers[t] else Outside
  }

  function LoaderAt(s: State, l: nat): Loader {
    if l in s.loaders then s.loaders[l] else Rest
  }

  predicate HoldsLock(l: Loader) {
    l.Locked? || l.Sync? || l.Synced?
  }

  predicate LockFree(s: State) {
    forall l :: l in s.loaders ==> !HoldsLock(s.loaders[l])
  }

  function SetReader(s: State, t: nat, r: Reader): State {
    s.(readers := s.readers[t := r])
  }

  function SetLoader(s: State, l: nat, pc: Loader): State {
    s.(loaders := s.loaders[l := pc])
  }

  /** Enter the section, or read the configuration pointer in one more accessor. */
  function ReadStep(s: State, t: nat): State {
    match ReaderAt(s, t)
    case Outside => SetReader(s, t, Inside({}))
    case Inside(cs) => SetReader(s, t, Inside(cs + {s.current}))
  }

  /** Use a configuration read in this section. */
  function UseStep(s: State, t: nat, c: nat): State {
    if Uses(s, t, c) && c !in s.live then s.(failed := true) else s
  }

  predicate Uses(s: State, t: nat, c: nat) {
    ReaderAt(s, t).Inside? && c in ReaderAt(s, t).configs
  }

  /** Leave the section; whoever waits for this reader waits no longer. */
  function LeaveStep(s: State, t: nat): State {
    SetReader(s, t, Outside).(loaders :=
      map l | l in s.loaders ::
        if s.loaders[l].Sync? then Sync(s.loaders[l].prev, s.loaders[l].waiting - {t}) else s.loaders[l])
  }

  function LoadStep(s: State, l: nat, newConfig: nat): State {
    match LoaderAt(s, l)
    case Rest =>
      if LockFree(s) && newConfig !in s.used
      then SetLoader(s, l, Locked(newConfig)).(live := s.live + {newConfig}, used := s.used + {newConfig})
      else s
    case Locked(nc) =>
      SetLoader(s, l, Sync(s.current, set t | t in s.readers && !s.readers[t].Outside?)).(current := nc)
    case Sync(prev, waiting) => if waiting == {} then SetLoader(s, l, Synced(prev)) else s
    case Synced(prev) => SetLoader(s, l, Retire(prev))
    case Retire(prev) =>
      if prev !in s.live then s.(failed := true)
      else SetLoader(s, l, Rest).(live := s.live - {prev})
  }

  function Next(s: State, a: Action): State {
    match a
    case Read(t) => ReadStep(s, t)
    case Use(t, c) => UseStep(s, t, c)
    case Leave(t) => LeaveStep(s, t)
    case Load(l, nc) => LoadStep(s, l, nc)
  }

  // ----- what every step keeps

  predicate HasOld(l: Loader) {
    l.Sync? || l.Synced? || l.Retire?
  }

  /** A configuration in use is the current one, or an old one whose loader still waits for this reader. */
  ghost predicate ReaderOk(s: State, t: nat) {
    forall c :: Uses(s, t, c) ==> c == s.current || Awaited(s, t, c)
  }

  predicate Awaited(s: State, t: nat, c: nat) {
    exists l :: l in s.loaders && s.loaders[l].Sync? && s.loaders[l].prev == c && t in s.loaders[l].waiting
  }

  predicate LoaderOk(s: State, l: nat) {
    && (HasOld(LoaderAt(s, l)) ==> LoaderAt(s, l).prev in s.live && LoaderAt(s, l).prev != s.current)
    && (LoaderAt(s, l).Locked? ==> LoaderAt(s, l).incoming in s.live && LoaderAt(s, l).incoming != s.current)
  }

  /** Two loaders never work on the same configuration, nor hold the lock together. */
  predicate LoadersApart(s: State, l: nat, m: nat) {
    l != m ==>
      && !(HoldsLock(LoaderAt(s, l)) && HoldsLock(LoaderAt(s, m)))
      && (HasOld(LoaderAt(s, l)) && HasOld(LoaderAt(s, m)) ==> LoaderAt(s, l).prev != LoaderAt(s, m).prev)
      && (LoaderAt(s, l).Locked? && HasOld(LoaderAt(s, m)) ==> LoaderAt(s, l).incoming != LoaderAt(s, m).prev)
  }

  ghost predicate Inv(s: State) {
    && !s.failed && s.current in s.live && s.live <= s.used
    && (forall t :: ReaderOk(s, t))
    && (forall l :: LoaderOk(s, l))
    && (forall l, m :: LoadersApart(s, l, m))
  }

  lemma ReadKeeps(s: State, t: nat)
    requires Inv(s)
    ensures Inv(ReadStep(s, t))
  {
    var s' := ReadStep(s, t);
    forall u ensures ReaderOk(s', u) {
      assert ReaderOk(s, u);
      forall c | Uses(s', u, c) ensures c == s'.current || Awaited(s', u, c) { assert c == s.current || Uses(s, u, c); }
    }
    forall l ensures LoaderOk(s', l) { assert LoaderOk(s, l); }
    forall l, m ensures LoadersApart(s', l, m) { assert LoadersApart(s, l, m); }
  }

  lemma UseKeeps(s: State, t: nat, c: nat)
    requires Inv(s)
    ensures UseStep(s, t, c) == s
  {
    assert ReaderOk(s, t);
    if Uses(s, t, c) && c != s.current {
      var l :| l in s.loaders && s.loaders[l].Sync? && s.loaders[l].prev == c;
      assert LoaderOk(s, l);
    }
  }

  lemma LeaveKeeps(s: State, t: nat)
    requires Inv(s)
    ensures Inv(LeaveStep(s, t))
  {
    var s' := LeaveStep(s, t);
    forall u ensures ReaderOk(s', u) {
      assert ReaderOk(s, u);
      forall c | Uses(s', u, c) ensures c == s'.current || Awaited(s', u, c) {
        assert Uses(s, u, c);
        if c != s.current {
          var l :| l in s.loaders && s.loaders[l].Sync? && s.loaders[l].prev == c && u in s.loaders[l].waiting;
          assert s'.loaders[l].Sync? && u in s'.loaders[l].waiting;
        }
      }
    }
    forall l ensures LoaderOk(s', l) { assert LoaderOk(s, l); }
    forall l, m ensures LoadersApart(s', l, m) { assert LoadersApart(s, l, m); }
  }

  /** Nobody uses a configuration that its loader has finished waiting for. */
  lemma PrevUnused(s: State, l: nat, t: nat)
    requires Inv(s) && HasOld(LoaderAt(s, l)) && (LoaderAt(s, l).Sync? ==> LoaderAt(s, l).waiting == {})
    ensures !Uses(s, t, LoaderAt(s, l).prev)
  {
    assert ReaderOk(s, t);
    assert LoaderOk(s, l);
    assert forall m :: m in s.loaders ==> LoadersApart(s, l, m);
  }

  lemma LoaderMoves(s: State, s': State, l: nat, pc: Loader)
    requires Inv(s) && s' == SetLoader(s, l, pc).(live := s'.live, used := s'.used, current := s'.current)
    requires s'.current in s'.live && s'.live <= s'.used
    requires forall m :: LoaderOk(s', m)
    requires forall m :: m != l ==> LoadersApart(s', l, m) && LoadersApart(s', m, l)
    requires forall t :: ReaderOk(s', t)
    ensures Inv(s')
  {
    forall m, n ensures LoadersApart(s', m, n) { assert LoadersApart(s, m, n); }
  }

  lemma BeginKeeps(s: State, l: nat, nc: nat)
    requires Inv(s) && LoaderAt(s, l).Rest? && LockFree(s) && nc !in s.used
    ensures Inv(LoadStep(s, l, nc))
  {
    var s' := LoadStep(s, l, nc);
    forall m ensures LoaderOk(s', m) { assert LoaderOk(s, m); }
    forall m | m != l ensures LoadersApart(s', l, m) && LoadersApart(s', m, l) {
      assert LoadersApart(s, l, m) && LoaderOk(s, m);
    }
    forall t ensures ReaderOk(s', t) { KeepsReader(s, s', l, t); }
    LoaderMoves(s, s', l, Locked(nc));
  }

  /** A reader is unaffected by a loader that is not the one it is waited for by. */
  lemma KeepsReader(s: State, s': State, l: nat, t: nat)
    requires Inv(s) && s'.readers == s.readers && s'.current == s.current
    requires forall m :: m in s.loaders && m != l ==> m in s'.loaders && s'.loaders[m] == s.loaders[m]
    requires LoaderAt(s, l).Sync? ==> LoaderAt(s, l).waiting == {}
    ensures ReaderOk(s', t)
  {
    assert ReaderOk(s, t);
    forall c | Uses(s', t, c) ensures c == s'.current || Awaited(s', t, c) {
      assert Uses(s, t, c);
      if c != s.current {
        var m :| m in s.loaders && s.loaders[m].Sync? && s.loaders[m].prev == c && t in s.loaders[m].waiting;
        assert m in s'.loaders;
      }
    }
  }

  lemma PublishKeeps(s: State, l: nat, nc: nat)
    requires Inv(s) && LoaderAt(s, l).Locked?
    ensures Inv(LoadStep(s, l, nc))
  {
    var s' := LoadStep(s, l, nc);
    assert LoaderOk(s, l);
    forall m ensures LoaderOk(s', m) {
      assert LoaderOk(s, m) && LoadersApart(s, l, m);
    }
    forall m | m != l ensures LoadersApart(s', l, m) && LoadersApart(s', m, l) {
      assert LoadersApart(s, l, m) && LoadersApart(s, m, l) && LoaderOk(s, m);
    }
    forall t ensures ReaderOk(s', t) {
      assert ReaderOk(s, t);
      forall c | Uses(s', t, c) ensures c == s'.current || Awaited(s', t, c) {
        assert Uses(s, t, c);
        if c == s.current {
          assert l in s'.loaders && t in s'.loaders[l].waiting;
        } else {
          var m :| m in s.loaders && s.loaders[m].Sync? && s.loaders[m].prev == c && t in s.loaders[m].waiting;
          assert m in s'.loaders;
        }
      }
    }
    LoaderMoves(s, s', l, s'.loaders[l]);
  }

  lemma FinishKeeps(s: State, l: nat, nc: nat)
    requires Inv(s) && HasOld(LoaderAt(s, l)) && (LoaderAt(s, l).Sync? ==> LoaderAt(s, l).waiting == {})
    ensures Inv(LoadStep(s, l, nc))
  {
    var s' := LoadStep(s, l, nc);
    assert LoaderOk(s, l);
    forall m ensures LoaderOk(s', m) {
      assert LoaderOk(s, m) && LoadersApart(s, m, l);
    }
    forall m | m != l ensures LoadersApart(s', l, m) && LoadersApart(s', m, l) {
      assert LoadersApart(s, l, m) && LoadersApart(s, m, l);
    }
    forall t ensures ReaderOk(s', t) { KeepsReader(s, s', l, t); }
    LoaderMoves(s, s', l, s'.loaders[l]);
  }

  lemma StepKeeps(s: State, a: Action)
    requires Inv(s)
    ensures Inv(Next(s, a))
  {
    hide Inv;
    match a
    case Read(t) => ReadKeeps(s, t);
    case Use(t, c) => UseKeeps(s, t, c);
    case Leave(t) => LeaveKeeps(s, t);
    case Load(l, nc) =>
      if LoaderAt(s, l).Rest? {
        if LockFree(s) && nc !in s.used { BeginKeeps(s, l, nc); }
      } else if LoaderAt(s, l).Locked? {
        PublishKeeps(s, l, nc);
      } else if !LoaderAt(s, l).Sync? || LoaderAt(s, l).waiting == {} {
        FinishKeeps(s, l, nc);
      }
  }

  // ----- every run

  ghost predicate Run(run: seq<State>, actions: seq<Action>) {
    && |run| == |actions| + 1
    && run[0] == State(0, {0}, {0}, map[], map[], false)
    && forall k :: 0 <= k < |actions| ==> run[k + 1] == Next(run[k], actions[k])
  }

  lemma {:induction false} RunInvariant(run: seq<State>, actions: seq<Action>, k: nat)
    requires Run(run, actions) && k < |run|
    ensures Inv(run[k])
  {
    hide Next;
    if k > 0 {
      hide Inv;
      RunInvariant(run, actions, k - 1);
      StepKeeps(run[k - 1], actions[k - 1]);
    }
  }

  /** No reader ever uses a destroyed configuration, and none uses one at the moment it is destroyed. */
  lemma OldConfigUnused(run: seq<State>, actions: seq<Action>, k: nat, c: nat, t: nat)
    requires Run(run, actions) && k < |actions| && c in run[k].live && c !in run[k + 1].live
    ensures !run[k].failed && !run[k + 1].failed && c != run[k].current && !Uses(run[k], t, c)
  {
    RunInvariant(run, actions, k);
    RunInvariant(run, actions, k + 1);
    var s, a := run[k], actions[k];
    assert a.Load? && LoaderAt(s, a.l) == Retire(c);
    PrevUnused(s, a.l, t);
    assert LoaderOk(s, a.l);
  }
}
