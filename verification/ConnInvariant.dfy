/** What every step of the connection protocol keeps. */
module ConnInvariant {
  import opened Words
  import opened ConnKeys
  import opened NatEntries
  import opened ConnSteps

  /** The entries a connection should have at each point of establish and setnat. */
  predicate StageOk(stage: Stage, x: Conn) {
    match stage
    case EstFw => !x.hasFw && !x.hasBk && !x.removed && x.place.Fresh?
    case EstBk => x.hasFw && !x.hasBk && !x.removed && x.place.Fresh?
    case EstUndo => x.hasFw && !x.hasBk && !x.removed && x.place.Fresh?
    case EstFlag => !x.hasFw && !x.hasBk && x.place.Fresh?
    case EstDec => !x.hasFw && !x.hasBk && x.removed && x.place.Fresh?
    case EstEnqueue => Settled(x) && x.place.Fresh?
    case EstUnlock => Settled(x) && !x.place.Fresh?
    case NatCheck => Settled(x) && !x.place.Fresh?
    case NatRemove => x.hasFw && x.hasBk && !x.removed && !x.place.Fresh?
    case NatAdjust => x.hasFw && !x.hasBk && !x.removed && !x.place.Fresh?
    case NatInsert => x.hasFw && !x.hasBk && !x.removed && !x.place.Fresh?
    case NatUndo => x.hasFw && !x.hasBk && !x.removed && !x.place.Fresh?
    case NatFlag => !x.hasFw && !x.hasBk && !x.place.Fresh?
    case NatSet => x.hasFw && x.hasBk && !x.removed && !x.place.Fresh?
    case NatUnlock => Settled(x) && !x.place.Fresh?
  }

  /** Both entries, or neither once removed. */
  predicate Settled(x: Conn) {
    x.hasFw == !x.removed && x.hasBk == !x.removed
  }

  predicate SweepOk(stage: SweepStage, x: Conn) {
    match stage
    case SwCheck => Settled(x)
    case SwFw => x.hasFw && x.hasBk && !x.removed
    case SwBk => !x.hasFw && x.hasBk
    case SwFlag => !x.hasFw && !x.hasBk
    case SwUnlock => !x.hasFw && !x.hasBk && x.removed
  }

  predicate NeedsRef(stage: Stage) {
    !stage.EstEnqueue? && !stage.EstUnlock?
  }

  predicate WorkerOn(w: WorkerPc, c: nat) {
    (w.WantLock? || w.Sweep?) && w.cid == c
  }

  predicate AfterSweep(w: WorkerPc) {
    w.Wait? || w.Destroy?
  }

  /** The table holds exactly the entries of the connection that it should, under its keys. */
  predicate TableOk(entries: map<Key, Entry>, c: nat, x: Conn) {
    && (x.hasFw ==> x.fw in entries && entries[x.fw] == Entry(c, true))
    && (x.hasBk ==> x.bk in entries && entries[x.bk] == Entry(c, false))
    && (forall k :: k in entries && entries[k].cid == c ==>
          if entries[k].forw then x.hasFw && k == x.fw else x.hasBk && k == x.bk)
  }

  predicate LockOk(s: State, c: nat, x: Conn) {
    match x.lock
    case Free => Settled(x) && !x.place.Fresh?
    case Held(t) => At(s, t).Locked? && At(s, t).cid == c
    case Worker => s.worker.Sweep? && s.worker.cid == c
  }

  /** Once the worker is done with a connection nobody who lacks a reference can still be using it. */
  predicate SweptOk(s: State, c: nat, x: Conn)
    requires LockOk(s, c, x)
  {
    x.place.Gc? && !WorkerOn(s.worker, c) ==>
      x.removed && !x.hasFw && !x.hasBk && (x.lock.Held? ==> !Establishing(At(s, x.lock.thread).stage))
  }

  predicate ConnOk(s: State, c: nat)
    requires c in s.conns
  {
    var x := s.conns[c];
    && x.ref == |Refs(s, c)|
    && (x.removed ==> x.expire)
    && TableOk(s.entries, c, x)
    && LockOk(s, c, x)
    && SweptOk(s, c, x)
  }

  predicate PcOk(s: State, t: nat) {
    match At(s, t)
    case LookGot(c) => c in s.conns && (AfterSweep(s.worker) && s.conns[c].place.Gc? ==> t in s.waiting)
    case Locked(c, stage) =>
      && c in s.conns && s.conns[c].lock == Held(t) && StageOk(stage, s.conns[c])
      && (NeedsRef(stage) ==> t in Refs(s, c))
    case Ready => true
    case LookIn(_) => true
    case LookOut => true
  }

  predicate WorkerOk(s: State) {
    match s.worker
    case WantLock(c) => c in s.conns && s.conns[c].place.Gc?
    case Sweep(c, stage) =>
      c in s.conns && s.conns[c].place.Gc? && s.conns[c].lock == Worker && SweepOk(stage, s.conns[c])
    case Destroy => s.waiting == {}
    case Idle => true
    case Scan => true
    case Wait => true
  }

  predicate EntriesLive(s: State) {
    forall k :: k in s.entries ==> s.entries[k].cid in s.conns
  }

  predicate LedgerOk(s: State) {
    forall c :: c in s.refs && s.refs[c] != multiset{} ==> c in s.conns
  }

  predicate Inv(s: State) {
    && !s.failed
    && EntriesLive(s) && LedgerOk(s) && WorkerOk(s)
    && (forall c :: c in s.conns ==> ConnOk(s, c))
    && (forall t :: t in s.pcs ==> PcOk(s, t))
  }

  // ----- frames

  /** Changes of a connection that others may make at any time. */
  predicate Mild(x: Conn, x': Conn) {
    && x'.fw == x.fw && x'.bk == x.bk && x'.removed == x.removed && x'.hasFw == x.hasFw && x'.hasBk == x.hasBk
    && x'.lock == x.lock && (x'.place.Fresh? <==> x.place.Fresh?) && (x.expire ==> x'.expire)
  }

  ghost predicate EntriesFrame(e: map<Key, Entry>, e': map<Key, Entry>, c: nat) {
    && (forall k :: k in e && e[k].cid != c ==> k in e' && e'[k] == e[k])
    && (forall k :: k in e' && e'[k].cid != c ==> k in e && e[k] == e'[k])
  }

  /** A step of thread t that touches connection c only. */
  ghost predicate ThreadFrame(s: State, s': State, t: nat, c: nat) {
    && s'.worker == s.worker && s'.waiting == s.waiting && s'.failed == s.failed
    && (forall d :: d in s.conns ==> d in s'.conns)
    && (forall d :: d in s'.conns && d != c ==> d in s.conns && s'.conns[d] == s.conns[d])
    && (forall d :: d != c ==> Refs(s', d) == Refs(s, d))
    && (forall u :: u != t ==> Refs(s', c)[u] == Refs(s, c)[u] && At(s', u) == At(s, u))
    && EntriesFrame(s.entries, s'.entries, c)
    && (At(s, t).Locked? ==> At(s, t).cid == c)
    && c in s'.conns
    && (c in s.conns ==>
          && (s'.conns[c].place.Gc? <==> s.conns[c].place.Gc?)
          && (s.conns[c].lock == Held(t) || s.conns[c].lock.Free? || Mild(s.conns[c], s'.conns[c])))
  }

  lemma TableFrame(e: map<Key, Entry>, e': map<Key, Entry>, c: nat, d: nat, x: Conn)
    requires EntriesFrame(e, e', c) && d != c && TableOk(e, d, x)
    ensures TableOk(e', d, x)
  {
  }

  lemma OtherConn(s: State, s': State, t: nat, c: nat, d: nat)
    requires Inv(s) && ThreadFrame(s, s', t, c) && d in s'.conns && d != c
    ensures ConnOk(s', d)
  {
    hide TableOk, EntriesFrame, Mild, StageOk, SweepOk;
    assert ConnOk(s, d);
    TableFrame(s.entries, s'.entries, c, d, s.conns[d]);
  }

  lemma OtherPc(s: State, s': State, t: nat, c: nat, u: nat)
    requires Inv(s) && ThreadFrame(s, s', t, c) && u in s'.pcs && u != t
    ensures PcOk(s', u)
  {
    hide TableOk, EntriesFrame, SweepOk, ConnOk;
    if u in s.pcs {
      assert PcOk(s, u);
      var pc := s.pcs[u];
      assert pc == At(s', u);
      if pc.Locked? && pc.cid == c {
        StageMild(pc.stage, s.conns[c], s'.conns[c]);
      }
    }
  }

  lemma StageMild(stage: Stage, x: Conn, x': Conn)
    requires StageOk(stage, x) && Mild(x, x')
    ensures StageOk(stage, x')
  {
  }

  lemma SweepMild(stage: SweepStage, x: Conn, x': Conn)
    requires SweepOk(stage, x) && Mild(x, x')
    ensures SweepOk(stage, x')
  {
  }

  lemma WorkerKeeps(s: State, s': State, t: nat, c: nat)
    requires Inv(s) && ThreadFrame(s, s', t, c)
    ensures WorkerOk(s')
  {
    hide TableOk, EntriesFrame, StageOk, ConnOk, SweepOk;
    if s.worker.Sweep? && s.worker.cid == c {
      SweepMild(s.worker.stage, s.conns[c], s'.conns[c]);
    }
  }

  /** A thread step keeps the invariant when the connection and the thread it moves are in order. */
  lemma ThreadKeeps(s: State, s': State, t: nat, c: nat)
    requires Inv(s) && ThreadFrame(s, s', t, c) && ConnOk(s', c) && PcOk(s', t)
    ensures Inv(s')
  {
    hide ConnOk, PcOk, WorkerOk;
    WorkerKeeps(s, s', t, c);
    forall d | d in s'.conns ensures ConnOk(s', d) {
      if d != c { OtherConn(s, s', t, c, d); }
    }
    forall u | u in s'.pcs ensures PcOk(s', u) {
      if u != t { OtherPc(s, s', t, c, u); }
    }
    assert LedgerOk(s') by {
      forall d | d in s'.refs && s'.refs[d] != multiset{} ensures d in s'.conns {
        if d != c { assert Refs(s, d) == s'.refs[d]; }
      }
    }
    assert EntriesLive(s');
  }

  /** Only thread t moved, and at most it left the set of readers waited for. */
  ghost predicate Moved(s: State, s': State, t: nat) {
    && s'.conns == s.conns && s'.entries == s.entries && s'.refs == s.refs && s'.worker == s.worker && !s'.failed
    && (forall u :: u != t ==> At(s', u) == At(s, u))
    && s'.waiting <= s.waiting && s.waiting <= s'.waiting + {t}
  }

  lemma MovedConn(s: State, s': State, t: nat, c: nat)
    requires Moved(s, s', t) && c in s.conns && ConnOk(s, c) && !At(s, t).Locked?
    ensures ConnOk(s', c)
  {
  }

  lemma MovedPc(s: State, s': State, t: nat, u: nat)
    requires Moved(s, s', t) && u in s.pcs && PcOk(s, u) && u != t
    ensures PcOk(s', u)
  {
  }

  /** A step that only moves a thread that is not in a locked section. */
  lemma MovesOnly(s: State, s': State, t: nat)
    requires Inv(s) && Moved(s, s', t) && !At(s, t).Locked? && PcOk(s', t)
    ensures Inv(s')
  {
    hide ConnOk, PcOk;
    forall c | c in s'.conns ensures ConnOk(s', c) {
      MovedConn(s, s', t, c);
    }
    forall u | u in s'.pcs ensures PcOk(s', u) {
      if u != t && u in s.pcs { MovedPc(s, s', t, u); } else if u != t { ReadyOk(s', u); }
    }
  }

  lemma ReadyOk(s: State, t: nat)
    requires At(s, t).Ready?
    ensures PcOk(s, t)
  {
  }

  /** A connection that was only changed mildly is still in order. */
  lemma MildConn(s: State, s': State, c: nat)
    requires c in s.conns && ConnOk(s, c) && c in s'.conns
    requires Mild(s.conns[c], s'.conns[c]) && s'.conns[c].place == s.conns[c].place && s'.entries == s.entries
    requires s'.conns[c].ref == |Refs(s', c)| && s'.worker == s.worker
    requires s.conns[c].lock.Held? ==> At(s', s.conns[c].lock.thread) == At(s, s.conns[c].lock.thread)
    requires s.conns[c].removed ==> s'.conns[c].expire
    ensures ConnOk(s', c)
  {
  }

  /** The shape of a thread step: one connection, its entries and references, and the thread itself. */
  ghost predicate Shape(s: State, s': State, t: nat, c: nat, x: Conn, r: multiset<nat>, pc: Pc) {
    && s'.conns == s.conns[c := x] && Refs(s', c) == r && At(s', t) == pc
    && (s'.refs == s.refs || s'.refs == s.refs[c := r])
    && (s'.pcs == s.pcs || s'.pcs == s.pcs[t := pc])
    && s'.worker == s.worker && s'.waiting == s.waiting && s'.failed == s.failed
  }

  lemma ShapeFrame(s: State, s': State, t: nat, c: nat, x: Conn, r: multiset<nat>, pc: Pc)
    requires Shape(s, s', t, c, x, r, pc)
    requires EntriesFrame(s.entries, s'.entries, c)
    requires At(s, t).Locked? ==> At(s, t).cid == c
    requires forall u :: u != t ==> r[u] == Refs(s, c)[u]
    requires c in s.conns ==>
      && (x.place.Gc? <==> s.conns[c].place.Gc?)
      && (s.conns[c].lock == Held(t) || s.conns[c].lock.Free? || Mild(s.conns[c], x))
    ensures ThreadFrame(s, s', t, c)
  {
    hide EntriesFrame, Mild;
  }

  lemma SameEntries(e: map<Key, Entry>, c: nat)
    ensures EntriesFrame(e, e, c)
  {
  }

  /** A mild step: a reference more or less, or a flag. */
  lemma MildStep(s: State, s': State, t: nat, c: nat, x: Conn, r: multiset<nat>, pc: Pc)
    requires Inv(s) && c in s.conns && Shape(s, s', t, c, x, r, pc) && s'.entries == s.entries
    requires Mild(s.conns[c], x) && x.place == s.conns[c].place && x.ref == |r|
    requires forall u :: u != t ==> r[u] == Refs(s, c)[u]
    requires !At(s, t).Locked? && !pc.Locked? && PcOk(s', t)
    ensures Inv(s')
  {
    hide Mild, EntriesFrame, TableOk, StageOk, SweepOk, ThreadFrame, PcOk, WorkerOk;
    assert ConnOk(s, c);
    SameEntries(s.entries, c);
    ShapeFrame(s, s', t, c, x, r, pc);
    assert ConnOk(s', c) by {
      LockedElsewhere(s, s', t, c, x, r, pc);
      MildExpire(s.conns[c], x);
      MildConn(s, s', c);
    }
    ThreadKeeps(s, s', t, c);
  }

  lemma MildExpire(x: Conn, x': Conn)
    requires Mild(x, x') && (x.removed ==> x.expire)
    ensures x.removed ==> x'.expire
  {
  }

  lemma LockedElsewhere(s: State, s': State, t: nat, c: nat, x: Conn, r: multiset<nat>, pc: Pc)
    requires c in s.conns && Shape(s, s', t, c, x, r, pc) && LockOk(s, c, s.conns[c]) && !At(s, t).Locked?
    ensures s.conns[c].lock.Held? ==> At(s', s.conns[c].lock.thread) == At(s, s.conns[c].lock.thread)
  {
  }

  // ----- the steps of packet threads

  lemma LookupKeeps(s: State, t: nat)
    requires Inv(s) && InEpoch(At(s, t))
    ensures Inv(LookupStep(s, t))
  {
    hide ConnOk, StageOk, WorkerOk;
    var s' := LookupStep(s, t);
    assert PcOk(s, t);
    match At(s, t)
    case LookIn(key) =>
      if key in s.entries {
        var c := s.entries[key].cid;
        EntryNotSwept(s, key);
      }
      MovesOnly(s, s', t);
    case LookGot(c) => CountedKeeps(s, t, c);
    case LookOut => MovesOnly(s, s', t);
  }

  /** An entry never belongs to a connection the worker has finished with. */
  lemma EntryNotSwept(s: State, key: Key)
    requires Inv(s) && key in s.entries
    ensures s.entries[key].cid in s.conns
    ensures s.conns[s.entries[key].cid].place.Gc? ==> WorkerOn(s.worker, s.entries[key].cid)
  {
  }

  lemma CountedKeeps(s: State, t: nat, c: nat)
    requires Inv(s) && At(s, t) == LookGot(c)
    ensures Inv(LookupStep(s, t))
  {
    hide Inv, ConnOk;
    PointerLive(s, t, c);
    var s' := LookupStep(s, t);
    var x := s.conns[c];
    MildStep(s, s', t, c, x.(ref := x.ref + 1), Refs(s, c) + multiset{t}, LookOut);
  }

  lemma PointerLive(s: State, t: nat, c: nat)
    requires Inv(s) && At(s, t) == LookGot(c)
    ensures !s.failed && c in s.conns && ConnOk(s, c) && s.conns[c].ref == |Refs(s, c)|
  {
    assert PcOk(s, t);
  }

  lemma HolderLive(s: State, t: nat, c: nat)
    requires Inv(s) && t in Refs(s, c)
    ensures c in s.conns && ConnOk(s, c) && s.conns[c].ref == |Refs(s, c)| && s.conns[c].ref > 0
  {
  }

  lemma ActivatedKeeps(s: State, t: nat, c: nat)
    requires Inv(s) && At(s, t).Ready? && t in Refs(s, c)
    ensures Inv(Activated(s, c))
  {
    hide Inv, ConnOk, PcOk;
    HolderLive(s, t, c);
    var s' := Activated(s, c);
    var x := s.conns[c];
    ReadyOk(s', t);
    MildStep(s, s', t, c, s'.conns[c], Refs(s, c), Ready);
  }

  lemma DroppedKeeps(s: State, t: nat, c: nat)
    requires Inv(s) && At(s, t).Ready? && t in Refs(s, c)
    ensures Inv(Dropped(s, t, c))
  {
    hide Inv, ConnOk, PcOk;
    HolderLive(s, t, c);
    var s' := Dropped(s, t, c);
    assert !s'.failed by { NotFailed(s); }
    assert |Refs(s, c) - multiset{t}| == |Refs(s, c)| - 1;
    ReadyOk(s', t);
    MildStep(s, s', t, c, s'.conns[c], Refs(s, c) - multiset{t}, Ready);
  }

  lemma NotFailed(s: State)
    requires Inv(s)
    ensures !s.failed
  {
  }

  /** A step of the thread that holds the lock of c, or takes it, or creates c. */
  lemma OwnerStep(s: State, s': State, t: nat, c: nat, x: Conn, r: multiset<nat>, pc: Pc)
    requires Inv(s) && Shape(s, s', t, c, x, r, pc)
    requires c in s.conns ==>
      (s.conns[c].lock == Held(t) || s.conns[c].lock.Free?) && (x.place.Gc? <==> s.conns[c].place.Gc?)
    requires At(s, t).Locked? ==> At(s, t).cid == c
    requires EntriesFrame(s.entries, s'.entries, c) && TableOk(s'.entries, c, x)
    requires x.ref == |r| && (forall u :: u != t ==> r[u] == Refs(s, c)[u])
    requires x.removed ==> x.expire
    requires x.lock == (if pc.Locked? then Held(t) else Free) && (!pc.Locked? ==> Settled(x) && !x.place.Fresh?)
    requires pc.Locked? ==> pc.cid == c && StageOk(pc.stage, x) && (NeedsRef(pc.stage) ==> t in r)
    requires pc.Ready? || pc.Locked?
    requires x.place.Gc? && !WorkerOn(s.worker, c) ==>
      x.removed && !x.hasFw && !x.hasBk && (pc.Locked? ==> !Establishing(pc.stage))
    ensures Inv(s')
  {
    hide EntriesFrame, TableOk, StageOk, SweepOk, WorkerOk, Inv;
    ShapeFrame(s, s', t, c, x, r, pc);
    assert ConnOk(s', c);
    assert PcOk(s', t);
    ThreadKeeps(s, s', t, c);
  }

  lemma CreatedKeeps(s: State, t: nat, c: nat, q: Packet, ifid: bv32, fw: Key, bk: Key)
    requires Inv(s) && At(s, t).Ready? && c !in s.conns && c !in s.refs
    ensures Inv(Created(s, t, c, q, ifid, fw, bk))
  {
    hide ConnOk, PcOk, WorkerOk, EntriesFrame;
    var s' := Created(s, t, c, q, ifid, fw, bk);
    SameEntries(s.entries, c);
    OwnerStep(s, s', t, c, s'.conns[c], multiset{t}, Locked(c, EstFw));
  }

  lemma TakeLockKeeps(s: State, t: nat, c: nat, nt: NatEntry)
    requires Inv(s) && At(s, t).Ready? && t in Refs(s, c)
    ensures Inv(TakeLock(s, t, c, nt))
  {
    hide Inv, PcOk, WorkerOk, EntriesFrame, TableOk;
    HolderLive(s, t, c);
    var s' := TakeLock(s, t, c, nt);
    if s.conns[c].lock.Free? {
      SameEntries(s.entries, c);
      SameTable(s.entries, c, s.conns[c], s'.conns[c]);
      OwnerStep(s, s', t, c, s'.conns[c], Refs(s, c), Locked(c, NatCheck));
    }
  }

  lemma SameTable(e: map<Key, Entry>, c: nat, x: Conn, x': Conn)
    requires TableOk(e, c, x) && x'.fw == x.fw && x'.hasFw == x.hasFw && x'.hasBk == x.hasBk
    requires (x.hasBk ==> x'.bk == x.bk)
    ensures TableOk(e, c, x')
  {
  }

  lemma LockedFacts(s: State, t: nat, c: nat, stage: Stage)
    requires Inv(s) && At(s, t) == Locked(c, stage)
    ensures !s.failed && c in s.conns && s.conns[c].lock == Held(t) && StageOk(stage, s.conns[c])
    ensures NeedsRef(stage) ==> t in Refs(s, c)
    ensures s.conns[c].ref == |Refs(s, c)| && (s.conns[c].removed ==> s.conns[c].expire)
    ensures TableOk(s.entries, c, s.conns[c])
    ensures s.conns[c].place.Gc? && !WorkerOn(s.worker, c) ==>
      s.conns[c].removed && !s.conns[c].hasFw && !s.conns[c].hasBk && !Establishing(stage)
  {
  }

  function Flagged(x: Conn, forw: bool, has: bool): Conn {
    if forw then x.(hasFw := has) else x.(hasBk := has)
  }

  lemma InsertedTable(e: map<Key, Entry>, c: nat, x: Conn, forw: bool)
    requires TableOk(e, c, x) && !(if forw then x.hasFw else x.hasBk)
    requires EntryKey(x, forw) !in e
    ensures var e' := e[EntryKey(x, forw) := Entry(c, forw)];
      EntriesFrame(e, e', c) && TableOk(e', c, Flagged(x, forw, true))
  {
  }

  lemma RemovedTable(e: map<Key, Entry>, c: nat, x: Conn, forw: bool)
    requires TableOk(e, c, x) && (if forw then x.hasFw else x.hasBk)
    ensures var key := EntryKey(x, forw);
      && key in e && e[key].cid == c
      && EntriesFrame(e, e - {key}, c) && TableOk(e - {key}, c, Flagged(x, forw, false))
  {
  }

  lemma TakenKeeps(s: State, t: nat, c: nat, stage: Stage, taken: Stage)
    requires Inv(s) && At(s, t) == Locked(c, stage) && c in s.conns
    requires StageOk(taken, s.conns[c]) && !s.conns[c].removed && NeedsRef(stage)
    ensures Inv(Goto(s, t, Locked(c, taken)))
  {
    hide StageOk, TableOk, EntriesFrame, Inv, Establishing;
    LockedFacts(s, t, c, stage);
    SameEntries(s.entries, c);
    var s' := Goto(s, t, Locked(c, taken));
    assert s'.conns == s.conns[c := s.conns[c]];
    OwnerStep(s, s', t, c, s.conns[c], Refs(s, c), Locked(c, taken));
  }

  lemma InsertedKeeps(s: State, s': State, t: nat, c: nat, stage: Stage, x: Conn, ok: Stage)
    requires Inv(s) && At(s, t) == Locked(c, stage) && c in s.conns && Shape(s, s', t, c, x, Refs(s, c), Locked(c, ok))
    requires x.ref == s.conns[c].ref && x.lock == s.conns[c].lock && x.place == s.conns[c].place
    requires !s.conns[c].removed && !x.removed && StageOk(ok, x) && NeedsRef(stage)
    requires EntriesFrame(s.entries, s'.entries, c) && TableOk(s'.entries, c, x)
    ensures Inv(s')
  {
    hide StageOk, TableOk, EntriesFrame, Inv, Establishing;
    LockedFacts(s, t, c, stage);
    OwnerStep(s, s', t, c, x, Refs(s, c), Locked(c, ok));
  }

  lemma InsertKeeps(s: State, t: nat, c: nat, stage: Stage, forw: bool, ok: Stage, taken: Stage)
    requires Inv(s) && At(s, t) == Locked(c, stage) && c in s.conns
    requires var x := s.conns[c];
      && !(if forw then x.hasFw else x.hasBk)
      && StageOk(ok, Flagged(x, forw, true)) && StageOk(taken, x) && !x.removed
      && NeedsRef(stage) && NeedsRef(taken)
    ensures Inv(Insert(s, t, c, s.conns[c], forw, ok, taken))
  {
    hide StageOk, TableOk, EntriesFrame, Inv, EntryKey, NeedsRef, Shape;
    var x := s.conns[c];
    if EntryKey(x, forw) in s.entries {
      TakenKeeps(s, t, c, stage, taken);
    } else {
      LockedFacts(s, t, c, stage);
      InsertedTable(s.entries, c, x, forw);
      var s' := Insert(s, t, c, x, forw, ok, taken);
      assert Shape(s, s', t, c, Flagged(x, forw, true), Refs(s, c), Locked(c, ok)) by {
        InsertShape(s, t, c, x, forw, ok, taken);
      }
      InsertedKeeps(s, s', t, c, stage, Flagged(x, forw, true), ok);
    }
  }

  lemma InsertShape(s: State, t: nat, c: nat, x: Conn, forw: bool, ok: Stage, taken: Stage)
    requires EntryKey(x, forw) !in s.entries
    ensures Shape(s, Insert(s, t, c, x, forw, ok, taken), t, c, Flagged(x, forw, true), Refs(s, c), Locked(c, ok))
  {
    hide EntryKey;
  }

  lemma RemoveKeeps(s: State, t: nat, c: nat, stage: Stage, forw: bool, after: Stage)
    requires Inv(s) && At(s, t) == Locked(c, stage) && c in s.conns
    requires var x := s.conns[c];
      && (if forw then x.hasFw else x.hasBk)
      && StageOk(after, Flagged(x, forw, false)) && !x.removed && NeedsRef(stage)
    ensures Inv(Goto(Remove(s, c, s.conns[c], forw), t, Locked(c, after)))
  {
    hide StageOk, TableOk, EntriesFrame, Inv;
    LockedFacts(s, t, c, stage);
    var x := s.conns[c];
    RemovedTable(s.entries, c, x, forw);
    var s' := Goto(Remove(s, c, x, forw), t, Locked(c, after));
    OwnerStep(s, s', t, c, Flagged(x, forw, false), Refs(s, c), Locked(c, after));
  }

  /** A locked step that leaves the entries alone. */
  lemma ChangeKeeps(s: State, s': State, t: nat, c: nat, stage: Stage, x: Conn, r: multiset<nat>, pc: Pc)
    requires Inv(s) && At(s, t) == Locked(c, stage) && c in s.conns && Shape(s, s', t, c, x, r, pc)
    requires s'.entries == s.entries
    requires x.fw == s.conns[c].fw && x.hasFw == s.conns[c].hasFw && x.hasBk == s.conns[c].hasBk
    requires (x.hasBk ==> x.bk == s.conns[c].bk) && x.ref == |r| && (forall u :: u != t ==> r[u] == Refs(s, c)[u])
    requires (s.conns[c].removed ==> x.removed) && (x.removed ==> x.expire)
    requires x.place.Gc? <==> s.conns[c].place.Gc?
    requires pc.Ready? || (pc.Locked? && pc.cid == c)
    requires x.lock == (if pc.Locked? then Held(t) else Free) && (pc.Ready? ==> Settled(x) && !x.place.Fresh?)
    requires pc.Locked? ==>
      StageOk(pc.stage, x) && (NeedsRef(pc.stage) ==> t in r) && (Establishing(pc.stage) ==> Establishing(stage))
    ensures Inv(s')
  {
    hide StageOk, TableOk, EntriesFrame, Inv;
    LockedFacts(s, t, c, stage);
    SameEntries(s.entries, c);
    SameTable(s.entries, c, s.conns[c], x);
    OwnerStep(s, s', t, c, x, r, pc);
  }

  lemma EstablishKeeps(s: State, t: nat, c: nat, stage: Stage)
    requires Inv(s) && At(s, t) == Locked(c, stage) && Establishing(stage)
    ensures Inv(LockedStep(s, t, c, stage))
  {
    hide Inv, TableOk, Insert, Remove;
    LockedFacts(s, t, c, stage);
    var x := s.conns[c];
    var s' := LockedStep(s, t, c, stage);
    if stage.EstFw? {
      InsertKeeps(s, t, c, stage, true, EstBk, EstFlag);
    } else if stage.EstBk? {
      InsertKeeps(s, t, c, stage, false, EstEnqueue, EstUndo);
    } else if stage.EstUndo? {
      RemoveKeeps(s, t, c, stage, true, EstFlag);
    } else if stage.EstFlag? {
      ChangeKeeps(s, s', t, c, stage, MarkRemoved(x), Refs(s, c), Locked(c, EstDec));
    } else if stage.EstDec? {
      DecKeeps(s, t, c);
    } else if stage.EstEnqueue? {
      ChangeKeeps(s, s', t, c, stage, x.(place := New), Refs(s, c), Locked(c, EstUnlock));
    } else {
      ChangeKeeps(s, s', t, c, stage, x.(lock := Free), Refs(s, c), Ready);
    }
  }

  lemma DecKeeps(s: State, t: nat, c: nat)
    requires Inv(s) && At(s, t) == Locked(c, EstDec) && c in s.conns
    ensures Inv(EstablishStep(s, t, c, s.conns[c], EstDec))
  {
    hide Inv, TableOk;
    LockedFacts(s, t, c, EstDec);
    var x := s.conns[c];
    var r := Refs(s, c) - multiset{t};
    assert |Refs(s, c)| == |r| + 1;
    ChangeKeeps(s, EstablishStep(s, t, c, x, EstDec), t, c, EstDec, x.(ref := x.ref - 1), r, Locked(c, EstEnqueue));
  }

  lemma NatEntriesKeep(s: State, t: nat, c: nat, stage: Stage)
    requires Inv(s) && At(s, t) == Locked(c, stage) && (stage.NatRemove? || stage.NatInsert? || stage.NatUndo?)
    ensures Inv(LockedStep(s, t, c, stage))
  {
    hide Inv, TableOk, Insert, Remove;
    LockedFacts(s, t, c, stage);
    if stage.NatRemove? {
      RemoveKeeps(s, t, c, stage, false, NatAdjust);
    } else if stage.NatInsert? {
      InsertKeeps(s, t, c, stage, false, NatSet, NatUndo);
    } else {
      RemoveKeeps(s, t, c, stage, true, NatFlag);
    }
  }

  lemma SetNatKeeps(s: State, t: nat, c: nat, stage: Stage)
    requires Inv(s) && At(s, t) == Locked(c, stage) && !Establishing(stage)
    ensures Inv(LockedStep(s, t, c, stage))
  {
    hide Inv, TableOk, Insert, Remove;
    if stage.NatRemove? || stage.NatInsert? || stage.NatUndo? {
      NatEntriesKeep(s, t, c, stage);
    } else {
      LockedFacts(s, t, c, stage);
      var x := s.conns[c];
      var s' := LockedStep(s, t, c, stage);
      assert s.conns == s.conns[c := x];
      if stage.NatCheck? {
        var after := if x.expire || x.translation.Some? then NatUnlock else NatRemove;
        ChangeKeeps(s, s', t, c, stage, x, Refs(s, c), Locked(c, after));
      } else if stage.NatAdjust? {
        ChangeKeeps(s, s', t, c, stage, x.(bk := NewBackKey(x)), Refs(s, c), Locked(c, NatInsert));
      } else if stage.NatFlag? {
        ChangeKeeps(s, s', t, c, stage, MarkRemoved(x), Refs(s, c), Locked(c, NatUnlock));
      } else if stage.NatSet? {
        ChangeKeeps(s, s', t, c, stage, x.(translation := x.pending), Refs(s, c), Locked(c, NatUnlock));
      } else {
        ChangeKeeps(s, s', t, c, stage, x.(lock := Free), Refs(s, c), Ready);
      }
    }
  }

  // ----- the steps of the worker

  /** A step of the worker that touches connection c only, before it starts to wait for readers. */
  ghost predicate SweepFrame(s: State, s': State, c: nat, x: Conn) {
    && c in s.conns && s'.conns == s.conns[c := x]
    && s'.pcs == s.pcs && s'.refs == s.refs && s'.waiting == s.waiting && s'.failed == s.failed
    && EntriesFrame(s.entries, s'.entries, c)
    && !AfterSweep(s.worker) && !AfterSweep(s'.worker)
    && (forall d :: d != c ==> !WorkerOn(s.worker, d) && !WorkerOn(s'.worker, d))
    && (s.conns[c].lock.Held? ==> Mild(s.conns[c], x))
  }

  lemma SweepOtherConn(s: State, s': State, c: nat, x: Conn, d: nat)
    requires Inv(s) && SweepFrame(s, s', c, x) && d in s'.conns && d != c
    ensures ConnOk(s', d)
  {
    hide TableOk, EntriesFrame, Mild, StageOk, SweepOk, WorkerOk, PcOk;
    assert ConnOk(s, d);
    assert !WorkerOn(s.worker, d) && !WorkerOn(s'.worker, d);
    TableFrame(s.entries, s'.entries, c, d, s.conns[d]);
  }

  lemma SweepPc(s: State, s': State, c: nat, x: Conn, u: nat)
    requires Inv(s) && SweepFrame(s, s', c, x) && u in s'.pcs
    ensures PcOk(s', u)
  {
    hide TableOk, EntriesFrame, ConnOk, SweepOk, WorkerOk;
    assert PcOk(s, u);
    var pc := s.pcs[u];
    if pc.Locked? && pc.cid == c {
      StageMild(pc.stage, s.conns[c], x);
    }
  }

  lemma SweepInv(s: State, s': State, c: nat, x: Conn)
    requires Inv(s) && SweepFrame(s, s', c, x) && ConnOk(s', c) && WorkerOk(s')
    ensures Inv(s')
  {
    hide ConnOk, PcOk, WorkerOk;
    forall d | d in s'.conns ensures ConnOk(s', d) {
      if d != c { SweepOtherConn(s, s', c, x, d); }
    }
    forall u | u in s'.pcs ensures PcOk(s', u) {
      SweepPc(s, s', c, x, u);
    }
  }

  lemma PickKeeps(s: State, c: nat)
    requires Inv(s) && s.worker.Scan? && c in s.conns && s.conns[c].place.Main?
    ensures Inv(WorkerStep(s, Choice(c, true)))
  {
    hide StageOk, PcOk, SweepOk, EntriesFrame, TableOk;
    assert ConnOk(s, c);
    var s' := WorkerStep(s, Choice(c, true));
    SameEntries(s.entries, c);
    SameTable(s.entries, c, s.conns[c], s'.conns[c]);
    SweepInv(s, s', c, s'.conns[c]);
  }

  lemma WantLockKeeps(s: State, w: Choice)
    requires Inv(s) && s.worker.WantLock?
    ensures Inv(WorkerStep(s, w))
  {
    hide StageOk, PcOk, EntriesFrame, TableOk;
    var c := s.worker.cid;
    assert c in s.conns && ConnOk(s, c);
    var s' := WorkerStep(s, w);
    if s.conns[c].lock.Free? {
      SameEntries(s.entries, c);
      SameTable(s.entries, c, s.conns[c], s'.conns[c]);
      SweepInv(s, s', c, s'.conns[c]);
    }
  }

  lemma SweepFacts(s: State)
    requires Inv(s) && s.worker.Sweep?
    ensures !s.failed && s.worker.cid in s.conns
    ensures var x := s.conns[s.worker.cid];
      && x.place.Gc? && x.lock == Worker && SweepOk(s.worker.stage, x) && TableOk(s.entries, s.worker.cid, x)
      && x.ref == |Refs(s, s.worker.cid)| && (x.removed ==> x.expire)
  {
  }

  /** A step inside npf_conn_remove. */
  lemma InsideSweep(s: State, s': State, x: Conn)
    requires Inv(s) && s.worker.Sweep? && SweepFrame(s, s', s.worker.cid, x)
    requires TableOk(s'.entries, s.worker.cid, x) && x.place.Gc? && x.ref == |Refs(s, s.worker.cid)|
    requires (x.removed ==> x.expire)
    requires s'.worker.Sweep? ==> s'.worker.cid == s.worker.cid && x.lock == Worker && SweepOk(s'.worker.stage, x)
    requires !s'.worker.Sweep? ==> s'.worker.Scan? && x.lock.Free? && x.removed && !x.hasFw && !x.hasBk
    ensures Inv(s')
  {
    hide TableOk, SweepOk, EntriesFrame, Inv;
    assert ConnOk(s', s.worker.cid);
    SweepInv(s, s', s.worker.cid, x);
  }

  lemma SweepRemoveKeeps(s: State, w: Choice)
    requires Inv(s) && s.worker.Sweep? && (s.worker.stage.SwFw? || s.worker.stage.SwBk?)
    ensures Inv(WorkerStep(s, w))
  {
    hide TableOk, EntriesFrame, Inv;
    SweepFacts(s);
    var c, forw := s.worker.cid, s.worker.stage.SwFw?;
    RemovedTable(s.entries, c, s.conns[c], forw);
    InsideSweep(s, WorkerStep(s, w), Flagged(s.conns[c], forw, false));
  }

  lemma SweepKeeps(s: State, w: Choice)
    requires Inv(s) && s.worker.Sweep?
    ensures Inv(WorkerStep(s, w))
  {
    hide TableOk, EntriesFrame, Inv;
    SweepFacts(s);
    var c, stage := s.worker.cid, s.worker.stage;
    var x := s.conns[c];
    SameEntries(s.entries, c);
    if stage.SwFw? || stage.SwBk? {
      SweepRemoveKeeps(s, w);
    } else if stage.SwCheck? {
      assert s.conns == s.conns[c := x];
      InsideSweep(s, WorkerStep(s, w), x);
    } else if stage.SwFlag? {
      SameTable(s.entries, c, x, MarkRemoved(x));
      InsideSweep(s, WorkerStep(s, w), MarkRemoved(x));
    } else {
      SameTable(s.entries, c, x, x.(lock := Free));
      InsideSweep(s, WorkerStep(s, w), x.(lock := Free));
    }
  }

  lemma MigratedConn(s: State, s': State, c: nat)
    requires Inv(s) && s.worker.Idle? && s' == Migrated(s).(worker := Scan) && c in s.conns
    ensures ConnOk(s', c)
  {
    hide StageOk, PcOk, EntriesLive, LedgerOk, SweepOk, TableOk, WorkerOk;
    assert ConnOk(s, c);
    var x := s.conns[c];
    var x' := if x.place.New? then x.(place := Main) else x;
    assert s'.conns[c] == x';
    hide Migrated, Inv;
    SameTable(s.entries, c, x, x');
  }

  lemma MigratedKeeps(s: State, w: Choice)
    requires Inv(s) && s.worker.Idle?
    ensures Inv(WorkerStep(s, w))
  {
    hide ConnOk, SweepOk;
    var s' := WorkerStep(s, w);
    forall c | c in s'.conns ensures ConnOk(s', c) {
      MigratedConn(s, s', c);
    }
    forall u | u in s'.pcs ensures PcOk(s', u) {
      assert PcOk(s, u);
      if s.pcs[u].Locked? {
        var c := s.pcs[u].cid;
        StageMild(s.pcs[u].stage, s.conns[c], s'.conns[c]);
      }
    }
  }

  /** The worker begins or ends its wait, or rests. */
  lemma PhaseKeeps(s: State, s': State)
    requires Inv(s) && !s.worker.WantLock? && !s.worker.Sweep?
    requires s' == s.(worker := s'.worker, waiting := s'.waiting)
    requires s'.worker.Wait? ==> forall t :: t in s.pcs && InEpoch(s.pcs[t]) ==> t in s'.waiting
    requires s'.worker.Destroy? ==> s.worker.Wait? && s.waiting == {} && s'.waiting == {}
    requires s'.worker.Wait? || s'.worker.Destroy? || s'.worker.Idle?
    ensures Inv(s')
  {
    hide TableOk, StageOk, SweepOk;
    forall c | c in s'.conns ensures ConnOk(s', c) {
      assert ConnOk(s, c);
    }
    forall u | u in s'.pcs ensures PcOk(s', u) {
      assert PcOk(s, u);
    }
  }

  lemma LockerCounts(s: State, c: nat, t: nat)
    requires Inv(s) && c in s.conns && s.conns[c].lock == Held(t)
    requires At(s, t).Locked? && At(s, t).cid == c && !Establishing(At(s, t).stage)
    ensures |Refs(s, c)| > 0
  {
  }

  /** Nothing refers to a connection that the worker is about to destroy. */
  lemma DestroyableUnused(s: State, c: nat)
    requires Inv(s) && s.worker.Destroy? && c in s.conns && s.conns[c].place.Gc? && s.conns[c].ref == 0
    ensures s.conns[c].lock.Free? && Refs(s, c) == multiset{}
    ensures forall t :: t in s.pcs ==> s.pcs[t] != LookGot(c) && !(s.pcs[t].Locked? && s.pcs[t].cid == c)
    ensures forall k :: k in s.entries ==> s.entries[k].cid != c
  {
    hide StageOk, SweepOk;
    assert ConnOk(s, c);
    assert !WorkerOn(s.worker, c);
    if s.conns[c].lock.Held? {
      LockerCounts(s, c, s.conns[c].lock.thread);
    }
    forall t | t in s.pcs ensures s.pcs[t] != LookGot(c) && !(s.pcs[t].Locked? && s.pcs[t].cid == c) {
      assert PcOk(s, t);
    }
  }

  lemma DestroyKeeps(s: State, c: nat)
    requires Inv(s) && s.worker.Destroy?
    ensures Inv(DestroyOne(s, c))
  {
    hide ConnOk, PcOk;
    if c in s.conns && s.conns[c].place.Gc? && s.conns[c].ref == 0 {
      DestroyableUnused(s, c);
      var s' := DestroyOne(s, c);
      forall d | d in s'.conns ensures ConnOk(s', d) {
        DestroyedConn(s, s', c, d);
      }
      forall u | u in s'.pcs ensures PcOk(s', u) {
        DestroyedPc(s, s', c, u);
      }
    }
  }

  lemma DestroyedConn(s: State, s': State, c: nat, d: nat)
    requires d in s.conns && ConnOk(s, d) && d != c && s' == s.(conns := s.conns - {c})
    ensures ConnOk(s', d)
  {
  }

  lemma DestroyedPc(s: State, s': State, c: nat, u: nat)
    requires u in s.pcs && PcOk(s, u) && s' == s.(conns := s.conns - {c})
    requires s.pcs[u] != LookGot(c) && !(s.pcs[u].Locked? && s.pcs[u].cid == c)
    ensures PcOk(s', u)
  {
  }

  lemma ExpiredConn(s: State, s': State, c: nat, d: nat)
    requires c in s.conns && d in s.conns && ConnOk(s, d) && s' == Put(s, c, s.conns[c].(expire := true))
    ensures ConnOk(s', d)
  {
    hide TableOk;
    SameTable(s.entries, d, s.conns[d], s'.conns[d]);
  }

  lemma ExpiredPc(s: State, s': State, c: nat, u: nat)
    requires c in s.conns && u in s.pcs && PcOk(s, u) && s' == Put(s, c, s.conns[c].(expire := true))
    ensures PcOk(s', u)
  {
    hide StageOk;
    if s.pcs[u].Locked? {
      var d := s.pcs[u].cid;
      StageMild(s.pcs[u].stage, s.conns[d], s'.conns[d]);
    }
  }

  lemma ExpireKeeps(s: State, c: nat)
    requires Inv(s) && c in s.conns
    ensures Inv(Put(s, c, s.conns[c].(expire := true)))
  {
    hide ConnOk, PcOk, SweepOk;
    var s' := Put(s, c, s.conns[c].(expire := true));
    forall d | d in s'.conns ensures ConnOk(s', d) {
      ExpiredConn(s, s', c, d);
    }
    forall u | u in s'.pcs ensures PcOk(s', u) {
      ExpiredPc(s, s', c, u);
    }
    if s.worker.Sweep? {
      var d := s.worker.cid;
      SweepMild(s.worker.stage, s.conns[d], s'.conns[d]);
    }
  }

  lemma WorkerStepKeeps(s: State, w: Choice)
    requires Inv(s)
    ensures Inv(WorkerStep(s, w))
  {
    hide Inv, DestroyOne;
    if s.worker.Idle? {
      MigratedKeeps(s, w);
    } else if s.worker.Scan? {
      if !w.more {
        PhaseKeeps(s, WorkerStep(s, w));
      } else if w.cid in s.conns && s.conns[w.cid].place.Main? {
        PickKeeps(s, w.cid);
      }
    } else if s.worker.WantLock? {
      WantLockKeeps(s, w);
    } else if s.worker.Sweep? {
      SweepKeeps(s, w);
    } else if s.worker.Wait? {
      if s.waiting == {} { PhaseKeeps(s, WorkerStep(s, w)); }
    } else if w.more {
      DestroyKeeps(s, w.cid);
    } else {
      PhaseKeeps(s, WorkerStep(s, w));
    }
  }

  // ----- every run

  lemma BeginKeeps(s: State, t: nat, r: Request)
    requires Inv(s) && At(s, t).Ready?
    ensures Inv(Begin(s, t, r))
  {
    hide Inv, Created, TakeLock, Activated, Dropped, PcOk, PacketOk, PacketKey, MirrorKey, MayTranslate, Create;
    match r
    case Lookup(key) =>
      var s' := Begin(s, t, r);
      assert PcOk(s', t) by { OutsideOk(s', t); }
      assert !s.failed by { NotFailed(s); }
      MovesOnly(s, s', t);
    case Establish(c, q, global) =>
      if !(c in s.conns || c in s.refs) {
        CreatedKeeps(s, t, c, q, if global then q.ifid else 0, PacketKey(s.params, q), MirrorKey(s.params, q));
      }
    case SetNat(c, q, ports, taddr, tport) =>
      if t in Refs(s, c) { TakeLockKeeps(s, t, c, Create(q, ports, taddr, tport)); }
    case Activate(c) =>
      if t in Refs(s, c) { ActivatedKeeps(s, t, c); }
    case Release(c) =>
      if t in Refs(s, c) { DroppedKeeps(s, t, c); }
  }

  lemma OutsideOk(s: State, t: nat)
    requires At(s, t).LookIn?
    ensures PcOk(s, t)
  {
  }

  lemma StepKeeps(s: State, a: Action)
    requires Inv(s)
    ensures Inv(Next(s, a))
  {
    hide Inv, Begin, LockedStep, LookupStep, WorkerStep;
    match a
    case Thread(t, r) =>
      if At(s, t).Ready? {
        BeginKeeps(s, t, r);
      } else if At(s, t).Locked? {
        LockedKeeps(s, t);
      } else {
        LookupKeeps(s, t);
      }
    case Collector(w) => WorkerStepKeeps(s, w);
    case Expire(c) =>
      if c in s.conns { ExpireKeeps(s, c); }
  }

  lemma LockedKeeps(s: State, t: nat)
    requires Inv(s) && At(s, t).Locked?
    ensures Inv(LockedStep(s, t, At(s, t).cid, At(s, t).stage))
  {
    hide Inv, EstablishStep, SetNatStep;
    var c, stage := At(s, t).cid, At(s, t).stage;
    if Establishing(stage) {
      EstablishKeeps(s, t, c, stage);
    } else {
      SetNatKeeps(s, t, c, stage);
    }
  }

  predicate Initial(s: State) {
    s == State(s.params, map[], map[], map[], map[], Idle, {}, false)
  }

  ghost predicate Run(run: seq<State>, actions: seq<Action>) {
    && |run| == |actions| + 1 && Initial(run[0])
    && forall k :: 0 <= k < |actions| ==> run[k + 1] == Next(run[k], actions[k])
  }

  lemma {:induction false} RunInvariant(run: seq<State>, actions: seq<Action>, k: nat)
    requires Run(run, actions) && k < |run|
    ensures Inv(run[k])
  {
    hide Next;
    if k > 0 {
      hide Inv;
      RunInvariant(run, actions, k - 1);
      StepKeeps(run[k - 1], actions[k - 1]);
    }
  }
}
