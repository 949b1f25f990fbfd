/** NAT end to end (src/kern/npf_nat.c, src/kern/npf_conn.c): a reply finds its connection and is undone. */
module NatReply {
  import opened Words
  import opened ConnKeys
  import opened NatEntries
  import opened ConnSteps
  import opened ConnInvariant
  import opened ConnSafety

  /** Stages of npf_conn_setnat between which the backwards key has its new value but not yet its entry. */
  predicate Adjusting(stage: Stage) {
    stage.NatInsert? || stage.NatUndo? || stage.NatFlag? || stage.NatSet?
  }

  /** Stages that follow the test for an earlier translation. */
  predicate Translating(stage: Stage) {
    stage.NatRemove? || stage.NatAdjust? || Adjusting(stage)
  }

  /** An entry that belongs to a connection. */
  predicate EntryFits(p: Params, origin: Packet, ifid: bv32, nt: NatEntry) {
    EntryOf(p, origin, nt) && (ifid != 0 ==> nt.ifid == ifid && nt.ntype == origin.di)
  }

  /** Where the thread that holds the lock of a connection is. */
  function Holder(s: State, x: Conn): Option<Stage> {
    if x.lock.Held? && At(s, x.lock.thread).Locked? then Some(At(s, x.lock.thread).stage) else None
  }

  /** What the keys of a connection are made from. */
  predicate KeysOk(p: Params, x: Conn, at: Option<Stage>) {
    && PacketOk(x.origin) && x.fw == PacketKey(p, x.origin)
    && (x.translation.Some? ==>
          && EntryFits(p, x.origin, x.ifid, x.translation.value)
          && x.bk == WithNat(MirrorKey(p, x.origin), x.translation.value))
    && (x.translation.None? && !x.removed && !(at.Some? && Adjusting(at.value)) ==> x.bk == MirrorKey(p, x.origin))
    && (at.Some? && (at.value.NatCheck? || Translating(at.value)) ==>
          x.pending.Some? && EntryFits(p, x.origin, x.ifid, x.pending.value))
    && (at.Some? && Translating(at.value) ==> x.translation.None?)
    && (at.Some? && Adjusting(at.value) ==> x.bk == WithNat(MirrorKey(p, x.origin), x.pending.value))
  }

  predicate KeyInv(s: State) {
    forall c :: c in s.conns ==> KeysOk(s.params, s.conns[c], Holder(s, s.conns[c]))
  }

  // ----- steps that leave the keys alone

  /** Nothing that the keys are made from has changed. */
  predicate SameOrigin(x: Conn, x': Conn) {
    && x'.fw == x.fw && x'.bk == x.bk && x'.ifid == x.ifid && x'.origin == x.origin
    && x'.translation == x.translation && x'.pending == x.pending && (x.removed ==> x'.removed)
  }

  predicate SameKeys(x: Conn, x': Conn) {
    SameOrigin(x, x') && (x'.lock == x.lock || (!x.lock.Held? && !x'.lock.Held?))
  }

  ghost predicate Quiet(s: State, s': State) {
    && s'.params == s.params
    && (forall c :: c in s'.conns ==> c in s.conns && SameKeys(s.conns[c], s'.conns[c]))
    && (forall t :: At(s, t).Locked? ==> At(s', t) == At(s, t))
  }

  lemma QuietKeeps(s: State, s': State)
    requires Inv(s) && KeyInv(s) && Quiet(s, s')
    ensures KeyInv(s')
  {
    hide PacketOk, PacketKey, MirrorKey, WithNat, EntryFits, TableOk, SweptOk, PcOk, WorkerOk, EntriesLive, LedgerOk;
    forall c | c in s'.conns
      ensures KeysOk(s'.params, s'.conns[c], Holder(s', s'.conns[c]))
    {
      assert ConnOk(s, c) && KeysOk(s.params, s.conns[c], Holder(s, s.conns[c]));
    }
  }

  lemma QuietChange(s: State, s': State, c: nat, x: Conn)
    requires c in s.conns && SameKeys(s.conns[c], x)
    requires s'.params == s.params && s'.conns == s.conns[c := x]
    requires forall t :: At(s, t).Locked? ==> At(s', t) == At(s, t)
    ensures Quiet(s, s')
  {
    hide SameOrigin;
    forall d | d in s.conns
      ensures SameKeys(s.conns[d], s.conns[d])
    {
      SameSelf(s.conns[d]);
    }
  }

  lemma SameSelf(x: Conn)
    ensures SameKeys(x, x)
  {
  }

  lemma QuietMove(s: State, s': State)
    requires s'.params == s.params && s'.conns == s.conns
    requires forall t :: At(s, t).Locked? ==> At(s', t) == At(s, t)
    ensures Quiet(s, s')
  {
  }

  lemma WorkerQuiet(s: State, w: Choice)
    requires WorkerOk(s)
    ensures Quiet(s, WorkerStep(s, w))
  {
    hide InEpoch, SweepStep, Migrated, DestroyOne, Quiet, SweepOk, SameKeys;
    var s' := WorkerStep(s, w);
    match s.worker
    case Sweep(c, stage) => SweepQuiet(s, c, stage);
    case Idle => MigratedQuiet(s, s');
    case Destroy =>
      if w.more { DestroyQuiet(s, w.cid); } else { QuietMove(s, s'); }
    case Scan =>
      if w.more && w.cid in s.conns && s.conns[w.cid].place.Main? {
        PlaceQuiet(s, s', w.cid, Gc, s.conns[w.cid].lock);
      } else {
        QuietMove(s, s');
      }
    case WantLock(c) =>
      if s.conns[c].lock.Free? {
        PlaceQuiet(s, s', c, s.conns[c].place, Worker);
      } else {
        QuietMove(s, s');
      }
    case Wait => QuietMove(s, s');
  }

  lemma PlaceQuiet(s: State, s': State, c: nat, place: Place, lock: Lock)
    requires c in s.conns && (lock == s.conns[c].lock || (!lock.Held? && !s.conns[c].lock.Held?))
    requires s' == Put(s, c, s.conns[c].(place := place, lock := lock)).(worker := s'.worker)
    ensures Quiet(s, s')
  {
    hide Quiet;
    QuietChange(s, s', c, s.conns[c].(place := place, lock := lock));
  }

  lemma MigratedQuiet(s: State, s': State)
    requires s' == Migrated(s).(worker := s'.worker)
    ensures Quiet(s, s')
  {
  }

  lemma DestroyQuiet(s: State, c: nat)
    ensures Quiet(s, DestroyOne(s, c))
  {
  }

  lemma SweepQuiet(s: State, c: nat, stage: SweepStage)
    requires c in s.conns && s.conns[c].lock.Worker?
    ensures Quiet(s, SweepStep(s, c, s.conns[c], stage))
  {
    hide Quiet;
    var s', x := SweepStep(s, c, s.conns[c], stage), s.conns[c];
    match stage
    case SwCheck => QuietMove(s, s');
    case SwFw => RemoveQuiet(s, s', c, true);
    case SwBk => RemoveQuiet(s, s', c, false);
    case SwFlag => QuietChange(s, s', c, MarkRemoved(x));
    case SwUnlock => QuietChange(s, s', c, x.(lock := Free));
  }

  lemma RemoveQuiet(s: State, s': State, c: nat, forw: bool)
    requires c in s.conns && s' == Remove(s, c, s.conns[c], forw).(worker := s'.worker)
    ensures Quiet(s, s')
  {
    hide Quiet, EntryKey;
    var key, x := EntryKey(s.conns[c], forw), s.conns[c];
    if key !in s.entries || s.entries[key].cid != c {
      QuietMove(s, s');
    } else {
      QuietChange(s, s', c, if forw then x.(hasFw := false) else x.(hasBk := false));
    }
  }

  lemma LookupQuiet(s: State, t: nat)
    requires !At(s, t).Locked?
    ensures Quiet(s, LookupStep(s, t))
  {
    hide Refs, Quiet;
    var s' := LookupStep(s, t);
    if At(s, t).LookGot? && At(s, t).found in s.conns {
      var x := s.conns[At(s, t).found];
      QuietChange(s, s', At(s, t).found, x.(ref := x.ref + 1));
    } else {
      QuietMove(s, s');
    }
  }

  lemma BeginQuiet(s: State, t: nat, r: Request)
    requires At(s, t).Ready? && !r.Establish? && !r.SetNat?
    ensures Quiet(s, Begin(s, t, r))
  {
    hide Refs, Quiet;
    var s' := Begin(s, t, r);
    if !r.Lookup? && t in Refs(s, r.target) && r.target in s.conns {
      var x := s.conns[r.target];
      if r.Activate? {
        QuietChange(s, s', r.target, x.(active := x.active || !x.expire));
      } else if x.ref > 0 {
        QuietChange(s, s', r.target, x.(ref := x.ref - 1));
      } else {
        QuietMove(s, s');
      }
    } else {
      QuietMove(s, s');
    }
  }

  // ----- steps of the holder of a lock

  /** A step of thread t that changes connection c only. */
  predicate Effect(s: State, s': State, t: nat, c: nat, x: Conn, pc: Pc) {
    s'.params == s.params && s'.conns == s.conns[c := x] && s'.pcs == s.pcs[t := pc]
  }

  lemma EffectKeeps(s: State, s': State, t: nat, c: nat, x: Conn, pc: Pc)
    requires Inv(s) && KeyInv(s) && Effect(s, s', t, c, x, pc) && (At(s, t).Locked? ==> At(s, t).cid == c)
    requires pc.Locked? ==> x.lock == Held(t)
    requires x.lock.Held? ==> pc.Locked?
    requires KeysOk(s.params, x, if pc.Locked? then Some(pc.stage) else None)
    ensures KeyInv(s')
  {
    hide KeysOk, TableOk, SweptOk, PcOk, WorkerOk, EntriesLive, LedgerOk;
    forall d | d in s'.conns
      ensures KeysOk(s.params, s'.conns[d], Holder(s', s'.conns[d]))
    {
      if d != c { assert ConnOk(s, d) && KeysOk(s.params, s.conns[d], Holder(s, s.conns[d])); }
    }
  }

  lemma CreatedKeys(s: State, t: nat, c: nat, q: Packet, ifid: bv32)
    requires Inv(s) && KeyInv(s) && At(s, t).Ready? && c !in s.conns && PacketOk(q)
    ensures KeyInv(Created(s, t, c, q, ifid, PacketKey(s.params, q), MirrorKey(s.params, q)))
  {
    hide Inv, KeyInv, PacketOk, PacketKey, MirrorKey, WithNat, EntryFits;
    var s' := Created(s, t, c, q, ifid, PacketKey(s.params, q), MirrorKey(s.params, q));
    EffectKeeps(s, s', t, c, s'.conns[c], Locked(c, EstFw));
  }

  lemma TakeLockKeys(s: State, t: nat, c: nat, q: Packet, ports: bool, taddr: seq<bv32>, tport: bv32)
    requires Inv(s) && KeyInv(s) && At(s, t).Ready?
    requires c in s.conns && MayTranslate(s.params, s.conns[c], q, taddr, tport)
    ensures KeyInv(TakeLock(s, t, c, Create(q, ports, taddr, tport)))
  {
    hide Inv, Create, MayTranslate, EntryFits, KeysOk;
    var x, nt := s.conns[c], Create(q, ports, taddr, tport);
    assert KeysOk(s.params, x, Holder(s, x));
    if x.lock.Free? {
      hide KeyInv;
      PendingKeys(s.params, x, q, ports, taddr, tport, t);
      EffectKeeps(s, TakeLock(s, t, c, nt), t, c, x.(lock := Held(t), pending := Some(nt)), Locked(c, NatCheck));
    }
  }

  lemma PendingKeys(p: Params, x: Conn, q: Packet, ports: bool, taddr: seq<bv32>, tport: bv32, t: nat)
    requires KeysOk(p, x, None) && MayTranslate(p, x, q, taddr, tport)
    ensures KeysOk(p, x.(lock := Held(t), pending := Some(Create(q, ports, taddr, tport))), Some(NatCheck))
  {
    hide Create, MayTranslate, EntryFits, PacketKey, MirrorKey, WithNat, PacketOk;
    PendingFits(p, x, q, ports, taddr, tport);
  }

  lemma PendingFits(p: Params, x: Conn, q: Packet, ports: bool, taddr: seq<bv32>, tport: bv32)
    requires PacketOk(x.origin) && x.fw == PacketKey(p, x.origin) && MayTranslate(p, x, q, taddr, tport)
    ensures EntryFits(p, x.origin, x.ifid, Create(q, ports, taddr, tport))
  {
    hide PacketKey, EntryOf;
    CreatedEntry(p, x.origin, q, ports, taddr, tport);
  }

  lemma InsertEffect(s: State, t: nat, c: nat, x: Conn, forw: bool, ok: Stage, taken: Stage)
    returns (x': Conn, stage: Stage)
    requires c in s.conns && s.conns[c] == x
    ensures Effect(s, Insert(s, t, c, x, forw, ok, taken), t, c, x', Locked(c, stage))
    ensures SameOrigin(x, x') && x'.lock == x.lock && (stage == ok || stage == taken)
  {
    hide EntryKey;
    if EntryKey(x, forw) in s.entries {
      x', stage := x, taken;
      assert s.conns == s.conns[c := x];
    } else {
      x', stage := if forw then x.(hasFw := true) else x.(hasBk := true), ok;
    }
  }

  lemma RemoveEffect(s: State, t: nat, c: nat, x: Conn, forw: bool, after: Stage) returns (x': Conn)
    requires c in s.conns && s.conns[c] == x
    ensures Effect(s, Goto(Remove(s, c, x, forw), t, Locked(c, after)), t, c, x', Locked(c, after))
    ensures SameOrigin(x, x') && x'.lock == x.lock
  {
    hide EntryKey;
    if EntryKey(x, forw) !in s.entries || s.entries[EntryKey(x, forw)].cid != c {
      x' := x;
      assert s.conns == s.conns[c := x];
    } else {
      x' := if forw then x.(hasFw := false) else x.(hasBk := false);
    }
  }

  lemma EstablishEffect(s: State, t: nat, c: nat, x: Conn, stage: Stage) returns (x': Conn, pc: Pc)
    requires c in s.conns && s.conns[c] == x && x.lock == Held(t) && Establishing(stage)
    requires stage.EstDec? ==> x.ref > 0
    ensures Effect(s, EstablishStep(s, t, c, x, stage), t, c, x', pc) && SameOrigin(x, x')
    ensures if pc.Locked? then x'.lock == Held(t) && Establishing(pc.stage) else x'.lock.Free?
  {
    hide Insert, Remove, Refs;
    if stage.EstFw? {
      var stage';
      x', stage' := InsertEffect(s, t, c, x, true, EstBk, EstFlag);
      pc := Locked(c, stage');
    } else if stage.EstBk? {
      var stage';
      x', stage' := InsertEffect(s, t, c, x, false, EstEnqueue, EstUndo);
      pc := Locked(c, stage');
    } else if stage.EstUndo? {
      x' := RemoveEffect(s, t, c, x, true, EstFlag);
      pc := Locked(c, EstFlag);
    } else if stage.EstFlag? {
      x', pc := MarkRemoved(x), Locked(c, EstDec);
    } else if stage.EstDec? {
      x', pc := x.(ref := x.ref - 1), Locked(c, EstEnqueue);
    } else if stage.EstEnqueue? {
      x', pc := x.(place := New), Locked(c, EstUnlock);
    } else {
      x', pc := x.(lock := Free), Ready;
    }
  }

  lemma EstablishKeys(s: State, t: nat, c: nat, stage: Stage)
    requires Inv(s) && KeyInv(s) && At(s, t) == Locked(c, stage) && Establishing(stage)
    ensures KeyInv(LockedStep(s, t, c, stage))
  {
    hide Inv, PacketOk, PacketKey, MirrorKey, WithNat, EntryFits, NewBackKey, EstablishStep, SetNatStep;
    LockedFacts(s, t, c, stage);
    var x := s.conns[c];
    assert KeysOk(s.params, x, Holder(s, x));
    assert t in Refs(s, c) ==> |Refs(s, c)| > 0;
    var x', pc := EstablishEffect(s, t, c, x, stage);
    hide KeyInv;
    EffectKeeps(s, LockedStep(s, t, c, stage), t, c, x', pc);
  }

  lemma SetNatEffect(s: State, t: nat, c: nat, x: Conn, stage: Stage) returns (x': Conn, pc: Pc)
    requires c in s.conns && s.conns[c] == x && x.lock == Held(t) && !Establishing(stage)
    requires StageOk(stage, x) && (x.removed ==> x.expire)
    ensures Effect(s, SetNatStep(s, t, c, x, stage, NewBackKey(x)), t, c, x', pc)
    ensures if pc.Locked? then x'.lock == Held(t) && !Establishing(pc.stage) else x'.lock.Free?
    ensures KeysOk(s.params, x, Some(stage)) ==> KeysOk(s.params, x', if pc.Locked? then Some(pc.stage) else None)
  {
    hide Insert, Remove, PacketOk, PacketKey, MirrorKey, WithNat, EntryFits;
    if stage.NatRemove? {
      x' := RemoveEffect(s, t, c, x, false, NatAdjust);
      pc := Locked(c, NatAdjust);
    } else if stage.NatInsert? {
      var stage';
      x', stage' := InsertEffect(s, t, c, x, false, NatSet, NatUndo);
      pc := Locked(c, stage');
    } else if stage.NatUndo? {
      x' := RemoveEffect(s, t, c, x, true, NatFlag);
      pc := Locked(c, NatFlag);
    } else {
      x', pc := SetNatFieldEffect(s, t, c, x, stage);
    }
  }

  lemma SetNatFieldEffect(s: State, t: nat, c: nat, x: Conn, stage: Stage) returns (x': Conn, pc: Pc)
    requires c in s.conns && s.conns[c] == x && x.lock == Held(t) && !Establishing(stage)
    requires !stage.NatRemove? && !stage.NatInsert? && !stage.NatUndo?
    requires StageOk(stage, x) && (x.removed ==> x.expire)
    ensures Effect(s, SetNatStep(s, t, c, x, stage, NewBackKey(x)), t, c, x', pc)
    ensures if pc.Locked? then x'.lock == Held(t) && !Establishing(pc.stage) else x'.lock.Free?
    ensures KeysOk(s.params, x, Some(stage)) ==> KeysOk(s.params, x', if pc.Locked? then Some(pc.stage) else None)
  {
    hide Insert, Remove, PacketOk, PacketKey, MirrorKey, WithNat, EntryFits;
    if stage.NatCheck? {
      x', pc := x, Locked(c, if x.expire || x.translation.Some? then NatUnlock else NatRemove);
      assert s.conns == s.conns[c := x];
    } else if stage.NatAdjust? {
      x', pc := x.(bk := NewBackKey(x)), Locked(c, NatInsert);
    } else if stage.NatFlag? {
      x', pc := MarkRemoved(x), Locked(c, NatUnlock);
    } else if stage.NatSet? {
      x', pc := x.(translation := x.pending), Locked(c, NatUnlock);
    } else {
      x', pc := x.(lock := Free), Ready;
    }
  }

  lemma SetNatKeys(s: State, t: nat, c: nat, stage: Stage)
    requires Inv(s) && KeyInv(s) && At(s, t) == Locked(c, stage) && !Establishing(stage)
    ensures KeyInv(LockedStep(s, t, c, stage))
  {
    hide Inv, KeysOk, NewBackKey, EstablishStep, SetNatStep;
    LockedFacts(s, t, c, stage);
    var x := s.conns[c];
    assert KeysOk(s.params, x, Holder(s, x));
    var x', pc := SetNatEffect(s, t, c, x, stage);
    hide KeyInv;
    EffectKeeps(s, LockedStep(s, t, c, stage), t, c, x', pc);
  }

  // ----- every run

  lemma BeginKeys(s: State, t: nat, r: Request)
    requires Inv(s) && KeyInv(s) && At(s, t).Ready?
    ensures KeyInv(Begin(s, t, r))
  {
    hide Inv, KeyInv, Created, TakeLock, PacketOk, PacketKey, MirrorKey, MayTranslate, Create;
    if !r.Establish? && !r.SetNat? {
      BeginQuiet(s, t, r);
      QuietKeeps(s, Begin(s, t, r));
    }
    match r
    case Establish(c, q, global) =>
      if c !in s.conns && c !in s.refs && PacketOk(q) { CreatedKeys(s, t, c, q, if global then q.ifid else 0); }
    case SetNat(c, q, ports, taddr, tport) =>
      if t in Refs(s, c) {
        HolderLive(s, t, c);
        if MayTranslate(s.params, s.conns[c], q, taddr, tport) { TakeLockKeys(s, t, c, q, ports, taddr, tport); }
      }
    case _ =>
  }

  lemma StepKeys(s: State, a: Action)
    requires Inv(s) && KeyInv(s)
    ensures KeyInv(Next(s, a))
  {
    hide Inv, KeyInv, Begin, LockedStep, LookupStep, WorkerStep;
    match a
    case Thread(t, r) =>
      if At(s, t).Ready? {
        BeginKeys(s, t, r);
      } else if At(s, t).Locked? {
        if Establishing(At(s, t).stage) {
          EstablishKeys(s, t, At(s, t).cid, At(s, t).stage);
        } else {
          SetNatKeys(s, t, At(s, t).cid, At(s, t).stage);
        }
      } else {
        LookupQuiet(s, t);
        QuietKeeps(s, LookupStep(s, t));
      }
    case Collector(w) =>
      assert WorkerOk(s) by { WorkerFits(s); }
      WorkerQuiet(s, w);
      QuietKeeps(s, WorkerStep(s, w));
    case Expire(c) => QuietKeeps(s, Next(s, a));
  }

  lemma WorkerFits(s: State)
    requires Inv(s)
    ensures WorkerOk(s)
  {
  }

  lemma {:induction false} RunKeys(run: seq<State>, actions: seq<Action>, k: nat)
    requires Run(run, actions) && k < |run|
    ensures KeyInv(run[k])
  {
    hide Next;
    if k > 0 {
      hide Inv, KeyInv;
      RunKeys(run, actions, k - 1);
      RunInvariant(run, actions, k - 1);
      StepKeys(run[k - 1], actions[k - 1]);
    }
  }

  // ----- the reply

  /** npf_conn_check for a packet found under one of the connection's keys. */
  predicate ConnCheck(x: Conn, ifid: bv32, di: bv32, back: bool) {
    x.active && !x.expire && PlaceAgrees(x, ifid, di, back)
  }

  /** npf_nat_lookup: the entry, unless the packet is on another interface, and whether the flow is backwards. */
  function NatLookup(x: Conn, ifid: bv32, di: bv32): Option<(NatEntry, bool)> {
    if x.translation.None? || x.translation.value.ifid != ifid then None
    else Some((x.translation.value, x.translation.value.ntype != di))
  }

  /** Only packets equal in everything the keys include have the key of a packet. */
  ghost predicate OnlyPacket(p: Params, q: Packet) {
    forall q': Packet :: PacketOk(q') && PacketKey(p, q') == PacketKey(p, q) ==>
      q'.tuple == q.tuple && (p.useInterface ==> q'.ifid == q.ifid) && (p.useDirection ==> q'.di == q.di)
  }

  /**
   * In every run: whenever a translated connection is unlocked and not removed, the reply to the packet
   * it was made for, as translated, finds that connection through its backwards entry, and only that
   * reply does; the reply passes npf_conn_check while the connection is active and not expired; NAT
   * takes it for backwards traffic; and what NAT makes of it is the exact mirror of the original
   * packet, unless a port was lost.
   */
  lemma ReplyFindsConnection(run: seq<State>, actions: seq<Action>, k: nat, c: nat)
    requires Run(run, actions) && k < |run| && c in run[k].conns
    requires var x := run[k].conns[c]; x.lock.Free? && !x.removed && x.translation.Some?
    ensures var x, p := run[k].conns[c], run[k].params;
      var nt := x.translation.value;
      var reply := Reply(nt, x.origin.tuple);
      var key := PacketKey(p, reply);
      && key in run[k].entries && run[k].entries[key] == Entry(c, false) && OnlyPacket(p, reply)
      && (ConnCheck(x, reply.ifid, reply.di, true) <==> x.active && !x.expire)
      && NatLookup(x, reply.ifid, reply.di) == Some((nt, true))
      && (Translate(nt, reply.tuple, true) == Mirror(x.origin.tuple) <==> !PortLost(nt))
  {
    hide Next, Inv, PacketKey, WithNat, MirrorKey, Translate;
    TableAgreement(run, actions, k);
    RunKeys(run, actions, k);
    var x, p := run[k].conns[c], run[k].params;
    var nt := x.translation.value;
    assert KeysOk(p, x, Holder(run[k], x));
    BackKeyOfReply(p, x.origin, nt);
    ReplyRestored(p, x.origin, nt);
    OtherDirection(nt.ntype);
    KeyOfOnePacket(p, Reply(nt, x.origin.tuple));
  }

  lemma KeyOfOnePacket(p: Params, q: Packet)
    requires PacketOk(q)
    ensures OnlyPacket(p, q)
  {
    hide KeyOf;
    forall q': Packet | PacketOk(q') && PacketKey(p, q') == PacketKey(p, q)
      ensures q'.tuple == q.tuple && (p.useInterface ==> q'.ifid == q.ifid) && (p.useDirection ==> q'.di == q.di)
    {
      KeyInjective(p, q.tuple, q.ifid, q.di, q'.tuple, q'.ifid, q'.di);
    }
  }
}
