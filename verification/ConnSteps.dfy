/**
 * Connections, their table and the garbage collector (src/kern/npf_conn.c, src/kern/npf_conndb.c) as a
 * step system: any number of packet threads and one G/C worker, one atomic access at a time. The table
 * is an atomic map, and the synchronisation waits for every reader that was inside when it began.
 */
module ConnSteps {
  import opened Words
  import opened ConnKeys
  import opened NatEntries

  /** The words of a connection key. */
  type Key = seq<bv32>

  /** What the table stores under a key: a connection and whether this is its forwards entry. */
  datatype Entry = Entry(cid: nat, forw: bool)

  datatype Lock = Free | Held(thread: nat) | Worker

  /** Where a connection is linked: nowhere yet, on the new list, the main list or the G/C list. */
  datatype Place = Fresh | New | Main | Gc

  /**
   * A connection, with its interface identifier (zero when it is not tied to one) and its NAT entry.
   * The last four fields are auxiliary: the packet that the connection was made for, the NAT entry that
   * the holder of the lock brings, and which of its two entries it should have in the table now.
   */
  datatype Conn = Conn(fw: Key, bk: Key, active: bool, expire: bool, removed: bool, ifid: bv32,
                       translation: Option<NatEntry>, ref: nat, lock: Lock, place: Place,
                       origin: Packet, pending: Option<NatEntry>, hasFw: bool, hasBk: bool)

  /** Points inside npf_conn_establish and npf_conn_setnat where the lock is held. */
  datatype Stage =
    | EstFw | EstBk | EstUndo | EstFlag | EstDec | EstEnqueue | EstUnlock
    | NatCheck | NatRemove | NatAdjust | NatInsert | NatUndo | NatFlag | NatSet | NatUnlock

  datatype Pc = Ready | LookIn(key: Key) | LookGot(found: nat) | LookOut | Locked(cid: nat, stage: Stage)

  datatype SweepStage = SwCheck | SwFw | SwBk | SwFlag | SwUnlock

  datatype WorkerPc = Idle | Scan | WantLock(cid: nat) | Sweep(cid: nat, stage: SweepStage) | Wait | Destroy

  /**
   * params says which optional elements the keys include. refs is the ledger of references: for each
   * connection, the threads that hold one. waiting holds the readers the worker still waits for. failed
   * records that an assertion failed or that a connection was used after it had been destroyed.
   */
  datatype State = State(params: Params, conns: map<nat, Conn>, entries: map<Key, Entry>, refs: map<nat, multiset<nat>>,
                         pcs: map<nat, Pc>, worker: WorkerPc, waiting: set<nat>, failed: bool)

  function At(s: State, t: nat): Pc {
    if t in s.pcs then s.pcs[t] else Ready
  }

  function Refs(s: State, c: nat): multiset<nat> {
    if c in s.refs then s.refs[c] else multiset{}
  }

  function Goto(s: State, t: nat, pc: Pc): State {
    s.(pcs := s.pcs[t := pc])
  }

  function Fail(s: State): State {
    s.(failed := true)
  }

  function Put(s: State, c: nat, x: Conn): State {
    s.(conns := s.conns[c := x])
  }

  predicate InEpoch(pc: Pc) {
    pc.LookIn? || pc.LookGot? || pc.LookOut?
  }

  // ----- packet threads

  /** What a thread may be asked to do next when it is between operations. */
  datatype Request =
    | Lookup(key: Key)
    | Establish(newCid: nat, packet: Packet, global: bool)
    | SetNat(target: nat, packet: Packet, ports: bool, taddr: seq<bv32>, tport: bv32)
    | Activate(target: nat)
    | Release(target: nat)

  function Begin(s: State, t: nat, r: Request): State {
    match r
    case Lookup(key) => Goto(s, t, LookIn(key))
    case Establish(c, q, global) =>
      if c in s.conns || c in s.refs || !PacketOk(q) then s
      else Created(s, t, c, q, if global then q.ifid else 0, PacketKey(s.params, q), MirrorKey(s.params, q))
    case SetNat(c, q, ports, taddr, tport) =>
      if t !in Refs(s, c) || (c in s.conns && !MayTranslate(s.params, s.conns[c], q, taddr, tport)) then s
      else TakeLock(s, t, c, Create(q, ports, taddr, tport))
    case Activate(c) => if t in Refs(s, c) then Activated(s, c) else s
    case Release(c) => if t in Refs(s, c) then Dropped(s, t, c) else s
  }

  /** npf_conn_check on the interface and the direction. */
  predicate PlaceAgrees(x: Conn, ifid: bv32, di: bv32, back: bool) {
    x.ifid != 0 ==> (x.origin.di != di) == back && x.ifid == ifid
  }

  /** A forwards packet of the connection, and a translation address of its kind. */
  predicate MayTranslate(p: Params, x: Conn, q: Packet, taddr: seq<bv32>, tport: bv32) {
    && PacketOk(q) && PacketKey(p, q) == x.fw && PlaceAgrees(x, q.ifid, q.di, false)
    && |taddr| == |q.tuple.src| && tport < 0x10000
  }

  /** A new connection, with the reference of its creator, locked before it becomes visible. */
  function Created(s: State, t: nat, c: nat, q: Packet, ifid: bv32, fw: Key, bk: Key): State {
    var x := Conn(fw, bk, false, false, false, ifid, None, 1, Held(t), Fresh, q, None, false, false);
    Goto(Put(s, c, x).(refs := s.refs[c := multiset{t}]), t, Locked(c, EstFw))
  }

  function TakeLock(s: State, t: nat, c: nat, nt: NatEntry): State {
    if c !in s.conns then Fail(s)
    else if s.conns[c].lock.Free?
    then Goto(Put(s, c, s.conns[c].(lock := Held(t), pending := Some(nt))), t, Locked(c, NatCheck))
    else s
  }

  function Activated(s: State, c: nat): State {
    if c !in s.conns then Fail(s)
    else Put(s, c, s.conns[c].(active := s.conns[c].active || !s.conns[c].expire))
  }

  function Dropped(s: State, t: nat, c: nat): State {
    if c !in s.conns || s.conns[c].ref == 0 then Fail(s)
    else Put(s, c, s.conns[c].(ref := s.conns[c].ref - 1)).(refs := s.refs[c := Refs(s, c) - multiset{t}])
  }

  /** npf_conndb_lookup after the epoch section was entered. */
  function LookupStep(s: State, t: nat): State {
    match At(s, t)
    case LookIn(key) =>
      if key in s.entries then Goto(s, t, LookGot(s.entries[key].cid)) else Goto(s, t, LookOut)
    case LookGot(c) =>
      if c !in s.conns then Fail(s)
      else
        var s' := Put(s, c, s.conns[c].(ref := s.conns[c].ref + 1)).(refs := s.refs[c := Refs(s, c) + multiset{t}]);
        Goto(s', t, LookOut)
    case LookOut => Goto(s, t, Ready).(waiting := s.waiting - {t})
    case Ready => s
    case Locked(_, _) => s
  }

  function EntryKey(x: Conn, forw: bool): Key {
    if forw then x.fw else x.bk
  }

  /** Insert an entry, or go elsewhere when the key is taken. */
  function Insert(s: State, t: nat, c: nat, x: Conn, forw: bool, ok: Stage, taken: Stage): State {
    var key := EntryKey(x, forw);
    if key in s.entries then Goto(s, t, Locked(c, taken))
    else
      var x' := if forw then x.(hasFw := true) else x.(hasBk := true);
      Goto(Put(s, c, x').(entries := s.entries[key := Entry(c, forw)]), t, Locked(c, ok))
  }

  /** Remove an entry and assert that it was the connection's own. */
  function Remove(s: State, c: nat, x: Conn, forw: bool): State {
    var key := EntryKey(x, forw);
    if key !in s.entries || s.entries[key].cid != c then Fail(s)
    else Put(s, c, if forw then x.(hasFw := false) else x.(hasBk := false)).(entries := s.entries - {key})
  }

  function MarkRemoved(x: Conn): Conn {
    x.(removed := true, expire := true)
  }

  /** npf_conn_establish with the lock held. */
  function EstablishStep(s: State, t: nat, c: nat, x: Conn, stage: Stage): State {
    match stage
    case EstFw => Insert(s, t, c, x, true, EstBk, EstFlag)
    case EstBk => Insert(s, t, c, x, false, EstEnqueue, EstUndo)
    case EstUndo => Goto(Remove(s, c, x, true), t, Locked(c, EstFlag))
    case EstFlag => Goto(Put(s, c, MarkRemoved(x)), t, Locked(c, EstDec))
    case EstDec =>
      if x.ref == 0 then Fail(s)
      else
        var s' := Put(s, c, x.(ref := x.ref - 1)).(refs := s.refs[c := Refs(s, c) - multiset{t}]);
        Goto(s', t, Locked(c, EstEnqueue))
    case EstEnqueue => Goto(Put(s, c, x.(place := New)), t, Locked(c, EstUnlock))
    case _ => Goto(Put(s, c, x.(lock := Free)), t, Ready)
  }

  /** npf_conn_adjkey on the backwards key. */
  function NewBackKey(x: Conn): Key {
    if x.pending.Some? then WithNat(x.bk, x.pending.value) else x.bk
  }

  /** npf_conn_setnat with the lock held. */
  function SetNatStep(s: State, t: nat, c: nat, x: Conn, stage: Stage, newKey: Key): State {
    match stage
    case NatCheck =>
      if x.expire then Goto(s, t, Locked(c, NatUnlock))
      else if x.removed then Fail(s)
      else Goto(s, t, Locked(c, if x.translation.Some? then NatUnlock else NatRemove))
    case NatRemove => Goto(Remove(s, c, x, false), t, Locked(c, NatAdjust))
    case NatAdjust => Goto(Put(s, c, x.(bk := newKey)), t, Locked(c, NatInsert))
    case NatInsert => Insert(s, t, c, x, false, NatSet, NatUndo)
    case NatUndo => Goto(Remove(s, c, x, true), t, Locked(c, NatFlag))
    case NatFlag => Goto(Put(s, c, MarkRemoved(x)), t, Locked(c, NatUnlock))
    case NatSet => Goto(Put(s, c, x.(translation := x.pending)), t, Locked(c, NatUnlock))
    case _ => Goto(Put(s, c, x.(lock := Free)), t, Ready)
  }

  predicate Establishing(stage: Stage) {
    || stage.EstFw? || stage.EstBk? || stage.EstUndo? || stage.EstFlag? || stage.EstDec?
    || stage.EstEnqueue? || stage.EstUnlock?
  }

  function LockedStep(s: State, t: nat, c: nat, stage: Stage): State {
    if c !in s.conns then Fail(s)
    else if Establishing(stage) then EstablishStep(s, t, c, s.conns[c], stage)
    else SetNatStep(s, t, c, s.conns[c], stage, NewBackKey(s.conns[c]))
  }

  // ----- the G/C worker

  /** npf_conndb_update: the new connections join the main list. */
  function Migrated(s: State): State {
    s.(conns := map c | c in s.conns :: if s.conns[c].place.New? then s.conns[c].(place := Main) else s.conns[c])
  }

  /** npf_conn_remove with the lock held. */
  function SweepStep(s: State, c: nat, x: Conn, stage: SweepStage): State {
    match stage
    case SwCheck => s.(worker := Sweep(c, if x.removed then SwFlag else SwFw))
    case SwFw => Remove(s, c, x, true).(worker := Sweep(c, SwBk))
    case SwBk => Remove(s, c, x, false).(worker := Sweep(c, SwFlag))
    case SwFlag => Put(s, c, MarkRemoved(x)).(worker := Sweep(c, SwUnlock))
    case SwUnlock => Put(s, c, x.(lock := Free)).(worker := Scan)
  }

  /** The worker's choices: a connection found expired (or to destroy), and whether to go on. */
  datatype Choice = Choice(cid: nat, more: bool)

  function DestroyOne(s: State, c: nat): State {
    if c !in s.conns || !s.conns[c].place.Gc? || s.conns[c].ref != 0 then s
    else if !s.conns[c].lock.Free? then Fail(s)
    else s.(conns := s.conns - {c})
  }

  function WorkerStep(s: State, w: Choice): State {
    match s.worker
    case Idle => Migrated(s).(worker := Scan)
    case Scan =>
      if !w.more then s.(worker := Wait, waiting := set t | t in s.pcs && InEpoch(s.pcs[t]))
      else if w.cid in s.conns && s.conns[w.cid].place.Main?
      then Put(s, w.cid, s.conns[w.cid].(place := Gc)).(worker := WantLock(w.cid))
      else s
    case WantLock(c) =>
      if c !in s.conns then Fail(s)
      else if s.conns[c].lock.Free? then Put(s, c, s.conns[c].(lock := Worker)).(worker := Sweep(c, SwCheck))
      else s
    case Sweep(c, stage) => if c !in s.conns then Fail(s) else SweepStep(s, c, s.conns[c], stage)
    case Wait => if s.waiting == {} then s.(worker := Destroy) else s
    case Destroy => if w.more then DestroyOne(s, w.cid) else s.(worker := Idle)
  }

  // ----- steps

  /** A packet thread moves, the worker moves, or somebody marks a connection as expired. */
  datatype Action =
    | Thread(t: nat, request: Request)
    | Collector(choice: Choice)
    | Expire(target: nat)

  function Next(s: State, a: Action): State {
    match a
    case Thread(t, r) =>
      (match At(s, t)
       case Ready => Begin(s, t, r)
       case Locked(c, stage) => LockedStep(s, t, c, stage)
       case _ => LookupStep(s, t))
    case Collector(w) => WorkerStep(s, w)
    case Expire(c) => if c in s.conns then Put(s, c, s.conns[c].(expire := true)) else s
  }
}
