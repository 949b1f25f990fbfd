/**
 * The lock-free operations of the port map (src/kern/npf_portmap.c) as a step system: any number of
 * threads, one atomic load, compare-and-swap or allocation at a time.
 */
module PortSteps {
  import opened PortWords
  import opened PortBlocks

  const L0_WORDS := 64

  /** A level-0 word: five packed values, or the tagged address of a level-1 block. */
  datatype Word = Packed(x: bv64) | Level1(block: nat)

  datatype Op = Set | Clr

  datatype Answer = Yes | No | NoMemory

  datatype Pc =
    | Idle
    | Start(op: Op, port: bv64)
    | Cas0(op: Op, port: bv64, old0: bv64, new0: bv64)
    | Alloc(port: bv64, full: bv64)
    | Publish(port: bv64, full: bv64, mine: nat)
    | Load1(op: Op, port: bv64, block: nat)
    | Cas1(op: Op, port: bv64, block: nat, old1: bv64, new1: bv64)
    | Done(op: Op, port: bv64, answer: Answer)

  datatype State = State(words: seq<Word>, blocks: map<nat, Block>, pcs: map<nat, Pc>)

  /** What a scheduled thread is given: the arguments of a new call, or an address for an allocation. */
  datatype Input = Input(op: Op, port: bv64, address: nat)

  function ChunkOf(port: bv64): nat { Index(port >> 10) }

  function LowBits(port: bv64): bv64 { port & 1023 }

  /** The value packed for a port: zero stands for an empty slot. */
  function KeyOf(port: bv64): bv64 { LowBits(port) + 1 }

  predicate PortOk(port: bv64) { port < 65536 }

  predicate Packable(v: bv64) { 0 < v <= 1024 }

  lemma IsSetKey(x: bv64, port: bv64)
    requires LowBits(port) < 1024
    ensures IsSet(x, LowBits(port)) <==> Holds(x, KeyOf(port))
  {
    hide IsSet, Holds, LowBits;
    IsSetExact(x, LowBits(port));
  }

  lemma PortParts(port: bv64)
    requires PortOk(port)
    ensures ChunkOf(port) < L0_WORDS && LowBits(port) < 1024 && Offset(LowBits(port)) < L1_WORDS
    ensures Packable(KeyOf(port))
  {
  }

  lemma SameParts(p: bv64, q: bv64)
    ensures p >> 10 == q >> 10 && LowBits(p) == LowBits(q) <==> p == q
  {
  }

  lemma SamePort(p: bv64, q: bv64)
    ensures ChunkOf(p) == ChunkOf(q) && LowBits(p) == LowBits(q) <==> p == q
  {
    hide Index, LowBits;
    IndexInjective(p >> 10, q >> 10);
    SameParts(p, q);
  }

  /** Whether the map holds a port, whatever its representation. */
  predicate Busy(s: State, p: bv64)
    requires PortOk(p)
  {
    && ChunkOf(p) < |s.words|
    && match s.words[ChunkOf(p)]
       case Packed(x) => Holds(x, KeyOf(p))
       case Level1(b) => b in s.blocks && InBlock(s.blocks[b], LowBits(p))
  }

  function At(s: State, t: nat): Pc {
    if t in s.pcs then s.pcs[t] else Idle
  }

  function Goto(s: State, t: nat, pc: Pc): State {
    s.(pcs := s.pcs[t := pc])
  }

  /** The first load and the decision on it, for bitmap_set and bitmap_clr. */
  function AfterLoad(w: Word, op: Op, port: bv64): Pc {
    if w.Level1? then Load1(op, port, w.block)
    else if op.Set? then
      if IsSet(w.x, LowBits(port)) then Done(op, port, No)
      else if Cax(w.x, 0, KeyOf(port)) != 0 then Cas0(op, port, w.x, Cax(w.x, 0, KeyOf(port)))
      else Alloc(port, w.x)
    else
      if !IsSet(w.x, LowBits(port)) then Done(op, port, No)
      else Cas0(op, port, w.x, Cax(w.x, KeyOf(port), KeyOf(port)))
  }

  /** The load of a level-1 word and the decision on it. */
  function AfterLoad1(b: Block, op: Op, port: bv64, id: nat): Pc
    requires Offset(LowBits(port)) < |b|
  {
    var old1 := b[Offset(LowBits(port))];
    if op.Set? then
      if Bit(old1, LowBits(port)) then Done(op, port, No)
      else Cas1(op, port, id, old1, Either(old1, Mask(LowBits(port))))
    else
      if !Bit(old1, LowBits(port)) then Done(op, port, No)
      else Cas1(op, port, id, old1, Without(old1, Mask(LowBits(port))))
  }

  function CasWord(s: State, t: nat, op: Op, port: bv64, old0: bv64, new0: bv64): State
    requires ChunkOf(port) < |s.words|
  {
    if s.words[ChunkOf(port)] == Packed(old0)
    then Goto(s.(words := s.words[ChunkOf(port) := Packed(new0)]), t, Done(op, port, Yes))
    else Goto(s, t, Start(op, port))
  }

  function Allocate(s: State, t: nat, port: bv64, full: bv64, address: nat): State
    requires WordOk(full)
  {
    if address in s.blocks then Goto(s, t, Done(Set, port, NoMemory))
    else Goto(s.(blocks := s.blocks[address := PromotedFrom(full)]), t, Publish(port, full, address))
  }

  function CasBlock(s: State, t: nat, port: bv64, full: bv64, b: nat): State
    requires ChunkOf(port) < |s.words|
  {
    if s.words[ChunkOf(port)] == Packed(full)
    then Goto(s.(words := s.words[ChunkOf(port) := Level1(b)]), t, Load1(Set, port, b))
    else Goto(s.(blocks := s.blocks - {b}), t, Start(Set, port))
  }

  function CasBit(s: State, t: nat, op: Op, port: bv64, b: nat, old1: bv64, new1: bv64): State
    requires b in s.blocks && Offset(LowBits(port)) < |s.blocks[b]|
  {
    if s.blocks[b][Offset(LowBits(port))] == old1
    then Goto(s.(blocks := s.blocks[b := s.blocks[b][Offset(LowBits(port)) := new1]]), t, Done(op, port, Yes))
    else Goto(s, t, Start(op, port))
  }

  /** The facts that make the step of a thread defined. */
  predicate Ready(s: State, pc: Pc) {
    match pc
    case Start(_, port) => ChunkOf(port) < |s.words|
    case Cas0(_, port, _, _) => ChunkOf(port) < |s.words|
    case Alloc(_, full) => WordOk(full)
    case Publish(port, _, _) => ChunkOf(port) < |s.words|
    case Load1(_, port, b) => b in s.blocks && Offset(LowBits(port)) < |s.blocks[b]|
    case Cas1(_, port, b, _, _) => b in s.blocks && Offset(LowBits(port)) < |s.blocks[b]|
    case Idle => true
    case Done(_, _, _) => true
  }

  lemma AlwaysReady(s: State, t: nat)
    requires Inv(s)
    ensures Ready(s, At(s, t))
  {
  }

  /** One atomic step of thread t. */
  function Next(s: State, t: nat, i: Input): State
    requires Ready(s, At(s, t))
  {
    match At(s, t)
    case Idle => if PortOk(i.port) then Goto(s, t, Start(i.op, i.port)) else s
    case Start(op, port) => Goto(s, t, AfterLoad(s.words[ChunkOf(port)], op, port))
    case Cas0(op, port, old0, new0) => CasWord(s, t, op, port, old0, new0)
    case Alloc(port, full) => Allocate(s, t, port, full, i.address)
    case Publish(port, full, b) => CasBlock(s, t, port, full, b)
    case Load1(op, port, b) => Goto(s, t, AfterLoad1(s.blocks[b], op, port, b))
    case Cas1(op, port, b, old1, new1) => CasBit(s, t, op, port, b, old1, new1)
    case Done(op, port, answer) => Goto(s, t, Idle)
  }

  // ----- the invariant

  predicate WordsOk(s: State) {
    && |s.words| == L0_WORDS
    && (forall i :: 0 <= i < |s.words| && s.words[i].Packed? ==> WordOk(s.words[i].x))
    && (forall i :: 0 <= i < |s.words| && s.words[i].Level1? ==> s.words[i].block in s.blocks)
    && (forall i, j :: 0 <= i < j < |s.words| && s.words[i].Level1? && s.words[j].Level1?
          ==> s.words[i].block != s.words[j].block)
  }

  predicate BlocksOk(s: State) {
    forall b :: b in s.blocks ==> BlockOk(s.blocks[b])
  }

  predicate Published(s: State, b: nat) {
    exists i :: 0 <= i < |s.words| && s.words[i] == Level1(b)
  }

  /** What a thread remembers about the words it has read. */
  predicate LocalOk(pc: Pc) {
    match pc
    case Idle => true
    case Start(op, port) => PortOk(port)
    case Cas0(op, port, old0, new0) =>
      && PortOk(port) && WordOk(old0)
      && (op.Set? ==> !Holds(old0, KeyOf(port)) && Holds(old0, 0) && new0 == Cax(old0, 0, KeyOf(port)))
      && (op.Clr? ==> Holds(old0, KeyOf(port)) && new0 == Cax(old0, KeyOf(port), KeyOf(port)))
    case Alloc(port, full) => PortOk(port) && WordOk(full)
    case Publish(port, full, b) => PortOk(port) && WordOk(full)
    case Load1(op, port, b) => PortOk(port)
    case Cas1(op, port, b, old1, new1) =>
      && PortOk(port)
      && (op.Set? ==> !Bit(old1, LowBits(port)) && new1 == Either(old1, Mask(LowBits(port))))
      && (op.Clr? ==> Bit(old1, LowBits(port)) && new1 == Without(old1, Mask(LowBits(port))))
    case Done(op, port, answer) => PortOk(port) && (answer.NoMemory? ==> op.Set?)
  }

  /** How the blocks a thread refers to stand. */
  predicate SharedOk(s: State, pc: Pc)
    requires LocalOk(pc)
  {
    && (pc.Publish? ==> pc.mine in s.blocks && s.blocks[pc.mine] == PromotedFrom(pc.full) && !Published(s, pc.mine))
    && (pc.Load1? || pc.Cas1? ==> OnLevel1(s, pc.port, pc.block))
  }

  predicate ThreadOk(s: State, t: nat) {
    LocalOk(At(s, t)) && SharedOk(s, At(s, t))
  }

  predicate OnLevel1(s: State, port: bv64, b: nat) {
    && ChunkOf(port) < |s.words| && s.words[ChunkOf(port)] == Level1(b)
    && b in s.blocks && BlockOk(s.blocks[b])
  }

  /** Blocks not yet published belong to one thread each. */
  predicate PrivateOk(s: State) {
    forall t, u :: t in s.pcs && u in s.pcs && t != u && s.pcs[t].Publish? && s.pcs[u].Publish?
      ==> s.pcs[t].mine != s.pcs[u].mine
  }

  predicate Inv(s: State) {
    && WordsOk(s) && BlocksOk(s) && PrivateOk(s)
    && (forall t :: t in s.pcs ==> ThreadOk(s, t))
  }

  // ----- the atomic set that the port map refines

  datatype Phase = Out | Asked(op: Op, port: bv64) | Answered(op: Op, port: bv64, answer: Answer)

  /** What a caller sees of a thread. */
  function PhaseOf(pc: Pc): Phase {
    match pc
    case Idle => Out
    case Start(op, port) => Asked(op, port)
    case Cas0(op, port, _, _) => Asked(op, port)
    case Alloc(port, _) => Asked(Set, port)
    case Publish(port, _, _) => Asked(Set, port)
    case Load1(op, port, _) => Asked(op, port)
    case Cas1(op, port, _, _, _) => Asked(op, port)
    case Done(op, port, answer) => Answered(op, port, answer)
  }

  ghost predicate SamePorts(s: State, s': State) {
    forall p: bv64 :: PortOk(p) ==> (Busy(s', p) <==> Busy(s, p))
  }

  ghost predicate SameButOne(s: State, s': State, q: bv64) {
    forall p: bv64 :: PortOk(p) && p != q ==> (Busy(s', p) <==> Busy(s, p))
  }

  /** An operation on the set takes effect at once and answers as its effect says. */
  ghost predicate Effect(s: State, s': State, op: Op, port: bv64, answer: Answer) {
    && PortOk(port)
    && match answer
       case Yes => SameButOne(s, s', port) && Busy(s, port) == op.Clr? && Busy(s', port) == op.Set?
       case No => SamePorts(s, s') && Busy(s, port) == op.Set?
       case NoMemory => SamePorts(s, s') && op.Set?
  }

  /** A step of an atomic set of ports: a call, a return, one whole operation, or nothing. */
  ghost predicate AtomicStep(s: State, s': State, t: nat) {
    var before, after := PhaseOf(At(s, t)), PhaseOf(At(s', t));
    && (forall u :: u != t ==> At(s', u) == At(s, u))
    && match before
       case Out => SamePorts(s, s') && (after.Out? || after.Asked?)
       case Asked(op, port) =>
         || (after == before && SamePorts(s, s'))
         || (after.Answered? && after.op == op && after.port == port && Effect(s, s', op, port, after.answer))
       case Answered(_, _, _) => SamePorts(s, s') && after.Out?
  }

  // ----- each step

  /** Other threads' knowledge survives a step that leaves published blocks in place. */
  lemma OthersKeep(s: State, s': State, t: nat, pc: Pc, u: nat)
    requires Inv(s) && u in s.pcs && u != t && s'.pcs == s.pcs[t := pc]
    requires |s'.words| == |s.words|
    requires forall i :: 0 <= i < |s.words| && s.words[i].Level1? ==> s'.words[i] == s.words[i]
    requires forall b :: b in s.blocks && Published(s, b) ==> b in s'.blocks && BlockOk(s'.blocks[b])
    requires s.pcs[u].Publish? ==> var b := s.pcs[u].mine;
      !Published(s', b) && b in s'.blocks && s'.blocks[b] == s.blocks[b]
    ensures ThreadOk(s', u)
  {
    hide ChunkOf, LocalOk, PromotedFrom, PrivateOk, BlockOk, BlocksOk;
    assert ThreadOk(s, u);
    var pc := s.pcs[u];
    if pc.Load1? || pc.Cas1? {
      assert s.words[ChunkOf(pc.port)] == Level1(pc.block);
    }
  }

  /** A step that only moves the thread. */
  lemma OnlyMoves(s: State, t: nat, pc: Pc)
    requires Inv(s) && ThreadOk(Goto(s, t, pc), t) && !pc.Publish?
    ensures Inv(Goto(s, t, pc)) && SamePorts(s, Goto(s, t, pc))
  {
    hide ChunkOf, LowBits, Offset, WordOk, Holds, Cax, Bit;
    hide Either, Without, Mask, PromotedFrom, BlockOk, InBlock, ThreadOk;
    var s' := Goto(s, t, pc);
    forall u | u in s'.pcs ensures ThreadOk(s', u) {
      if u != t {
        if s.pcs[u].Publish? { PublishFacts(s, u); }
        OthersKeep(s, s', t, pc, u);
      }
    }
  }

  lemma PublishFacts(s: State, u: nat)
    requires Inv(s) && u in s.pcs && s.pcs[u].Publish?
    ensures var b := s.pcs[u].mine;
      !Published(s, b) && b in s.blocks && WordOk(s.pcs[u].full) && s.blocks[b] == PromotedFrom(s.pcs[u].full)
  {
  }

  lemma AfterLoadOk(w: Word, op: Op, port: bv64)
    requires PortOk(port) && (w.Packed? ==> WordOk(w.x))
    ensures var pc := AfterLoad(w, op, port);
      && LocalOk(pc) && !pc.Publish? && !pc.Cas1? && !pc.Idle?
      && (pc.Load1? ==> w == Level1(pc.block) && pc.port == port)
      && (pc.Done? ==> w.Packed? && pc.answer == No && Holds(w.x, KeyOf(port)) == op.Set?)
      && (PhaseOf(pc) == Asked(op, port) || pc == Done(op, port, No))
  {
    hide LowBits, WordOk, Holds, Cax, IsSet, KeyOf, PortOk;
    PortParts(port);
    if w.Packed? {
      IsSetKey(w.x, port);
      if !Holds(w.x, KeyOf(port)) {
        CaxAdds(w.x, KeyOf(port));
      }
    }
  }

  lemma StartStep(s: State, t: nat, pc: Pc)
    requires Inv(s) && At(s, t) == pc && pc.Start? && Ready(s, pc)
    ensures var s' := Goto(s, t, AfterLoad(s.words[ChunkOf(pc.port)], pc.op, pc.port));
      Inv(s') && AtomicStep(s, s', t)
  {
    hide ChunkOf, LowBits, KeyOf, PortOk, WordOk, Holds;
    hide AfterLoad, InBlock, BlockOk, LocalOk, PrivateOk, SamePorts, Published;
    ThreadKnows(s, t);
    StartPort(pc);
    var w := s.words[ChunkOf(pc.port)];
    AfterLoadOk(w, pc.op, pc.port);
    if w.Level1? {
      assert BlockOk(s.blocks[w.block]);
    }
    OnlyMoves(s, t, AfterLoad(w, pc.op, pc.port));
  }

  lemma StartPort(pc: Pc)
    requires LocalOk(pc) && !pc.Idle?
    ensures PortOk(pc.port)
  {
  }

  lemma AfterLoad1Ok(b: Block, op: Op, port: bv64, id: nat)
    requires PortOk(port) && Offset(LowBits(port)) < |b|
    ensures var pc := AfterLoad1(b, op, port, id);
      && LocalOk(pc) && (pc.Cas1? || pc.Done?)
      && (pc.Cas1? ==> pc.block == id && pc.port == port)
      && (pc.Done? ==> InBlock(b, LowBits(port)) == op.Set?)
      && (PhaseOf(pc) == Asked(op, port) || pc == Done(op, port, No))
  {
    hide LowBits, Bit, Offset, Either, Without, Mask, PortOk;
  }

  lemma Load1Step(s: State, t: nat, pc: Pc)
    requires Inv(s) && At(s, t) == pc && pc.Load1? && Ready(s, pc)
    ensures var s' := Goto(s, t, AfterLoad1(s.blocks[pc.block], pc.op, pc.port, pc.block));
      Inv(s') && AtomicStep(s, s', t)
  {
    hide ChunkOf, LowBits, KeyOf, PortOk, Offset, WordOk, Holds;
    hide AfterLoad1, InBlock, BlockOk, LocalOk, PrivateOk, SamePorts, Published;
    ThreadKnows(s, t);
    StartPort(pc);
    AfterLoad1Ok(s.blocks[pc.block], pc.op, pc.port, pc.block);
    OnlyMoves(s, t, AfterLoad1(s.blocks[pc.block], pc.op, pc.port, pc.block));
  }

  /** What a successful swap of a packed word did to it. */
  lemma Cas0Word(op: Op, port: bv64, old0: bv64, new0: bv64)
    requires LocalOk(Cas0(op, port, old0, new0))
    ensures WordOk(new0) && SameBut(old0, new0, KeyOf(port))
    ensures Holds(old0, KeyOf(port)) == op.Clr? && Holds(new0, KeyOf(port)) == op.Set?
  {
    hide LowBits, WordOk, Holds, Cax, KeyOf, PortOk, SameBut;
    PortParts(port);
    if op.Set? {
      CaxAdds(old0, KeyOf(port));
    } else {
      CaxDrops(old0, KeyOf(port));
    }
  }

  lemma KeysDiffer(p: bv64, q: bv64)
    requires PortOk(p) && PortOk(q)
    ensures KeyOf(p) != 0
    ensures p != q && ChunkOf(p) == ChunkOf(q) ==> KeyOf(p) != KeyOf(q) && LowBits(p) != LowBits(q)
  {
    hide ChunkOf, LowBits;
    PortParts(p);
    PortParts(q);
    SamePort(p, q);
    if LowBits(p) != LowBits(q) {
      PlusOne(LowBits(p), LowBits(q));
    }
  }

  lemma PlusOne(c: bv64, d: bv64)
    requires c < 1024 && d < 1024 && c != d
    ensures c + 1 != d + 1
  {
  }

  /** Replacing one packed word changes what is busy for one port only. */
  lemma WordSwap(s: State, s': State, q: bv64, x: bv64, y: bv64)
    requires PortOk(q) && ChunkOf(q) < |s.words| && s.words[ChunkOf(q)] == Packed(x)
    requires s'.words == s.words[ChunkOf(q) := Packed(y)] && s'.blocks == s.blocks
    requires SameBut(x, y, KeyOf(q))
    ensures SameButOne(s, s', q)
  {
    hide LowBits, Holds, KeyOf, PortOk, InBlock, ChunkOf;
    forall p: bv64 | PortOk(p) && p != q ensures Busy(s', p) <==> Busy(s, p) {
      KeysDiffer(p, q);
    }
  }

  /** Levels only go up: published blocks stay, and what threads still own stays theirs. */
  ghost predicate Grows(s: State, s': State, t: nat) {
    && |s'.words| == |s.words|
    && (forall i :: 0 <= i < |s.words| && s.words[i].Level1? ==> s'.words[i] == s.words[i])
    && (forall b :: b in s.blocks && Published(s, b) ==> b in s'.blocks)
    && (forall u :: u in s.pcs && u != t && s.pcs[u].Publish? ==>
          var b := s.pcs[u].mine; !Published(s', b) && b in s.blocks && b in s'.blocks && s'.blocks[b] == s.blocks[b])
  }

  lemma InvAfter(s: State, s': State, t: nat, pc: Pc)
    requires Inv(s) && s'.pcs == s.pcs[t := pc] && Grows(s, s', t)
    requires WordsOk(s') && BlocksOk(s') && ThreadOk(s', t)
    requires forall u :: pc.Publish? && u in s.pcs && u != t && s.pcs[u].Publish? ==> s.pcs[u].mine != pc.mine
    ensures Inv(s')
  {
    hide ThreadOk, Published, WordsOk, BlockOk;
    forall u | u in s'.pcs && u != t ensures ThreadOk(s', u) {
      OthersKeep(s, s', t, pc, u);
    }
  }

  lemma PublishedOwned(s: State, s': State, u: nat)
    requires Inv(s) && u in s.pcs && s.pcs[u].Publish? && |s'.words| == |s.words|
    requires forall i :: 0 <= i < |s.words| && s'.words[i].Level1? ==> s.words[i] == s'.words[i]
    ensures !Published(s', s.pcs[u].mine) && s.pcs[u].mine in s.blocks
  {
  }

  lemma PackedSwapped(s: State, s': State, i: nat, y: bv64)
    requires WordsOk(s) && i < |s.words| && s.words[i].Packed? && WordOk(y)
    requires s'.words == s.words[i := Packed(y)] && s'.blocks == s.blocks
    ensures WordsOk(s')
  {
    hide WordOk;
  }

  lemma Cas0Succeeds(s: State, s': State, t: nat, pc: Pc)
    requires Inv(s) && At(s, t) == pc && pc.Cas0? && LocalOk(pc) && Ready(s, pc)
    requires s.words[ChunkOf(pc.port)] == Packed(pc.old0)
    requires s' == CasWord(s, t, pc.op, pc.port, pc.old0, pc.new0)
    requires WordOk(pc.new0)
    ensures Inv(s')
  {
    hide PortOk, WordOk, BlockOk, LocalOk, ChunkOf, Published, SharedOk, WordsOk, PrivateOk;
    StartPort(pc);
    LocalStart(pc.op, pc.port);
    PackedSwapped(s, s', ChunkOf(pc.port), pc.new0);
    forall u | u in s.pcs && u != t && s.pcs[u].Publish?
      ensures !Published(s', s.pcs[u].mine) && s.pcs[u].mine in s.blocks
    {
      PublishedOwned(s, s', u);
    }
    assert ThreadOk(s', t) by { DoneShared(s', pc.op, pc.port, Yes); }
    InvAfter(s, s', t, Done(pc.op, pc.port, Yes));
  }

  lemma DoneShared(s: State, op: Op, port: bv64, answer: Answer)
    requires LocalOk(Done(op, port, answer))
    ensures SharedOk(s, Done(op, port, answer))
  {
  }

  lemma Cas0Effect(s: State, s': State, t: nat, pc: Pc)
    requires Inv(s) && At(s, t) == pc && pc.Cas0? && LocalOk(pc) && Ready(s, pc)
    requires s.words[ChunkOf(pc.port)] == Packed(pc.old0)
    requires s' == CasWord(s, t, pc.op, pc.port, pc.old0, pc.new0)
    ensures Effect(s, s', pc.op, pc.port, Yes) && WordOk(pc.new0)
  {
    hide LowBits, KeyOf, PortOk, WordOk, Holds, InBlock, LocalOk, SameBut, ChunkOf, Inv, SameButOne;
    StartPort(pc);
    Cas0Word(pc.op, pc.port, pc.old0, pc.new0);
    WordSwap(s, s', pc.port, pc.old0, pc.new0);
  }

  lemma Cas0Step(s: State, t: nat, pc: Pc)
    requires Inv(s) && At(s, t) == pc && pc.Cas0? && Ready(s, pc)
    ensures var s' := CasWord(s, t, pc.op, pc.port, pc.old0, pc.new0); Inv(s') && AtomicStep(s, s', t)
  {
    hide Inv, PortOk, LocalOk, ChunkOf, Effect, SamePorts, SharedOk, WordOk;
    ThreadKnows(s, t);
    StartPort(pc);
    LocalStart(pc.op, pc.port);
    if s.words[ChunkOf(pc.port)] == Packed(pc.old0) {
      var s' := CasWord(s, t, pc.op, pc.port, pc.old0, pc.new0);
      Cas0Effect(s, s', t, pc);
      Cas0Succeeds(s, s', t, pc);
    } else {
      MovesToStart(s, t, pc.op, pc.port);
    }
  }

  lemma ThreadKnows(s: State, t: nat)
    requires Inv(s)
    ensures LocalOk(At(s, t)) && SharedOk(s, At(s, t))
  {
  }

  lemma IdleOk(s: State)
    ensures LocalOk(Idle) && SharedOk(s, Idle)
  {
  }

  lemma MovesToStart(s: State, t: nat, op: Op, port: bv64)
    requires Inv(s) && PortOk(port)
    ensures Inv(Goto(s, t, Start(op, port))) && SamePorts(s, Goto(s, t, Start(op, port)))
  {
    hide Inv, PortOk, SamePorts, Published, PromotedFrom, OnLevel1;
    OnlyMoves(s, t, Start(op, port));
  }

  lemma LocalStart(op: Op, port: bv64)
    requires PortOk(port)
    ensures LocalOk(Start(op, port)) && LocalOk(Done(op, port, Yes)) && LocalOk(Done(Set, port, NoMemory))
  {
  }

  lemma AllocStep(s: State, t: nat, pc: Pc, address: nat)
    requires Inv(s) && At(s, t) == pc && pc.Alloc? && Ready(s, pc)
    ensures var s' := Allocate(s, t, pc.port, pc.full, address); Inv(s') && AtomicStep(s, s', t)
  {
    hide Inv, PortOk, LocalOk, SamePorts, SharedOk, WordOk, PromotedFrom;
    ThreadKnows(s, t);
    StartPort(pc);
    LocalStart(Set, pc.port);
    if address in s.blocks {
      DoneShared(Goto(s, t, Done(Set, pc.port, NoMemory)), Set, pc.port, NoMemory);
      OnlyMoves(s, t, Done(Set, pc.port, NoMemory));
    } else {
      AllocSucceeds(s, t, pc, address);
    }
  }

  lemma AllocSucceeds(s: State, t: nat, pc: Pc, b: nat)
    requires Inv(s) && At(s, t) == pc && pc.Alloc? && b !in s.blocks && LocalOk(pc)
    ensures var s' := Allocate(s, t, pc.port, pc.full, b); Inv(s') && SamePorts(s, s')
  {
    hide PortOk, WordOk, BlockOk, ChunkOf, LowBits, KeyOf, Holds, InBlock, PromotedFrom, PrivateOk, LocalOk;
    AllocLocal(pc, b);
    var s' := Allocate(s, t, pc.port, pc.full, b);
    var pc' := Publish(pc.port, pc.full, b);
    assert BlockOk(PromotedFrom(pc.full)) by { PromotedSize(pc.full); }
    forall u | u in s.pcs && u != t && s.pcs[u].Publish?
      ensures !Published(s', s.pcs[u].mine) && s.pcs[u].mine in s.blocks
    {
      PublishedOwned(s, s', u);
    }
    InvAfter(s, s', t, pc');
  }

  lemma PromotedSize(x: bv64)
    requires WordOk(x)
    ensures BlockOk(PromotedFrom(x))
  {
  }

  lemma AllocLocal(pc: Pc, b: nat)
    requires LocalOk(pc) && pc.Alloc?
    ensures WordOk(pc.full) && LocalOk(Publish(pc.port, pc.full, b))
  {
  }

  lemma PublishStep(s: State, t: nat, pc: Pc)
    requires Inv(s) && At(s, t) == pc && pc.Publish? && Ready(s, pc)
    ensures var s' := CasBlock(s, t, pc.port, pc.full, pc.mine); Inv(s') && AtomicStep(s, s', t)
  {
    hide Inv, PortOk, LocalOk, SamePorts, SharedOk, WordOk, PromotedFrom, ChunkOf;
    ThreadKnows(s, t);
    StartPort(pc);
    if s.words[ChunkOf(pc.port)] == Packed(pc.full) {
      PublishSucceeds(s, t, pc);
      PublishKeepsPorts(s, t, pc);
    } else {
      PublishFails(s, t, pc);
    }
  }

  lemma LocalLoad1(op: Op, port: bv64, b: nat)
    requires PortOk(port)
    ensures LocalOk(Load1(op, port, b))
  {
  }

  lemma PublishSucceeds(s: State, t: nat, pc: Pc)
    requires Inv(s) && At(s, t) == pc && pc.Publish? && Ready(s, pc) && PortOk(pc.port)
    requires s.words[ChunkOf(pc.port)] == Packed(pc.full)
    ensures Inv(CasBlock(s, t, pc.port, pc.full, pc.mine))
  {
    hide PortOk, WordOk, BlockOk, ChunkOf, PromotedFrom, LocalOk, WordsOk, SharedOk;
    var s' := CasBlock(s, t, pc.port, pc.full, pc.mine);
    PublishFacts(s, t);
    LocalLoad1(Set, pc.port, pc.mine);
    Level1Swapped(s, s', ChunkOf(pc.port), pc.mine);
    forall u | u in s.pcs && u != t && s.pcs[u].Publish?
      ensures !Published(s', s.pcs[u].mine) && s.pcs[u].mine in s.blocks
    {
      PublishFacts(s, u);
    }
    assert SharedOk(s', Load1(Set, pc.port, pc.mine)) by { Load1Shared(s', pc.port, pc.mine); }
    InvAfter(s, s', t, Load1(Set, pc.port, pc.mine));
  }

  lemma Load1Shared(s: State, port: bv64, b: nat)
    requires LocalOk(Load1(Set, port, b)) && OnLevel1(s, port, b)
    ensures SharedOk(s, Load1(Set, port, b))
  {
  }

  lemma Level1Swapped(s: State, s': State, i: nat, b: nat)
    requires WordsOk(s) && i < |s.words| && s.words[i].Packed? && b in s.blocks && !Published(s, b)
    requires s'.words == s.words[i := Level1(b)] && s'.blocks == s.blocks
    ensures WordsOk(s')
  {
  }

  /** Promotion to level 1 leaves the set of ports unchanged. */
  lemma PublishKeepsPorts(s: State, t: nat, pc: Pc)
    requires Inv(s) && At(s, t) == pc && pc.Publish? && Ready(s, pc) && PortOk(pc.port)
    requires s.words[ChunkOf(pc.port)] == Packed(pc.full)
    ensures SamePorts(s, CasBlock(s, t, pc.port, pc.full, pc.mine))
  {
    hide PortOk, WordOk, BlockOk, ChunkOf, PromotedFrom, LocalOk, WordsOk, Inv, Holds, InBlock, LowBits, KeyOf;
    PublishFacts(s, t);
    forall p: bv64 | PortOk(p)
      ensures Busy(CasBlock(s, t, pc.port, pc.full, pc.mine), p) <==> Busy(s, p)
    {
      PromotedPort(pc.full, p);
    }
  }

  lemma PromotedPort(x: bv64, p: bv64)
    requires WordOk(x) && PortOk(p)
    ensures InBlock(PromotedFrom(x), LowBits(p)) <==> Holds(x, KeyOf(p))
  {
    hide WordOk, PromotedFrom, InBlock, Holds, LowBits;
    PortParts(p);
    PromotionKeeps(x, LowBits(p));
  }

  lemma PublishFails(s: State, t: nat, pc: Pc)
    requires Inv(s) && At(s, t) == pc && pc.Publish? && Ready(s, pc) && PortOk(pc.port)
    requires s.words[ChunkOf(pc.port)] != Packed(pc.full)
    ensures var s' := CasBlock(s, t, pc.port, pc.full, pc.mine); Inv(s') && SamePorts(s, s')
  {
    hide PortOk, WordOk, BlockOk, ChunkOf, PromotedFrom, LocalOk, Holds, InBlock, LowBits, KeyOf;
    var s' := CasBlock(s, t, pc.port, pc.full, pc.mine);
    PublishFacts(s, t);
    LocalStart(Set, pc.port);
    forall u | u in s.pcs && u != t && s.pcs[u].Publish?
      ensures !Published(s', s.pcs[u].mine) && s.pcs[u].mine in s'.blocks
    {
      PublishFacts(s, u);
    }
    InvAfter(s, s', t, Start(Set, pc.port));
  }

  lemma Cas1Step(s: State, t: nat, pc: Pc)
    requires Inv(s) && At(s, t) == pc && pc.Cas1? && Ready(s, pc)
    ensures var s' := CasBit(s, t, pc.op, pc.port, pc.block, pc.old1, pc.new1); Inv(s') && AtomicStep(s, s', t)
  {
    hide Inv, PortOk, LocalOk, SamePorts, SharedOk, Effect, LowBits, Offset;
    ThreadKnows(s, t);
    StartPort(pc);
    if s.blocks[pc.block][Offset(LowBits(pc.port))] == pc.old1 {
      Cas1Succeeds(s, t, pc);
      Cas1Effect(s, t, pc);
    } else {
      MovesToStart(s, t, pc.op, pc.port);
    }
  }

  lemma Cas1Succeeds(s: State, t: nat, pc: Pc)
    requires Inv(s) && At(s, t) == pc && pc.Cas1? && Ready(s, pc) && PortOk(pc.port)
    requires s.blocks[pc.block][Offset(LowBits(pc.port))] == pc.old1
    ensures Inv(CasBit(s, t, pc.op, pc.port, pc.block, pc.old1, pc.new1))
  {
    hide PortOk, WordOk, ChunkOf, PromotedFrom, LocalOk, LowBits, Offset, SharedOk, PrivateOk, WordsOk;
    var s' := CasBit(s, t, pc.op, pc.port, pc.block, pc.old1, pc.new1);
    BlocksKept(s, s');
    ThreadKnows(s, t);
    assert OnLevel1(s, pc.port, pc.block) by { Cas1OnLevel1(s, pc); }
    LocalStart(pc.op, pc.port);
    DoneShared(s', pc.op, pc.port, Yes);
    assert Published(s, pc.block);
    forall u | u in s.pcs && u != t && s.pcs[u].Publish?
      ensures !Published(s', s.pcs[u].mine) && s.pcs[u].mine in s.blocks && s.pcs[u].mine != pc.block
    {
      PublishFacts(s, u);
      PublishedOwned(s, s', u);
    }
    InvAfter(s, s', t, Done(pc.op, pc.port, Yes));
  }

  lemma BlocksKept(s: State, s': State)
    requires WordsOk(s) && s'.words == s.words && forall b :: b in s.blocks ==> b in s'.blocks
    ensures WordsOk(s')
  {
  }

  lemma Cas1OnLevel1(s: State, pc: Pc)
    requires pc.Cas1? && LocalOk(pc) && SharedOk(s, pc)
    ensures OnLevel1(s, pc.port, pc.block)
  {
  }

  lemma Cas1Effect(s: State, t: nat, pc: Pc)
    requires Inv(s) && At(s, t) == pc && pc.Cas1? && Ready(s, pc) && PortOk(pc.port)
    requires s.blocks[pc.block][Offset(LowBits(pc.port))] == pc.old1
    ensures Effect(s, CasBit(s, t, pc.op, pc.port, pc.block, pc.old1, pc.new1), pc.op, pc.port, Yes)
  {
    hide PortOk, WordOk, ChunkOf, LocalOk, LowBits, Offset, Holds, InBlock, KeyOf, Inv, WithBit, WithoutBit;
    var s' := CasBit(s, t, pc.op, pc.port, pc.block, pc.old1, pc.new1);
    ThreadKnows(s, t);
    assert WordsOk(s) by { InvParts(s); }
    Cas1Bit(pc, s.blocks[pc.block]);
    forall p: bv64 | PortOk(p) && p != pc.port ensures Busy(s', p) <==> Busy(s, p) {
      KeysDiffer(p, pc.port);
      PortParts(p);
      BlockElsewhere(pc, s.blocks[pc.block], p);
    }
  }

  lemma InvParts(s: State)
    requires Inv(s)
    ensures WordsOk(s)
  {
  }

  function Rewritten(pc: Pc, b: Block): Block
    requires pc.Cas1? && Offset(LowBits(pc.port)) < |b|
  {
    b[Offset(LowBits(pc.port)) := pc.new1]
  }

  lemma Cas1Bit(pc: Pc, b: Block)
    requires pc.Cas1? && LocalOk(pc) && Offset(LowBits(pc.port)) < |b| && b[Offset(LowBits(pc.port))] == pc.old1
    requires |b| == L1_WORDS
    ensures InBlock(b, LowBits(pc.port)) == pc.op.Clr?
    ensures InBlock(Rewritten(pc, b), LowBits(pc.port)) == pc.op.Set?
  {
    BlockElsewhere(pc, b, pc.port);
  }

  lemma BlockElsewhere(pc: Pc, b: Block, p: bv64)
    requires pc.Cas1? && LocalOk(pc) && Offset(LowBits(pc.port)) < |b| && b[Offset(LowBits(pc.port))] == pc.old1
    requires PortOk(p) && |b| == L1_WORDS
    ensures LowBits(p) != LowBits(pc.port) ==> (InBlock(Rewritten(pc, b), LowBits(p)) <==> InBlock(b, LowBits(p)))
    ensures LowBits(p) == LowBits(pc.port) ==> InBlock(Rewritten(pc, b), LowBits(p)) == pc.op.Set?
  {
    hide LowBits, Bit, Either, Without, Mask, Offset, PortOk;
    PortParts(p);
    if pc.op.Set? {
      assert Rewritten(pc, b) == WithBit(b, LowBits(pc.port));
      WithBitHolds(b, LowBits(pc.port), LowBits(p));
    } else {
      assert Rewritten(pc, b) == WithoutBit(b, LowBits(pc.port));
      WithoutBitHolds(b, LowBits(pc.port), LowBits(p));
    }
  }

  // ----- the refinement

  /** Every step of the lock-free map keeps the invariant and is a step of an atomic set of ports. */
  lemma StepRefines(s: State, t: nat, i: Input)
    requires Inv(s)
    ensures Ready(s, At(s, t))
    ensures Inv(Next(s, t, i)) && AtomicStep(s, Next(s, t, i), t)
  {
    hide Inv, AtomicStep, AfterLoad, AfterLoad1, CasWord, Allocate, CasBlock;
    hide CasBit, PortOk, WordOk, ChunkOf, Offset, LowBits, Ready;
    AlwaysReady(s, t);
    var pc := At(s, t);
    if pc.Idle? || pc.Done? {
      OutStep(s, t, i);
    } else if pc.Start? {
      StartStep(s, t, pc);
    } else if pc.Cas0? {
      Cas0Step(s, t, pc);
    } else if pc.Alloc? {
      AllocStep(s, t, pc, i.address);
    } else if pc.Publish? {
      PublishStep(s, t, pc);
    } else if pc.Load1? {
      Load1Step(s, t, pc);
    } else {
      Cas1Step(s, t, pc);
    }
  }

  lemma OutStep(s: State, t: nat, i: Input)
    requires Inv(s) && Ready(s, At(s, t)) && (At(s, t).Idle? || At(s, t).Done?)
    ensures Inv(Next(s, t, i)) && AtomicStep(s, Next(s, t, i), t)
  {
    hide Inv, PortOk, SamePorts, LocalOk, SharedOk;
    if At(s, t).Done? {
      var s' := Goto(s, t, Idle);
      IdleOk(s');
      OnlyMoves(s, t, Idle);
    } else if PortOk(i.port) {
      MovesToStart(s, t, i.op, i.port);
    } else {
      Nothing(s);
    }
  }

  lemma Nothing(s: State)
    ensures SamePorts(s, s)
  {
  }

  // ----- runs

  /** A fresh bitmap and no call in progress. */
  predicate Initial(s: State) {
    && |s.words| == L0_WORDS && (forall i :: 0 <= i < |s.words| ==> s.words[i] == Packed(0))
    && s.blocks == map[] && s.pcs == map[]
  }

  datatype Turn = Turn(thread: nat, input: Input)

  /** Any interleaving of the threads' steps from a fresh bitmap. */
  ghost predicate Run(run: seq<State>, turns: seq<Turn>) {
    && |run| == |turns| + 1 && Initial(run[0])
    && (forall k :: 0 <= k < |turns| ==>
          Ready(run[k], At(run[k], turns[k].thread)) && run[k + 1] == Next(run[k], turns[k].thread, turns[k].input))
  }

  /** At turn k some call on a port takes effect and succeeds. */
  predicate Succeeds(run: seq<State>, turns: seq<Turn>, k: int, op: Op, port: bv64)
    requires 0 <= k < |turns| && |run| == |turns| + 1
  {
    && PhaseOf(At(run[k], turns[k].thread)) == Asked(op, port)
    && PhaseOf(At(run[k + 1], turns[k].thread)) == Answered(op, port, Yes)
  }

  lemma InitialHolds(s: State)
    requires Initial(s)
    ensures Inv(s) && forall p: bv64 :: PortOk(p) ==> !Busy(s, p)
  {
  }

  lemma {:induction false} RunInvariant(run: seq<State>, turns: seq<Turn>, k: nat)
    requires Run(run, turns) && k < |run|
    ensures Inv(run[k])
  {
    hide Inv, Initial, Next, Ready;
    if k == 0 {
      InitialHolds(run[0]);
    } else {
      RunInvariant(run, turns, k - 1);
      StepRefines(run[k - 1], turns[k - 1].thread, turns[k - 1].input);
    }
  }

  /** One turn changes a port only by a call on that port that answers yes. */
  lemma TurnChanges(run: seq<State>, turns: seq<Turn>, k: nat, q: bv64)
    requires Run(run, turns) && k < |turns| && PortOk(q)
    ensures Succeeds(run, turns, k, Set, q) ==> !Busy(run[k], q) && Busy(run[k + 1], q)
    ensures Succeeds(run, turns, k, Clr, q) ==> Busy(run[k], q) && !Busy(run[k + 1], q)
    ensures Busy(run[k + 1], q) != Busy(run[k], q) ==> Succeeds(run, turns, k, if Busy(run[k], q) then Clr else Set, q)
  {
    hide Inv, Initial, Next, Ready, Busy, PortOk;
    RunInvariant(run, turns, k);
    StepRefines(run[k], turns[k].thread, turns[k].input);
  }

  /** A port is held exactly when its last successful call was a set. */
  lemma {:induction false} HeldExactly(run: seq<State>, turns: seq<Turn>, n: nat, q: bv64)
    requires Run(run, turns) && n < |run| && PortOk(q)
    ensures Busy(run[n], q) <==>
      exists k :: 0 <= k < n && Succeeds(run, turns, k, Set, q)
        && forall m :: k < m < n ==> !Succeeds(run, turns, m, Clr, q)
  {
    hide Initial, Next, Ready, Busy, PortOk, Succeeds;
    if n == 0 {
      assert Initial(run[0]);
      InitialHolds(run[0]);
    } else {
      HeldExactly(run, turns, n - 1, q);
      TurnChanges(run, turns, n - 1, q);
      if Busy(run[n], q) && Busy(run[n - 1], q) {
        var k :| 0 <= k < n - 1 && Succeeds(run, turns, k, Set, q)
          && forall m :: k < m < n - 1 ==> !Succeeds(run, turns, m, Clr, q);
        assert forall m :: k < m < n ==> !Succeeds(run, turns, m, Clr, q);
      }
    }
  }

  /** No port is given out twice without being released in between. */
  lemma NoPortGivenTwice(run: seq<State>, turns: seq<Turn>, i: nat, j: nat, q: bv64)
    requires Run(run, turns) && i < j < |turns| && PortOk(q)
    requires Succeeds(run, turns, i, Set, q) && Succeeds(run, turns, j, Set, q)
    ensures exists m :: i < m < j && Succeeds(run, turns, m, Clr, q)
  {
    hide Initial, Next, Ready, Busy, PortOk, Succeeds;
    HeldExactly(run, turns, j, q);
    TurnChanges(run, turns, j, q);
  }
}
