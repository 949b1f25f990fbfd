/** The TCP state machine npf_state_tcp (src/kern/npf_state_tcp.c) over whole runs of segments. */
module TcpStates {
  import opened Words
  import opened TcpWindow

  const CLOSED := 0
  const SYN_SENT := 1
  const SIMSYN_SENT := 2
  const SYN_RECEIVED := 3
  const ESTABLISHED := 4
  const FIN_SENT := 5
  const FIN_RECEIVED := 6
  const CLOSE_WAIT := 7
  const FIN_WAIT := 8
  const CLOSING := 9
  const LAST_ACK := 10
  const TIME_WAIT := 11
  const NSTATES := 12

  /** Stay in the same state. */
  const STAY := 255

  datatype FlagCase = Invalid | Syn | SynAck | Ack | Fin

  // ----- flag cases

  /** npf_tcpfl2case: the case number looked up in a packed table. */
  function CaseNumber(flags: bv32): bv32 {
    var i := (flags & 3) | ((flags & 0x10) >> 2);
    (0x2430140 >> (i << 2)) & 7
  }

  function NumberOf(c: FlagCase): bv32 {
    match c
    case Invalid => 0
    case Syn => 1
    case SynAck => 2
    case Ack => 3
    case Fin => 4
  }

  function CaseOf(syn: bool, fin: bool, ack: bool): FlagCase {
    if syn then if fin then Invalid else if ack then SynAck else Syn
    else if fin then Fin
    else if ack then Ack
    else Invalid
  }

  /** The packed table gives the case of SYN, FIN and ACK, whatever the other flags are. */
  lemma CaseNumberExact(flags: bv32)
    ensures CaseNumber(flags) == NumberOf(CaseOf(flags & 2 != 0, flags & 1 != 0, flags & 0x10 != 0))
  {
  }

  function CaseOfSegment(g: Segment): FlagCase {
    CaseOf(g.syn, g.fin, g.hasAck)
  }

  // ----- transitions

  /** npf_tcp_fsm; the transitions that the table does not list lead to CLOSED. */
  function Transition(state: nat, back: bool, c: FlagCase): (r: nat)
    ensures r < NSTATES || r == STAY
  {
    if state == CLOSED then (if !back && c.Syn? then SYN_SENT else CLOSED)
    else if state == SYN_SENT then
      if !back then (if c.Syn? then STAY else CLOSED)
      else (match c case SynAck => SYN_RECEIVED case Syn => SIMSYN_SENT case _ => CLOSED)
    else if state == SIMSYN_SENT then
      (match c
       case Syn => STAY
       case SynAck => SYN_RECEIVED
       case Fin => if back then FIN_RECEIVED else CLOSED
       case _ => CLOSED)
    else if state == SYN_RECEIVED then
      if !back then (match c case Ack => ESTABLISHED case Fin => FIN_SENT case Syn => STAY case _ => CLOSED)
      else (match c case SynAck => STAY case Ack => STAY case Fin => FIN_RECEIVED case _ => CLOSED)
    else if state == ESTABLISHED then
      (match c case Ack => STAY case Fin => if back then FIN_RECEIVED else FIN_SENT case _ => CLOSED)
    else if state == FIN_SENT then
      if !back then (match c case Ack => STAY case Fin => STAY case _ => CLOSED)
      else (match c case Ack => FIN_WAIT case Fin => CLOSING case _ => CLOSED)
    else if state == FIN_RECEIVED then
      if !back then (match c case Ack => CLOSE_WAIT case Fin => CLOSING case _ => CLOSED)
      else (match c case Ack => STAY case Fin => STAY case _ => CLOSED)
    else if state == CLOSE_WAIT || state == FIN_WAIT then
      (match c case Ack => STAY case Fin => LAST_ACK case _ => CLOSED)
    else if state == CLOSING then (if c.Ack? then LAST_ACK else CLOSED)
    else if state == LAST_ACK then (if c.Ack? then TIME_WAIT else CLOSED)
    else (if !back && c.Syn? then SYN_SENT else CLOSED)
  }

  function NextState(state: nat, g: Segment, back: bool): nat {
    if !g.rst then Transition(state, back, CaseOfSegment(g))
    else if state == TIME_WAIT then STAY
    else CLOSED
  }

  /** A tracked connection: its state and its two sides. */
  datatype Tracked = Tracked(state: nat, fw: Side, bk: Side)

  function Sides(c: Tracked, back: bool): Pair {
    if back then Pair(c.bk, c.fw) else Pair(c.fw, c.bk)
  }

  function WithSides(c: Tracked, back: bool, s: Pair): Tracked {
    if back then c.(bk := s.from, fw := s.to) else c.(fw := s.from, bk := s.to)
  }

  /** One segment: whether it is accepted, and the connection afterwards. */
  function Step(p: Params, c: Tracked, g: Segment, back: bool): (bool, Tracked) {
    var n := NextState(c.state, g, back);
    var r := Track(p, Sides(c, back), g, c.state == SYN_SENT);
    var c' := WithSides(c, back, r.1);
    (r.0, if r.0 && n != STAY then c'.(state := n) else c')
  }

  /** The state kept in place, as the kernel does. */
  class TcpState {
    var state: nat
    var sides: array<Side>

    ghost predicate Valid()
      reads this
    {
      sides.Length == 2
    }

    ghost function Value(): Tracked
      requires Valid()
      reads this, sides
    {
      Tracked(state, sides[0], sides[1])
    }

    constructor ()
      ensures Valid() && fresh(sides) && Value() == Start()
    {
      state := CLOSED;
      sides := new Side[2](_ => Side(0, 0, 0, 0));
    }

    /** npf_tcp_inwindow. */
    method InWindow(p: Params, g: Segment, back: bool) returns (ok: bool)
      requires Valid()
      modifies sides
      ensures var r := Track(p, old(Sides(Value(), back)), g, state == SYN_SENT);
        ok == r.0 && Value() == WithSides(old(Value()), back, r.1)
    {
      hide Wrap, Signed, Pow2, Updated, Window, ScaleOf, InBounds, RstInOrder;
      var f, t := if back then 1 else 0, if back then 0 else 1;
      var end := SegEnd(g);
      var win := Window(g, sides[f].wscale);
      if sides[f].maxwin == 0 {
        sides[f] := Side(end, end, win, ScaleOf(g));
        sides[t] := Side(0, 0, 1, 0);
        return true;
      }
      if sides[f].end == 0 {
        sides[f] := Side(end, Wrap(end + 1), win, if g.syn then ScaleOf(g) else 0);
      }
      ok := Check(p, g, f, t, win);
    }

    /** The middle of npf_tcp_inwindow: the boundaries. */
    method Check(p: Params, g: Segment, f: nat, t: nat, win: nat) returns (ok: bool)
      requires Valid() && f < 2 && t == 1 - f
      modifies sides
      ensures ok == Passes(p, g, old(sides[f]), old(sides[t]), state == SYN_SENT)
      ensures var u := Outcome(g, old(sides[f]), old(sides[t]), state == SYN_SENT, win, ok);
        sides[f] == u.from && sides[t] == u.to
    {
      hide Wrap, Signed, Pow2, Updated;
      var end := SegEnd(g);
      var ack, sn := g.ack, g.sn;
      if !g.hasAck || (g.rst && ack == 0) {
        ack := sides[t].end;
      }
      assert ack == UsedAck(g, sides[t]);
      if g.rst {
        if sn == 0 && state == SYN_SENT {
          end := sides[f].end;
          sn := end;
        }
        if p.strictRst && Wrap(sides[f].end - sn) > 1 {
          return false;
        }
      }
      assert sn == UsedSeq(g, sides[f], state == SYN_SENT) && end == UsedEnd(g, sides[f], state == SYN_SENT);
      if Signed(end - sides[f].maxend) > 0 {
        return false;
      }
      if Signed(sn - Wrap(sides[f].end - sides[t].maxwin)) < 0 {
        return false;
      }
      var skew := Signed(sides[t].end - ack);
      if skew < 0 - p.maxAckWin || skew > p.maxAckWin * Pow2(sides[f].wscale) {
        return false;
      }
      Note(f, t, end, ack, win);
      return true;
    }

    /** The end of npf_tcp_inwindow: the segment has been passed. */
    method Note(f: nat, t: nat, end: nat, ack: nat, win: nat)
      requires Valid() && f < 2 && t == 1 - f
      modifies sides
      ensures var u := Updated(old(sides[f]), old(sides[t]), end, ack, win); sides[f] == u.from && sides[t] == u.to
    {
      hide Wrap, Signed;
      if Signed(sides[t].end - ack) < 0 {
        sides[t] := sides[t].(end := ack);
      }
      if sides[f].maxwin < win {
        sides[f] := sides[f].(maxwin := win);
      }
      if Signed(end - sides[f].end) > 0 {
        sides[f] := sides[f].(end := end);
      }
      if Signed(Wrap(ack + win) - sides[t].maxend) >= 0 {
        sides[t] := sides[t].(maxend := Wrap(ack + win));
      }
    }

    /** npf_state_tcp. */
    method Inspect(p: Params, g: Segment, back: bool) returns (ok: bool)
      requires Valid()
      modifies this`state, sides
      ensures var r := Step(p, old(Value()), g, back); ok == r.0 && Value() == r.1
    {
      var nstate := NextState(state, g, back);
      ok := InWindow(p, g, back);
      if ok && nstate != STAY {
        state := nstate;
      }
    }
  }

  /** The checks after a possible resynchronisation. */
  predicate Passes(p: Params, g: Segment, f: Side, t: Side, synSent: bool) {
    RstInOrder(p, g, f, synSent) && InBounds(p, f, t, UsedSeq(g, f, synSent), UsedEnd(g, f, synSent), UsedAck(g, t))
  }

  function Outcome(g: Segment, f: Side, t: Side, synSent: bool, win: nat, ok: bool): Pair {
    if ok then Updated(f, t, UsedEnd(g, f, synSent), UsedAck(g, t), win) else Pair(f, t)
  }

  function Start(): Tracked {
    Tracked(CLOSED, Side(0, 0, 0, 0), Side(0, 0, 0, 0))
  }

  // ----- whole runs

  datatype Arrival = Arrival(segment: Segment, back: bool)

  function StepOn(p: Params, c: Tracked, a: Arrival): (bool, Tracked) {
    Step(p, c, a.segment, a.back)
  }

  /** The connection after each segment, from an untouched state. */
  ghost predicate Run(p: Params, run: seq<Tracked>, arrivals: seq<Arrival>) {
    && |run| == |arrivals| + 1 && run[0] == Start()
    && (forall k :: 0 <= k < |arrivals| ==> run[k + 1] == StepOn(p, run[k], arrivals[k]).1)
    && (forall k :: 0 <= k < |arrivals| ==> SegmentOk(arrivals[k].segment))
  }

  predicate Accepted(p: Params, run: seq<Tracked>, arrivals: seq<Arrival>, k: int)
    requires 0 <= k < |arrivals| && |run| == |arrivals| + 1
  {
    StepOn(p, run[k], arrivals[k]).0
  }

  /** What one segment can do to the state. */
  lemma StateStep(p: Params, c: Tracked, a: Arrival)
    requires c.state < NSTATES
    ensures var r := StepOn(p, c, a); var n := NextState(c.state, a.segment, a.back);
      r.1.state == (if r.0 && n != STAY then n else c.state) && r.1.state < NSTATES
  {
  }

  /** The state is always one of the twelve. */
  lemma {:induction false} StateInRange(p: Params, run: seq<Tracked>, arrivals: seq<Arrival>, k: nat)
    requires Run(p, run, arrivals) && k < |run|
    ensures run[k].state < NSTATES
  {
    hide StepOn;
    if k > 0 {
      StateInRange(p, run, arrivals, k - 1);
      StateStep(p, run[k - 1], arrivals[k - 1]);
    }
  }

  /** Every change goes up, except to CLOSED and when TIME_WAIT is re-opened. */
  lemma ChangesGoUp(p: Params, run: seq<Tracked>, arrivals: seq<Arrival>, k: nat)
    requires Run(p, run, arrivals) && k < |arrivals| && run[k + 1].state != run[k].state
    ensures Accepted(p, run, arrivals, k)
    ensures run[k + 1].state > run[k].state || run[k + 1].state == CLOSED
            || (run[k].state == TIME_WAIT && run[k + 1].state == SYN_SENT)
  {
    hide StepOn;
    StateInRange(p, run, arrivals, k);
    StateStep(p, run[k], arrivals[k]);
  }

  /** A reset never takes a connection out of TIME_WAIT. */
  lemma ResetKeepsTimeWait(p: Params, run: seq<Tracked>, arrivals: seq<Arrival>, k: nat)
    requires Run(p, run, arrivals) && k < |arrivals| && run[k].state == TIME_WAIT && arrivals[k].segment.rst
    ensures run[k + 1].state == TIME_WAIT
  {
  }

  /** In strict order, a later reset is accepted only at the very end of what its sender has sent. */
  lemma StrictReset(p: Params, run: seq<Tracked>, arrivals: seq<Arrival>, k: nat)
    requires Run(p, run, arrivals) && k < |arrivals| && p.strictRst && arrivals[k].segment.rst
    requires Accepted(p, run, arrivals, k)
    requires Sides(run[k], arrivals[k].back).from.maxwin != 0
    ensures var g := arrivals[k].segment;
      var f := Resynced(g, Sides(run[k], arrivals[k].back).from);
      g.sn == f.end || g.sn == Wrap(f.end - 1) || (g.sn == 0 && run[k].state == SYN_SENT)
  {
    hide Signed, Wrap, InBounds, Updated;
    var g := arrivals[k].segment;
    var f := Resynced(g, Sides(run[k], arrivals[k].back).from);
    assert SegmentOk(g);
    SidesBounded(p, run, arrivals, k);
    if !(g.sn == 0 && run[k].state == SYN_SENT) {
      assert Wrap(f.end - g.sn) <= 1;
      NearEnd(f.end, g.sn);
    }
  }

  lemma NearEnd(e: nat, sn: nat)
    requires e < M32 && sn < M32 && Wrap(e - sn) <= 1
    ensures sn == e || sn == Wrap(e - 1)
  {
  }

  predicate Bounded(x: Side) { x.end < M32 && x.maxend < M32 }

  lemma {:induction false} SidesBounded(p: Params, run: seq<Tracked>, arrivals: seq<Arrival>, k: nat)
    requires Run(p, run, arrivals) && k < |run|
    ensures Bounded(run[k].fw) && Bounded(run[k].bk)
  {
    hide Signed, Wrap, InBounds, Pow2, NextState, RstInOrder, Window, ScaleOf;
    if k > 0 {
      SidesBounded(p, run, arrivals, k - 1);
      assert run[k] == StepOn(p, run[k - 1], arrivals[k - 1]).1;
      assert SegmentOk(arrivals[k - 1].segment);
    }
  }

  // ----- what must have been seen

  predicate Enters(run: seq<Tracked>, i: int, state: nat)
    requires 0 <= i < |run| - 1
  {
    run[i + 1].state == state && run[i].state != state
  }

  /** No entry to SYN_SENT from turn i on, before turn k. */
  predicate NoReopening(run: seq<Tracked>, i: nat, k: nat)
    requires i <= k < |run|
  {
    forall m :: i <= m < k ==> !Enters(run, m, SYN_SENT)
  }

  /** At turn i a segment of one case was accepted, and SYN_SENT has not been entered since. */
  ghost predicate SeenAt(p: Params, run: seq<Tracked>, arrivals: seq<Arrival>, i: nat, k: nat, c: FlagCase)
    requires |run| == |arrivals| + 1 && i < k < |run|
  {
    Accepted(p, run, arrivals, i) && CaseOfSegment(arrivals[i].segment) == c && NoReopening(run, i, k)
  }

  /** At least n such segments, for n up to two. */
  ghost predicate SeenSince(p: Params, run: seq<Tracked>, arrivals: seq<Arrival>, k: nat, c: FlagCase, n: nat)
    requires |run| == |arrivals| + 1 && k < |run|
  {
    && (n == 1 ==> exists i: nat :: i < k && SeenAt(p, run, arrivals, i, k, c))
    && (n >= 2 ==>
          exists i: nat, j: nat :: j < i < k && SeenAt(p, run, arrivals, i, k, c) && SeenAt(p, run, arrivals, j, k, c))
  }

  lemma SeenFewer(p: Params, run: seq<Tracked>, arrivals: seq<Arrival>, k: nat, c: FlagCase, n: nat, m: nat)
    requires |run| == |arrivals| + 1 && k < |run| && SeenSince(p, run, arrivals, k, c, n) && m <= n
    ensures SeenSince(p, run, arrivals, k, c, m)
  {
  }

  lemma SeenOn(p: Params, run: seq<Tracked>, arrivals: seq<Arrival>, i: nat, k: nat, c: FlagCase)
    requires |run| == |arrivals| + 1 && i < k < |arrivals| && SeenAt(p, run, arrivals, i, k, c)
    requires !Enters(run, k, SYN_SENT)
    ensures SeenAt(p, run, arrivals, i, k + 1, c)
  {
  }

  lemma SeenStill(p: Params, run: seq<Tracked>, arrivals: seq<Arrival>, k: nat, c: FlagCase, n: nat)
    requires |run| == |arrivals| + 1 && k < |arrivals| && SeenSince(p, run, arrivals, k, c, n)
    requires !Enters(run, k, SYN_SENT)
    ensures SeenSince(p, run, arrivals, k + 1, c, n)
  {
    hide SeenAt, Enters;
    forall i: nat | i < k && SeenAt(p, run, arrivals, i, k, c) ensures SeenAt(p, run, arrivals, i, k + 1, c) {
      SeenOn(p, run, arrivals, i, k, c);
    }
  }

  lemma SeenMore(p: Params, run: seq<Tracked>, arrivals: seq<Arrival>, k: nat, c: FlagCase, n: nat)
    requires |run| == |arrivals| + 1 && k < |arrivals| && SeenSince(p, run, arrivals, k, c, n) && n <= 1
    requires Accepted(p, run, arrivals, k) && CaseOfSegment(arrivals[k].segment) == c && !Enters(run, k, SYN_SENT)
    ensures SeenSince(p, run, arrivals, k + 1, c, n + 1)
  {
    hide Accepted, CaseOfSegment, Enters;
    assert SeenAt(p, run, arrivals, k, k + 1, c);
    if n == 1 {
      var j: nat :| j < k && SeenAt(p, run, arrivals, j, k, c);
      SeenOn(p, run, arrivals, j, k, c);
    }
  }

  /** How many SYN-ACKs and FINs a state stands for. */
  function SynAcksOf(state: nat): nat {
    if state == SYN_RECEIVED || state == ESTABLISHED then 1 else 0
  }

  function FinsOf(state: nat): nat {
    if state <= ESTABLISHED then 0 else if state <= FIN_WAIT then 1 else 2
  }

  lemma CountsStep(state: nat, back: bool, c: FlagCase)
    requires state < NSTATES
    ensures var n := Transition(state, back, c);
      n < NSTATES && n != SYN_SENT ==>
        && (SynAcksOf(n) <= SynAcksOf(state) || (c.SynAck? && SynAcksOf(n) <= 1))
        && (FinsOf(n) <= FinsOf(state) || (c.Fin? && FinsOf(n) == FinsOf(state) + 1))
  {
  }

  lemma {:induction false} SeenInRun(p: Params, run: seq<Tracked>, arrivals: seq<Arrival>, k: nat)
    requires Run(p, run, arrivals) && k < |run|
    ensures SeenSince(p, run, arrivals, k, SynAck, SynAcksOf(run[k].state))
    ensures SeenSince(p, run, arrivals, k, Fin, FinsOf(run[k].state))
  {
    hide StepOn, SeenSince, Transition, Run;
    assert |run| == |arrivals| + 1 && run[0] == Start() by { RunLength(p, run, arrivals); }
    if k == 0 || run[k].state == SYN_SENT || run[k].state == CLOSED {
      NothingNeeded(p, run, arrivals, k);
    } else {
      var a, b := run[k - 1].state, run[k].state;
      SeenInRun(p, run, arrivals, k - 1);
      SeenTurn(p, run, arrivals, k - 1, SynAck, SynAcksOf(a), SynAcksOf(b));
      SeenTurn(p, run, arrivals, k - 1, Fin, FinsOf(a), FinsOf(b));
    }
  }

  lemma RunLength(p: Params, run: seq<Tracked>, arrivals: seq<Arrival>)
    requires Run(p, run, arrivals)
    ensures |run| == |arrivals| + 1 && run[0] == Start()
  {
  }

  lemma NothingNeeded(p: Params, run: seq<Tracked>, arrivals: seq<Arrival>, k: nat)
    requires |run| == |arrivals| + 1 && k < |run| && run[k].state <= SYN_SENT
    ensures SeenSince(p, run, arrivals, k, SynAck, SynAcksOf(run[k].state))
    ensures SeenSince(p, run, arrivals, k, Fin, FinsOf(run[k].state))
  {
  }

  /** One turn: what the new state stands for has been seen. */
  lemma SeenTurn(p: Params, run: seq<Tracked>, arrivals: seq<Arrival>, k: nat, c: FlagCase, n: nat, m: nat)
    requires Run(p, run, arrivals) && k < |arrivals| && run[k + 1].state > SYN_SENT
    requires (c == SynAck && n == SynAcksOf(run[k].state) && m == SynAcksOf(run[k + 1].state))
          || (c == Fin && n == FinsOf(run[k].state) && m == FinsOf(run[k + 1].state))
    requires SeenSince(p, run, arrivals, k, c, n)
    ensures SeenSince(p, run, arrivals, k + 1, c, m)
  {
    hide StepOn, SeenSince, Transition;
    StateInRange(p, run, arrivals, k);
    StateStep(p, run[k], arrivals[k]);
    var g, back := arrivals[k].segment, arrivals[k].back;
    CountsStep(run[k].state, back, CaseOfSegment(g));
    if m <= n {
      SeenFewer(p, run, arrivals, k, c, n, m);
      SeenStill(p, run, arrivals, k, c, m);
    } else {
      SeenFewer(p, run, arrivals, k, c, n, m - 1);
      SeenMore(p, run, arrivals, k, c, m - 1);
    }
  }

  /** An established connection has seen a SYN-ACK since SYN_SENT was last entered. */
  lemma EstablishedSawSynAck(p: Params, run: seq<Tracked>, arrivals: seq<Arrival>, k: nat)
    requires Run(p, run, arrivals) && k < |run| && run[k].state == ESTABLISHED
    ensures exists i: nat :: i < k && SeenAt(p, run, arrivals, i, k, SynAck)
  {
    hide StepOn, SeenAt;
    SeenInRun(p, run, arrivals, k);
  }

  /** A connection in TIME_WAIT has seen two FIN segments since SYN_SENT was last entered. */
  lemma TimeWaitSawTwoFins(p: Params, run: seq<Tracked>, arrivals: seq<Arrival>, k: nat)
    requires Run(p, run, arrivals) && k < |run| && run[k].state == TIME_WAIT
    ensures exists i: nat, j: nat ::
      j < i < k && SeenAt(p, run, arrivals, i, k, Fin) && SeenAt(p, run, arrivals, j, k, Fin)
  {
    hide StepOn, SeenAt;
    SeenInRun(p, run, arrivals, k);
  }

  /** The segments, with their direction, that a state tells us have been accepted. */
  function Needs(state: nat): set<(FlagCase, bool)> {
    if state == SIMSYN_SENT then {(Syn, true)}
    else if state == ESTABLISHED then {(Ack, false)}
    else if state == FIN_SENT then {(Fin, false)}
    else if state == FIN_RECEIVED then {(Fin, true)}
    else if state == CLOSE_WAIT then {(Fin, true), (Ack, false)}
    else if state == FIN_WAIT then {(Fin, false), (Ack, true)}
    else if state == CLOSING then {(Fin, false), (Fin, true)}
    else {}
  }

  lemma NeedsStep(state: nat, back: bool, c: FlagCase, need: (FlagCase, bool))
    requires state < NSTATES && need in Needs(Transition(state, back, c))
    ensures need in Needs(state) || need == (c, back)
  {
  }

  /** Such a segment was accepted, and SYN_SENT has not been entered since. */
  ghost predicate Met(p: Params, run: seq<Tracked>, arrivals: seq<Arrival>, k: nat, need: (FlagCase, bool))
    requires |run| == |arrivals| + 1 && k < |run|
  {
    exists i: nat :: i < k && arrivals[i].back == need.1 && SeenAt(p, run, arrivals, i, k, need.0)
  }

  /**
   * In every run the states of closing tell who has closed and who has acknowledged: FIN_SENT a FIN
   * forwards, FIN_WAIT also an ACK backwards, FIN_RECEIVED and CLOSE_WAIT the other way round, CLOSING a
   * FIN in both directions.
   */
  lemma {:induction false} StatesTellHistory(p: Params, run: seq<Tracked>, arrivals: seq<Arrival>, k: nat,
                                             need: (FlagCase, bool))
    requires Run(p, run, arrivals) && k < |run| && need in Needs(run[k].state)
    ensures Met(p, run, arrivals, k, need)
  {
    hide StepOn, SeenAt, Transition;
    if k > 0 {
      var j := k - 1;
      StateInRange(p, run, arrivals, j);
      StateStep(p, run[j], arrivals[j]);
      var c, back := CaseOfSegment(arrivals[j].segment), arrivals[j].back;
      if run[k].state != run[j].state {
        NeedsStep(run[j].state, back, c, need);
      }
      if need in Needs(run[j].state) {
        StatesTellHistory(p, run, arrivals, j, need);
        var i: nat :| i < j && arrivals[i].back == need.1 && SeenAt(p, run, arrivals, i, j, need.0);
        SeenOn(p, run, arrivals, i, j, need.0);
      } else {
        SeenNow(p, run, arrivals, j, c);
      }
    }
  }

  lemma SeenNow(p: Params, run: seq<Tracked>, arrivals: seq<Arrival>, k: nat, c: FlagCase)
    requires |run| == |arrivals| + 1 && k < |arrivals| && Accepted(p, run, arrivals, k)
    requires CaseOfSegment(arrivals[k].segment) == c && !Enters(run, k, SYN_SENT)
    ensures SeenAt(p, run, arrivals, k, k + 1, c)
  {
  }

  /** The state after an accepted segment. */
  function After(state: nat, c: FlagCase, back: bool): nat {
    var n := Transition(state, back, c);
    if n == STAY then state else n
  }

  /** Both handshakes lead to ESTABLISHED, and every way of closing leads to TIME_WAIT. */
  lemma OrderlyPaths(last: bool)
    ensures After(After(After(CLOSED, Syn, false), SynAck, true), Ack, false) == ESTABLISHED
    ensures After(After(After(After(CLOSED, Syn, false), Syn, true), SynAck, false), Ack, false) == ESTABLISHED
    ensures After(After(After(After(ESTABLISHED, Fin, false), Ack, true), Fin, true), Ack, last) == TIME_WAIT
    ensures After(After(After(After(ESTABLISHED, Fin, true), Ack, false), Fin, false), Ack, last) == TIME_WAIT
    ensures After(After(After(After(ESTABLISHED, Fin, false), Fin, true), Ack, last), Ack, !last) == TIME_WAIT
    ensures After(After(After(After(ESTABLISHED, Fin, true), Fin, false), Ack, last), Ack, !last) == TIME_WAIT
  {
  }

  // ----- windows over whole runs

  /** Window scales that occur in a run stay within s. */
  ghost predicate ScalesWithin(arrivals: seq<Arrival>, s: nat) {
    forall k :: 0 <= k < |arrivals| ==> ScaleOf(arrivals[k].segment) <= s
  }

  predicate BothOk(c: Tracked, s: nat) {
    SideOk(c.fw, s) && SideOk(c.bk, s)
  }

  /** The unbounded boundaries beside each state of the run, from the first packet on: forwards, backwards. */
  function Companion(p: Params, run: seq<Tracked>, arrivals: seq<Arrival>, k: nat): (Bounds, Bounds)
    requires |run| == |arrivals| + 1 && 0 < k < |run|
  {
    var a := arrivals[k - 1];
    var u :=
      if k == 1 then (Bounds(SegEnd(a.segment), SegEnd(a.segment), Sides(run[1], a.back).from.maxwin), Bounds(0, 0, 1))
      else
        var v := Companion(p, run, arrivals, k - 1);
        BoundsAfter(p, Sides(run[k - 1], a.back), if a.back then v.1 else v.0, if a.back then v.0 else v.1,
                    a.segment, run[k - 1].state == SYN_SENT);
    if a.back then (u.1, u.0) else u
  }

  /**
   * In every run with small enough scales, from the first packet on, both sides keep their windows in
   * order and represent the boundaries of the unbounded tracker.
   */
  lemma {:induction false} WindowsInRun(p: Params, run: seq<Tracked>, arrivals: seq<Arrival>, s: nat, k: nat)
    requires Run(p, run, arrivals) && ScaleFits(p, s) && ScalesWithin(arrivals, s) && 0 < k < |run|
    ensures BothOk(run[k], s)
    ensures var u := Companion(p, run, arrivals, k); Represents(run[k].fw, u.0) && Represents(run[k].bk, u.1)
  {
    hide SideOk, Represents, Track, BoundsAfter, ScaleFits, NextState;
    var a := arrivals[k - 1];
    assert run[k] == StepOn(p, run[k - 1], a).1 && SegmentOk(a.segment) && ScaleOf(a.segment) <= s;
    if k == 1 {
      FirstTurn(p, a, s);
    } else {
      WindowsInRun(p, run, arrivals, s, k - 1);
      var v := Companion(p, run, arrivals, k - 1);
      TrackRefines(p, s, Sides(run[k - 1], a.back), if a.back then v.1 else v.0, if a.back then v.0 else v.1,
                   a.segment, run[k - 1].state == SYN_SENT);
    }
  }

  lemma FirstTurn(p: Params, a: Arrival, s: nat)
    requires SegmentOk(a.segment) && ScaleOf(a.segment) <= s
    ensures var c := StepOn(p, Start(), a).1;
      && BothOk(c, s)
      && Represents(Sides(c, a.back).from, Bounds(SegEnd(a.segment), SegEnd(a.segment), Sides(c, a.back).from.maxwin))
      && Represents(Sides(c, a.back).to, Bounds(0, 0, 1))
  {
    hide SideOk, Represents, NextState, InBounds, Updated, RstInOrder;
    FirstPacketOk(s, a.segment, Side(0, 0, 0, 0));
  }

  /** Over a run no boundary moves backwards, except when a side whose nst_end is zero is set anew. */
  lemma BoundariesAdvance(p: Params, run: seq<Tracked>, arrivals: seq<Arrival>, s: nat, k: nat)
    requires Run(p, run, arrivals) && ScaleFits(p, s) && ScalesWithin(arrivals, s) && 0 < k < |arrivals|
    requires Sides(run[k], arrivals[k].back).from.end != 0
    ensures var u, v := Companion(p, run, arrivals, k), Companion(p, run, arrivals, k + 1);
      && v.0.end >= u.0.end && v.0.maxend >= u.0.maxend && v.0.maxwin >= u.0.maxwin
      && v.1.end >= u.1.end && v.1.maxend >= u.1.maxend && v.1.maxwin >= u.1.maxwin
  {
    hide Represents, Track, BoundsAfter, ScaleFits, StepOn;
    WindowsInRun(p, run, arrivals, s, k);
    var a, u := arrivals[k], Companion(p, run, arrivals, k);
    BoundsAdvance(p, Sides(run[k], a.back), if a.back then u.1 else u.0, if a.back then u.0 else u.1,
                  a.segment, run[k].state == SYN_SENT);
  }
}
