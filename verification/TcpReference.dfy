/**
  * The TCP state table measured against what the two ends have said so far: who has sent a SYN, a SYN-ACK,
  * a FIN, whether the handshake has been acknowledged and how many ACKs the closing has seen.
  */
module TcpReference {
  import opened Words
  import opened TcpWindow
  import opened TcpStates

  /** What has been accepted since the connection was opened, forwards and backwards. */
  datatype Said = Said(syn: bool, synBack: bool, synAck: bool, synAckBack: bool, open: bool,
                       fin: bool, finBack: bool, acks: nat)

  const NOTHING := Said(false, false, false, false, false, false, false, 0)

  predicate AnySynAck(h: Said) { h.synAck || h.synAckBack }

  predicate AnyFin(h: Said) { h.fin || h.finBack }

  predicate BothFins(h: Said) { h.fin && h.finBack }

  /** Both ends have closed and both closings count as acknowledged. */
  predicate Over(h: Said) { BothFins(h) && h.acks == 2 }

  /** The sender of the segment at hand has closed; the other end has. */
  predicate SenderFin(h: Said, back: bool) { if back then h.finBack else h.fin }

  predicate OtherFin(h: Said, back: bool) { SenderFin(h, !back) }

  /**
    * The segments that may come next.
    *  - A SYN opens the connection, may be repeated by its sender until the handshake is over, may cross a
    *    SYN of the other end, and opens the next connection once this one is over.
    *  - A SYN-ACK comes from the other end until the handshake is over, or from the first end once, in
    *    answer to a crossing SYN.
    *  - An ACK comes after a SYN-ACK or a FIN and until the connection is over.
    *  - A FIN comes after a SYN-ACK, or backwards after a crossing SYN, until both ends have closed.
    */
  predicate MaySend(h: Said, back: bool, c: FlagCase) {
    match c
    case Syn =>
      if back then h.syn && !AnySynAck(h) && !AnyFin(h)
      else (!h.open && !AnyFin(h)) || Over(h)
    case SynAck =>
      if back then h.syn && !h.open && !AnyFin(h)
      else h.synBack && !AnySynAck(h) && !AnyFin(h)
    case Ack => (AnySynAck(h) || AnyFin(h)) && !Over(h)
    case Fin => (AnySynAck(h) || (back && h.synBack) || AnyFin(h)) && !BothFins(h)
    case Invalid => false
  }

  /** What has been said after such a segment. */
  function Hear(h: Said, back: bool, c: FlagCase): Said
    requires MaySend(h, back, c)
  {
    match c
    case Syn => if back then h.(synBack := true) else if Over(h) then NOTHING.(syn := true) else h.(syn := true)
    case SynAck => if back then h.(synAckBack := true) else h.(synAck := true)
    case Ack =>
      if !AnyFin(h) then h.(open := h.open || !back)
      else if BothFins(h) then h.(acks := h.acks + 1)
      else if OtherFin(h, back) then h.(acks := 1)
      else h
    case Fin =>
      if SenderFin(h, back) && h.acks == 0 then h
      // A repeated FIN that has been acknowledged is taken for the FIN of the other end.
      else if AnyFin(h) then h.(fin := true, finBack := true)
      else if back then h.(finBack := true)
      else h.(fin := true)
  }

  /** The state that stands for it. */
  function StateOf(h: Said): nat {
    if BothFins(h) then (if h.acks == 0 then CLOSING else if h.acks == 1 then LAST_ACK else TIME_WAIT)
    else if h.fin then (if h.acks == 0 then FIN_SENT else FIN_WAIT)
    else if h.finBack then (if h.acks == 0 then FIN_RECEIVED else CLOSE_WAIT)
    else if h.open then ESTABLISHED
    else if AnySynAck(h) then SYN_RECEIVED
    else if h.synBack then SIMSYN_SENT
    else if h.syn then SYN_SENT
    else CLOSED
  }

  /** What can have been said: no answer before a question, and no more ACKs than there are closings. */
  predicate Sensible(h: Said) {
    && (h.synBack || AnySynAck(h) || AnyFin(h) ==> h.syn)
    && (h.open ==> AnySynAck(h))
    && h.acks <= (if BothFins(h) then 2 else if AnyFin(h) then 1 else 0)
  }

  /** The table does exactly that: what may be sent leads to the state it stands for, the rest to CLOSED. */
  lemma TableExact(h: Said, back: bool, c: FlagCase)
    requires Sensible(h)
    ensures MaySend(h, back, c) ==> Sensible(Hear(h, back, c)) && StateOf(Hear(h, back, c)) != CLOSED
    ensures After(StateOf(h), c, back) == (if MaySend(h, back, c) then StateOf(Hear(h, back, c)) else CLOSED)
  {
  }

  // ----- whole runs

  /**
    * What has been said before turn k: a reset ends a connection that is not over, and so does a segment
    * that may not come next.
    */
  function History(p: Params, run: seq<Tracked>, arrivals: seq<Arrival>, k: nat): Said
    requires |run| == |arrivals| + 1 && k <= |arrivals|
  {
    if k == 0 then NOTHING
    else
      var h, a := History(p, run, arrivals, k - 1), arrivals[k - 1];
      if !Accepted(p, run, arrivals, k - 1) then h else Heard(h, a)
  }

  function Heard(h: Said, a: Arrival): Said {
    var c := CaseOfSegment(a.segment);
    if a.segment.rst then (if Over(h) then h else NOTHING)
    else if MaySend(h, a.back, c) then Hear(h, a.back, c)
    else NOTHING
  }

  lemma StateInTable(h: Said)
    ensures StateOf(h) < NSTATES && (StateOf(h) == TIME_WAIT ==> BothFins(h))
    ensures Sensible(h) ==> (Over(h) <==> StateOf(h) == TIME_WAIT)
    ensures Sensible(NOTHING) && StateOf(NOTHING) == CLOSED
  {
  }

  /** One segment: the state goes on standing for what has been said. */
  lemma HeardExact(p: Params, t: Tracked, a: Arrival, h: Said)
    requires Sensible(h) && t.state == StateOf(h)
    ensures Sensible(Heard(h, a))
    ensures var r := StepOn(p, t, a); r.1.state == StateOf(if r.0 then Heard(h, a) else h)
  {
    hide StepOn, MaySend, Hear, Transition, StateOf, Sensible, Over;
    StateInTable(h);
    StateStep(p, t, a);
    if !a.segment.rst {
      TableExact(h, a.back, CaseOfSegment(a.segment));
    }
  }

  /** In every run the state is the one that stands for what the two ends have said. */
  lemma {:induction false} StateIsHistory(p: Params, run: seq<Tracked>, arrivals: seq<Arrival>, k: nat)
    requires Run(p, run, arrivals) && k < |run|
    ensures Sensible(History(p, run, arrivals, k))
    ensures run[k].state == StateOf(History(p, run, arrivals, k))
  {
    hide StepOn, Heard, StateOf, Sensible;
    if k == 0 {
      StateInTable(NOTHING);
    } else {
      StateIsHistory(p, run, arrivals, k - 1);
      HeardExact(p, run[k - 1], arrivals[k - 1], History(p, run, arrivals, k - 1));
    }
  }

  /**
    * In every run a connection is closed by an accepted reset unless it is over, by an accepted segment that
    * may not come next, and by nothing else.
    */
  lemma ClosesExactly(p: Params, run: seq<Tracked>, arrivals: seq<Arrival>, k: nat)
    requires Run(p, run, arrivals) && k < |arrivals| && run[k].state != CLOSED
    ensures var h, a := History(p, run, arrivals, k), arrivals[k];
      run[k + 1].state == CLOSED <==>
      Accepted(p, run, arrivals, k) &&
      if a.segment.rst then !Over(h) else !MaySend(h, a.back, CaseOfSegment(a.segment))
  {
    hide StepOn, MaySend, Hear, Transition, StateOf, Sensible, Over, History;
    var h, a := History(p, run, arrivals, k), arrivals[k];
    StateIsHistory(p, run, arrivals, k);
    StateInTable(h);
    StateStep(p, run[k], a);
    TableExact(h, a.back, CaseOfSegment(a.segment));
  }

  /** The sender has sent such a segment before. */
  predicate Repeats(h: Said, back: bool, c: FlagCase) {
    match c
    case Syn => if back then h.synBack else h.syn
    case SynAck => if back then h.synAckBack else h.synAck
    case Fin => SenderFin(h, back)
    case _ => false
  }

  /** A repeated segment is let be: the question is still open, and a FIN has not been answered at all. */
  predicate StillOpen(h: Said, back: bool, c: FlagCase) {
    match c
    case Syn => !AnyFin(h) && if back then !AnySynAck(h) else !h.open
    case SynAck => back && !h.open && !AnyFin(h)
    case _ => !BothFins(h) && h.acks == 0
  }

  /**
    * In every run an accepted ACK leaves ESTABLISHED, CLOSE_WAIT and FIN_WAIT alone, and a repeated SYN,
    * SYN-ACK or FIN leaves the state alone exactly while it is still open.
    */
  lemma RepeatsExactly(p: Params, run: seq<Tracked>, arrivals: seq<Arrival>, k: nat)
    requires Run(p, run, arrivals) && k < |arrivals| && Accepted(p, run, arrivals, k) && !arrivals[k].segment.rst
    ensures var h, back, c := History(p, run, arrivals, k), arrivals[k].back, CaseOfSegment(arrivals[k].segment);
      && (c.Ack? && run[k].state in {ESTABLISHED, CLOSE_WAIT, FIN_WAIT} ==> run[k + 1].state == run[k].state)
      && (Repeats(h, back, c) ==> (run[k + 1].state == run[k].state <==> StillOpen(h, back, c)))
  {
    hide StepOn, History;
    var h, a := History(p, run, arrivals, k), arrivals[k];
    StateIsHistory(p, run, arrivals, k);
    StateStep(p, run[k], a);
    RepeatsTable(h, a.back, CaseOfSegment(a.segment));
  }

  lemma RepeatsTable(h: Said, back: bool, c: FlagCase)
    requires Sensible(h)
    ensures c.Ack? && StateOf(h) in {ESTABLISHED, CLOSE_WAIT, FIN_WAIT} ==> After(StateOf(h), c, back) == StateOf(h)
    ensures Repeats(h, back, c) ==> (After(StateOf(h), c, back) == StateOf(h) <==> StillOpen(h, back, c))
  {
    hide Transition;
    TableExact(h, back, c);
  }

  // ----- who has really closed

  /** Who has sent a FIN since the connection was opened, and whether an acknowledged FIN has been repeated since. */
  datatype Closing = Closing(fin: bool, finBack: bool, repeated: bool)

  const NOT_CLOSING := Closing(false, false, false)

  function ClosingAfter(h: Said, w: Closing, a: Arrival): Closing {
    var c := CaseOfSegment(a.segment);
    if a.segment.rst then (if Over(h) then w else NOT_CLOSING)
    else if !MaySend(h, a.back, c) || (c.Syn? && Over(h)) then NOT_CLOSING
    else if !c.Fin? then w
    else if SenderFin(h, a.back) && h.acks > 0 then w.(repeated := true)
    else if a.back then w.(finBack := true)
    else w.(fin := true)
  }

  function Closings(p: Params, run: seq<Tracked>, arrivals: seq<Arrival>, k: nat): Closing
    requires |run| == |arrivals| + 1 && k <= |arrivals|
  {
    if k == 0 then NOT_CLOSING
    else
      var w := Closings(p, run, arrivals, k - 1);
      if !Accepted(p, run, arrivals, k - 1) then w
      else ClosingAfter(History(p, run, arrivals, k - 1), w, arrivals[k - 1])
  }

  predicate Matches(h: Said, w: Closing) {
    if w.repeated then BothFins(h) && w.fin != w.finBack else w.fin == h.fin && w.finBack == h.finBack
  }

  lemma ClosingStep(h: Said, w: Closing, a: Arrival)
    requires Sensible(h) && Matches(h, w)
    ensures Matches(Heard(h, a), ClosingAfter(h, w, a))
  {
    hide MaySend, Hear;
    var c := CaseOfSegment(a.segment);
    if !a.segment.rst && MaySend(h, a.back, c) {
      HearFins(h, a.back, c);
    }
  }

  /** What a segment does to the two FINs. */
  lemma HearFins(h: Said, back: bool, c: FlagCase)
    requires Sensible(h) && MaySend(h, back, c)
    ensures var h' := Hear(h, back, c);
      if c.Syn? && Over(h) then !AnyFin(h')
      else if !c.Fin? then h'.fin == h.fin && h'.finBack == h.finBack
      else !BothFins(h) &&
           if SenderFin(h, back) && h.acks > 0 then BothFins(h')
           else h'.fin == (h.fin || !back) && h'.finBack == (h.finBack || back)
  {
  }

  lemma {:induction false} ClosingsMatch(p: Params, run: seq<Tracked>, arrivals: seq<Arrival>, k: nat)
    requires Run(p, run, arrivals) && k < |run|
    ensures Matches(History(p, run, arrivals, k), Closings(p, run, arrivals, k))
  {
    hide StepOn, Heard, ClosingAfter, Matches, Sensible;
    if k == 0 {
      NothingMatches();
    } else {
      ClosingsMatch(p, run, arrivals, k - 1);
      StateIsHistory(p, run, arrivals, k - 1);
      ClosingStep(History(p, run, arrivals, k - 1), Closings(p, run, arrivals, k - 1), arrivals[k - 1]);
    }
  }

  lemma NothingMatches()
    ensures Matches(NOTHING, NOT_CLOSING)
  {
  }

  /**
    * A repeated FIN that has been acknowledged is taken for the FIN of the other end.  In every run LAST_ACK
    * and TIME_WAIT say that both ends have closed, and that is true exactly if no such FIN has been accepted.
    */
  lemma BothClosedExactly(p: Params, run: seq<Tracked>, arrivals: seq<Arrival>, k: nat)
    requires Run(p, run, arrivals) && k < |run| && run[k].state in {LAST_ACK, TIME_WAIT}
    ensures var w := Closings(p, run, arrivals, k); (w.fin && w.finBack) <==> !w.repeated
  {
    hide History, Closings, StepOn;
    StateIsHistory(p, run, arrivals, k);
    ClosingsMatch(p, run, arrivals, k);
  }

  /** Such a FIN, and a FIN repeated after both have closed. */
  lemma RepeatedFin(back: bool)
    ensures After(After(After(ESTABLISHED, Fin, back), Ack, !back), Fin, back) == LAST_ACK
    ensures After(After(After(ESTABLISHED, Fin, back), Fin, !back), Fin, back) == CLOSED
  {
  }

  // ----- resets of the first SYN

  /** A reset with SEQ 0 and nothing acknowledged is in bounds, whatever has been sent. */
  lemma ResetInBounds(p: Params, s: nat, c: Pair, g: Segment)
    requires ScaleFits(p, s) && SegmentOk(g) && ScaleOf(g) <= s && SideOk(c.from, s) && SideOk(c.to, s)
    requires g.rst && g.sn == 0 && (!g.hasAck || g.ack == 0)
    ensures Track(p, c, g, true).0
  {
    hide Wrap, Signed, Pow2, SideOk, ScaleFits;
    var f, t := Resynced(g, c.from), c.to;
    SideFacts(c.from, s);
    SideInOrder(p, s, f, t) by { ResyncedInOrder(g, c.from, s); }
    assert UsedSeq(g, f, true) == f.end && UsedEnd(g, f, true) == f.end && UsedAck(g, t) == t.end;
    NoDistance(f.end);
    NoDistance(t.end);
    MulMonotone(p.maxAckWin, 0, Pow2(f.wscale));
  }

  lemma NoDistance(x: nat)
    ensures Wrap(x - x) == 0 && Signed(x - x) == 0
  {
  }

  lemma ResyncedInOrder(g: Segment, f: Side, s: nat)
    requires SegmentOk(g) && SideOk(f, s) && ScaleOf(g) <= s
    ensures SideOk(Resynced(g, f), s)
  {
    hide Wrap, Signed;
    var u := Bounds(f.end, f.end + Wrap(f.maxend - f.end), f.maxwin);
    WrapUnique(f.end, 0, f.end);
    ResyncedOk(g, f, s, u);
  }

  /** Between the two boundaries of a side there is less than half the space. */
  lemma SideInOrder(p: Params, s: nat, f: Side, t: Side)
    requires ScaleFits(p, s) && SideOk(f, s) && SideOk(t, s)
    ensures Signed(f.end - f.maxend) <= 0 && Signed(f.end - Wrap(f.end - t.maxwin)) >= 0
  {
    hide Pow2;
    WrapBack(f.maxend, f.end);
    WrapSum(f.end - t.maxwin, f.end);
    SignedSame(f.end - Wrap(f.end - t.maxwin), t.maxwin);
    SignedSmall(t.maxwin);
  }

  lemma WrapBack(x: nat, y: nat)
    requires x < M32 && y < M32 && Wrap(x - y) < HALF
    ensures Signed(y - x) <= 0
  {
  }

  /** In every run a reset of the first SYN, with SEQ 0 and nothing acknowledged, is accepted and closes. */
  lemma ResetOfSyn(p: Params, run: seq<Tracked>, arrivals: seq<Arrival>, s: nat, k: nat)
    requires Run(p, run, arrivals) && ScaleFits(p, s) && ScalesWithin(arrivals, s) && 0 < k < |arrivals|
    requires run[k].state == SYN_SENT
    requires var g := arrivals[k].segment; g.rst && g.sn == 0 && (!g.hasAck || g.ack == 0)
    ensures Accepted(p, run, arrivals, k) && run[k + 1].state == CLOSED
  {
    hide SideOk, ScaleFits, Track;
    var a := arrivals[k];
    WindowsInRun(p, run, arrivals, s, k);
    assert SegmentOk(a.segment) && ScaleOf(a.segment) <= s;
    ResetInBounds(p, s, Sides(run[k], a.back), a.segment);
  }
}
