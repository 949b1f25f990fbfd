/** How large windows may be for the TCP tracker to keep its boundaries in order (src/kern/npf_state_tcp.c). */
module TcpLimits {
  import opened Words
  import opened TcpWindow
  import opened TcpStates

  /** Whether the windows stay in order in every run whose scales are within s. */
  ghost predicate AlwaysInOrder(p: Params, s: nat) {
    forall run: seq<Tracked>, arrivals: seq<Arrival>, k: nat ::
      Run(p, run, arrivals) && ScalesWithin(arrivals, s) && 0 < k < |run| ==> BothOk(run[k], s)
  }

  // ----- single steps

  function SynOf(s: nat): Segment {
    Segment(1000, 0, 65535, 0, true, false, false, false, Some(s))
  }

  function SynAckOf(s: nat): Segment {
    Segment(5000, 1001, 65535, 0, true, false, false, true, Some(s))
  }

  function AckOf(sn: nat, ack: nat, win: nat, len: nat): Segment {
    Segment(sn, ack, win, len, false, false, false, true, None)
  }

  /** The checks, for numbers whose differences are known. */
  lemma Passing(p: Params, f: Side, t: Side, sn: nat, end: nat, ack: nat, behind: int)
    requires -HALF <= end - f.maxend <= 0 && 0 <= sn - f.end + t.maxwin < HALF
    requires Wrap(t.end - ack) == Wrap(behind) && -HALF <= behind < HALF
    requires 0 - p.maxAckWin <= behind <= p.maxAckWin * Pow2(f.wscale)
    ensures InBounds(p, f, t, sn, end, ack) && Signed(t.end - ack) == behind
  {
    hide Wrap, Signed, Pow2;
    SignedSmall(end - f.maxend);
    WrapSum(f.end - t.maxwin, sn);
    SignedSame(sn - Wrap(f.end - t.maxwin), sn - (f.end - t.maxwin));
    SignedSmall(sn - f.end + t.maxwin);
    SignedSame(t.end - ack, behind);
    SignedSmall(behind);
  }

  /** An accepted segment that is neither RST nor the first one, sent by a side that is not set anew. */
  lemma AcceptedStep(p: Params, c: Tracked, g: Segment, back: bool)
    requires var x := Sides(c, back);
      && x.from.maxwin > 0 && x.from.end != 0 && !g.rst && g.hasAck
      && InBounds(p, x.from, x.to, g.sn, SegEnd(g), g.ack)
    ensures var x := Sides(c, back);
      var r := StepOn(p, c, Arrival(g, back));
      r.0 && Sides(r.1, back) == Updated(x.from, x.to, SegEnd(g), g.ack, Window(g, x.from.wscale))
  {
    hide InBounds, Updated, NextState;
  }

  // ----- the handshake

  function AfterSyn(s: nat): Tracked {
    Tracked(SYN_SENT, Side(1001, 1001, 65535, s), Side(0, 0, 1, 0))
  }

  function AfterSynAck(s: nat): Tracked {
    Tracked(SYN_RECEIVED, Side(1001, 66536, 65535, s), Side(5001, 5002, 65535, s))
  }

  lemma SynStep(p: Params, s: nat)
    requires s <= 14
    ensures StepOn(p, Start(), Arrival(SynOf(s), false)) == (true, AfterSyn(s))
  {
    WrapUnique(1001, 0, 1001);
    assert Pow2(0) == 1;
  }

  lemma SynAckStep(p: Params, s: nat)
    requires s <= 14
    ensures StepOn(p, AfterSyn(s), Arrival(SynAckOf(s), true)) == (true, AfterSynAck(s))
  {
    hide Wrap, Signed, Pow2;
    var g, f, t := SynAckOf(s), Side(5001, 5002, 65535, s), AfterSyn(s).fw;
    WrapUnique(5001, 0, 5001);
    WrapUnique(5002, 0, 5002);
    WrapUnique(66536, 0, 66536);
    assert Window(g, 0) == 65535 by { OneWindow(g); }
    assert Resynced(g, AfterSyn(s).bk) == f;
    Passing(p, f, t, 5000, 5001, 1001, 0);
    SignedSmall(0);
    SignedSmall(66536 - 1001);
    assert Updated(f, t, 5001, 1001, 65535) == Pair(AfterSynAck(s).bk, AfterSynAck(s).fw);
  }

  lemma OneWindow(g: Segment)
    requires g.win == 65535
    ensures Window(g, 0) == 65535
  {
    assert Pow2(0) == 1;
  }

  // ----- an acknowledgement far behind, with a closed window

  function BehindBy(s: nat): int { HALF + 2 - MaxWindow(s) }

  function BehindSides(s: nat): (Side, Side) {
    (Side(1001, 66536, MaxWindow(s), s), Side(5001, 5001 + MaxWindow(s), 65535, s))
  }

  lemma OpenStep(p: Params, s: nat)
    requires s <= 14
    ensures var r := StepOn(p, AfterSynAck(s), Arrival(AckOf(1001, 5001, 65535, 0), false));
      r.0 && (r.1.fw, r.1.bk) == BehindSides(s)
  {
    hide Wrap, Signed, Pow2, MaxWindow, InBounds, StepOn;
    var g, c := AckOf(1001, 5001, 65535, 0), AfterSynAck(s);
    SmallWindow(s);
    WrapUnique(1001, 0, 1001);
    WrapUnique(5001 + MaxWindow(s), 0, 5001 + MaxWindow(s));
    assert Window(g, s) == MaxWindow(s) by { WholeWindow(g, s); }
    assert 0 <= p.maxAckWin * Pow2(s);
    Passing(p, c.fw, c.bk, 1001, 1001, 5001, 0);
    AcceptedStep(p, c, g, false);
    SignedSmall(0);
    SignedSmall(5001 + MaxWindow(s) - 5002);
  }

  lemma WholeWindow(g: Segment, s: nat)
    requires g.win == 65535
    ensures Window(g, s) == MaxWindow(s)
  {
  }

  /** The last segment is accepted and the boundary of the other side moves back past its end. */
  lemma BehindStep(p: Params, s: nat, c: Tracked)
    requires s <= 14 && p.maxAckWin * Pow2(s) + MaxWindow(s) > HALF + 1 && (c.fw, c.bk) == BehindSides(s)
    ensures var r := StepOn(p, c, Arrival(AckOf(1001, Wrap(5001 - BehindBy(s)), 0, 0), false));
      r.0 && !SideOk(r.1.bk, s)
  {
    hide Wrap, Signed, Pow2, MaxWindow, InBounds, StepOn;
    SmallWindow(s);
    var a, w := BehindBy(s), MaxWindow(s);
    var g := AckOf(1001, Wrap(5001 - a), 0, 0);
    WrapUnique(1001, 0, 1001);
    WrapUnique(5001 - a, -1, M32 + 5001 - a);
    WrapUnique(5002 - a, -1, M32 + 5002 - a);
    WrapSum(5001 - a, 5001);
    Passing(p, c.fw, c.bk, 1001, 1001, g.ack, a);
    AcceptedStep(p, c, g, false);
    assert Wrap(g.ack + 1) == M32 + 5002 - a by { WrapUnique(g.ack + 1, 0, g.ack + 1); }
    SerialDifference(M32 + 5002 - a, 5001 + w, M32 + 5002 - a, M32 + 5002 - a - (HALF - 1)) by {
      FarBehind(a, w);
    }
    var t' := StepOn(p, c, Arrival(g, false)).1.bk;
    assert t' == c.bk.(maxend := M32 + 5002 - a);
    WrapUnique(t'.maxend - t'.end, 0, M32 + 1 - a);
  }

  lemma FarBehind(a: int, w: int)
    requires a == HALF + 2 - w
    ensures Wrap(5001 + w) == Wrap(M32 + 5002 - a - (HALF - 1))
  {
  }

  // ----- an acknowledgement far ahead, with the largest window

  function AheadSides(s: nat): (Side, Side) {
    (Side(1001, 1001 + MaxWindow(s), 65535, s), Side(5002, 5002, MaxWindow(s), s))
  }

  lemma DataStep(p: Params, s: nat)
    requires s <= 14
    ensures var r := StepOn(p, AfterSynAck(s), Arrival(AckOf(5001, 1001, 65535, 1), true));
      r.0 && (r.1.fw, r.1.bk) == AheadSides(s)
  {
    hide Wrap, Signed, Pow2, MaxWindow, InBounds, StepOn;
    var g, c := AckOf(5001, 1001, 65535, 1), AfterSynAck(s);
    SmallWindow(s);
    WrapUnique(5002, 0, 5002);
    WrapUnique(1001 + MaxWindow(s), 0, 1001 + MaxWindow(s));
    assert Window(g, s) == MaxWindow(s) by { WholeWindow(g, s); }
    assert 0 <= p.maxAckWin * Pow2(s);
    Passing(p, c.bk, c.fw, 5001, 5002, 1001, 0);
    AcceptedStep(p, c, g, true);
    SignedSmall(1);
    SignedSmall(0);
    SignedSmall(1001 + MaxWindow(s) - 66536);
  }

  /** The new end is beyond the old boundary, which looks newer than the new one. */
  lemma AheadMoves(f: Side, t: Side, m: nat, w: nat)
    requires f.end == 1001 && t.end == 5002 == t.maxend && 0 < m && 0 < w && HALF <= m + w <= HALF + 1
    requires Signed(t.end - (5002 + m)) == 0 - m
    ensures Updated(f, t, 1001, 5002 + m, w).to == t.(end := 5002 + m)
    ensures Wrap(t.maxend - (5002 + m)) == M32 - m
  {
    hide Wrap, Signed;
    WrapUnique(5002 + m + w, 0, 5002 + m + w);
    WrapShift(m + w, -1);
    SignedSame(m + w, m + w - M32);
    SignedSmall(m + w - M32);
    WrapUnique(t.maxend - (5002 + m), -1, M32 - m);
  }

  lemma AheadStep(p: Params, s: nat, c: Tracked)
    requires s <= 14 && p.maxAckWin + MaxWindow(s) >= HALF && p.maxAckWin * Pow2(s) + MaxWindow(s) <= HALF + 1
    requires (c.fw, c.bk) == AheadSides(s)
    ensures 5002 + p.maxAckWin < M32
    ensures var r := StepOn(p, c, Arrival(AckOf(1001, 5002 + p.maxAckWin, 65535, 0), false));
      r.0 && !SideOk(r.1.bk, s)
  {
    hide Wrap, Signed, Pow2, MaxWindow, InBounds, StepOn, Updated;
    SmallWindow(s);
    var m: int, w := p.maxAckWin, MaxWindow(s);
    MulMonotone(m, 1, Pow2(s));
    var g := AckOf(1001, 5002 + m, 65535, 0);
    assert Window(g, s) == w by { WholeWindow(g, s); }
    WrapUnique(1001, 0, 1001);
    Passing(p, c.fw, c.bk, 1001, 1001, g.ack, 0 - m);
    AcceptedStep(p, c, g, false);
    AheadMoves(c.fw, c.bk, m, w);
  }

  // ----- runs

  /** Four segments make a run. */
  lemma FourSteps(p: Params, s: nat, a: Arrival, b: Arrival)
    requires s <= 14 && SegmentOk(a.segment) && SegmentOk(b.segment) && ScaleOf(a.segment) == 0
    requires ScaleOf(b.segment) == 0
    requires var c := StepOn(p, AfterSynAck(s), a).1; !BothOk(StepOn(p, c, b).1, s)
    ensures !AlwaysInOrder(p, s)
  {
    hide StepOn, BothOk;
    SynStep(p, s);
    SynAckStep(p, s);
    var c := StepOn(p, AfterSynAck(s), a).1;
    var run := [Start(), AfterSyn(s), AfterSynAck(s), c, StepOn(p, c, b).1];
    var arrivals := [Arrival(SynOf(s), false), Arrival(SynAckOf(s), true), a, b];
    assert Run(p, run, arrivals);
    assert ScalesWithin(arrivals, s) && !BothOk(run[4], s);
  }

  lemma BehindBreaks(p: Params, s: nat)
    requires s <= 14 && p.maxAckWin * Pow2(s) + MaxWindow(s) > HALF + 1
    ensures !AlwaysInOrder(p, s)
  {
    hide StepOn, MaxWindow, Pow2, AlwaysInOrder, SideOk;
    OpenStep(p, s);
    var a := Arrival(AckOf(1001, 5001, 65535, 0), false);
    var b := Arrival(AckOf(1001, Wrap(5001 - BehindBy(s)), 0, 0), false);
    BehindStep(p, s, StepOn(p, AfterSynAck(s), a).1);
    FourSteps(p, s, a, b);
  }

  lemma AheadBreaks(p: Params, s: nat)
    requires s <= 14 && p.maxAckWin + MaxWindow(s) >= HALF && p.maxAckWin * Pow2(s) + MaxWindow(s) <= HALF + 1
    ensures !AlwaysInOrder(p, s)
  {
    hide StepOn, MaxWindow, Pow2, AlwaysInOrder, SideOk;
    DataStep(p, s);
    var a, b := Arrival(AckOf(5001, 1001, 65535, 1), true), Arrival(AckOf(1001, 5002 + p.maxAckWin, 65535, 0), false);
    AheadStep(p, s, StepOn(p, AfterSynAck(s), a).1);
    FourSteps(p, s, a, b);
  }

  /**
   * The windows stay in order in every run with scales up to s exactly under the bound on the
   * acknowledgement window and the scale, whenever the shifted acknowledgement window is a 32-bit int.
   */
  lemma InOrderExactly(p: Params, s: nat)
    requires s <= 14 && p.maxAckWin * Pow2(s) < HALF
    ensures AlwaysInOrder(p, s) <==> ScaleFits(p, s)
  {
    hide Run, ScalesWithin, BothOk;
    if ScaleFits(p, s) {
      hide ScaleFits;
      forall run: seq<Tracked>, arrivals: seq<Arrival>, k: nat |
        Run(p, run, arrivals) && ScalesWithin(arrivals, s) && 0 < k < |run|
        ensures BothOk(run[k], s)
      {
        WindowsInRun(p, run, arrivals, s, k);
      }
    } else if p.maxAckWin * Pow2(s) + MaxWindow(s) > HALF + 1 {
      BehindBreaks(p, s);
    } else {
      AheadBreaks(p, s);
    }
  }

  /** With the default acknowledgement window, windows stay in order up to a scale of 13 but not of 14. */
  lemma DefaultWindow(strict: bool)
    ensures AlwaysInOrder(Params(66000, strict), 13) && !AlwaysInOrder(Params(66000, strict), 14)
  {
    hide AlwaysInOrder, ScaleFits, Pow2;
    assert 66000 * Pow2(13) < HALF && 66000 * Pow2(14) < HALF by { Scale14(); }
    DefaultScale(strict);
    InOrderExactly(Params(66000, strict), 13);
    InOrderExactly(Params(66000, strict), 14);
  }

  /**
   * A run that breaks them: after the handshake with scale 14 and a full window, an acknowledgement of
   * a number 1073758210 behind with a closed window is accepted.
   */
  lemma DefaultRunBreaks(strict: bool)
    ensures var p, g := Params(66000, strict), AckOf(1001, 3221214087, 0, 0);
      var c := StepOn(p, AfterSynAck(14), Arrival(AckOf(1001, 5001, 65535, 0), false)).1;
      var r := StepOn(p, c, Arrival(g, false));
      r.0 && !SideOk(r.1.bk, 14)
  {
    hide StepOn, SideOk, Pow2, MaxWindow, Wrap;
    var p := Params(66000, strict);
    assert Pow2(14) == 16384 && MaxWindow(14) == 1073725440 by { Scale14(); }
    OpenStep(p, 14);
    WrapUnique(5001 - 1073758210, -1, 3221214087);
    BehindStep(p, 14, StepOn(p, AfterSynAck(14), Arrival(AckOf(1001, 5001, 65535, 0), false)).1);
  }

  lemma Scale14()
    ensures Pow2(13) == 8192 && Pow2(14) == 16384 && MaxWindow(14) == 1073725440
  {
    assert Pow2(10) == 1024;
  }
}
