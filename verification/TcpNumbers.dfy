/**
  * The window tracker said from what the two ends send: with sequence numbers that never wrap, the boundaries
  * of a connection are running maxima over the fields of its segments.
  */
module TcpNumbers {
  import opened Words
  import opened TcpWindow
  import opened TcpStates

  /** A segment other than a reset, as its sender thinks of it: with unbounded numbers, and perhaps without an ACK. */
  datatype Sent = Sent(sn: int, ack: Option<int>, win: nat, len: int, syn: bool, fin: bool, scale: Option<nat>)

  function OnWire(x: Sent): Segment {
    Segment(Wrap(x.sn), if x.ack.Some? then Wrap(x.ack.value) else 0, x.win, x.len, x.syn, x.fin, false, x.ack.Some?,
            x.scale)
  }

  /** The number behind its last byte; SYN and FIN count. */
  function End(x: Sent): int {
    x.sn + x.len + (if x.syn then 1 else 0) + if x.fin then 1 else 0
  }

  /** What it acknowledges; without an ACK, all that is known to have been sent. */
  function Acked(x: Sent, end: int): int {
    if x.ack.Some? then x.ack.value else end
  }

  /** The window it announces, at least 1. */
  function Announced(x: Sent, wscale: nat): nat {
    if x.win == 0 then 1 else x.win * Pow2(wscale)
  }

  /** Its numbers are less than half the space from the boundaries. */
  predicate Near(uf: Bounds, ut: Bounds, x: Sent) {
    && -HALF <= End(x) - uf.maxend < HALF && -HALF <= x.sn - (uf.end - ut.maxwin) < HALF
    && -HALF <= ut.end - Acked(x, ut.end) < HALF
  }

  /** The four boundaries of the tracker. */
  predicate Allowed(p: Params, uf: Bounds, ut: Bounds, wscale: nat, x: Sent) {
    && End(x) <= uf.maxend && x.sn >= uf.end - ut.maxwin
    && ut.end - p.maxAckWin * Pow2(wscale) <= Acked(x, ut.end) <= ut.end + p.maxAckWin
  }

  lemma EndOnWire(x: Sent)
    ensures SegEnd(OnWire(x)) == Wrap(End(x))
  {
    hide Wrap;
    WrapSum(x.sn, End(x) - x.sn);
  }

  lemma AckOnWire(t: Side, ut: Bounds, x: Sent)
    requires Represents(t, ut)
    ensures UsedAck(OnWire(x), t) == Wrap(Acked(x, ut.end))
  {
  }

  lemma WrapTwice(x: int)
    ensures Wrap(Wrap(x)) == Wrap(x)
  {
  }

  /** Placing the numbers on the wire gives back the sender's. */
  lemma PlacedBack(f: Side, t: Side, uf: Bounds, ut: Bounds, x: Sent)
    requires Represents(f, uf) && Represents(t, ut) && f.maxend < M32 && Near(uf, ut, x)
    ensures var ack := Acked(x, ut.end);
      Place(f, t, uf, ut, Wrap(x.sn), Wrap(End(x)), Wrap(ack)) == Placed(x.sn, End(x), ack)
  {
    hide Wrap, Signed;
    var ack := Acked(x, ut.end);
    RepresentsMaxend(f, uf);
    WrapTwice(x.sn);
    WrapTwice(End(x));
    WrapTwice(ack);
    WrapTwice(uf.end);
    WrapTwice(ut.end);
    WrapTwice(uf.maxend);
    WrapTwice(f.end - t.maxwin);
    WrapSum(uf.end, 0 - t.maxwin);
    SerialDifference(Wrap(x.sn), Wrap(f.end - t.maxwin), x.sn, uf.end - t.maxwin);
    SerialDifference(Wrap(End(x)), f.maxend, End(x), uf.maxend);
    SerialDifference(t.end, Wrap(ack), ut.end, ack);
  }

  /**
    * A segment near the boundaries is accepted exactly when it keeps the four of them, and then the boundaries
    * are the maxima of what they were and of the segment's own numbers.
    */
  lemma SegmentExact(p: Params, s: nat, c: Pair, uf: Bounds, ut: Bounds, x: Sent, synSent: bool)
    requires ScaleFits(p, s) && x.win < 0x10000 && ScaleOf(OnWire(x)) <= s && c.from.end != 0
    requires SideOk(c.from, s) && SideOk(c.to, s) && Represents(c.from, uf) && Represents(c.to, ut)
    requires Near(uf, ut, x)
    ensures var r := Track(p, c, OnWire(x), synSent); var win := Announced(x, c.from.wscale);
      var ack := Acked(x, ut.end);
      && SideOk(r.1.from, s) && SideOk(r.1.to, s)
      && r.1.from.wscale == c.from.wscale && r.1.to.wscale == c.to.wscale
      && (r.0 <==> Allowed(p, uf, ut, c.from.wscale, x))
      && Represents(r.1.from, if r.0 then Bounds(Max(uf.end, End(x)), uf.maxend, Max(uf.maxwin, win)) else uf)
      && Represents(r.1.to, if r.0 then Bounds(Max(ut.end, ack), Max(ut.maxend, ack + win), ut.maxwin) else ut)
  {
    hide Wrap, Signed, SideOk, Represents, InBounds, ScaleFits, MaxWindow, Near;
    var g := OnWire(x);
    SideFacts(c.from, s);
    SideBound(c.from, s);
    EndOnWire(x);
    AckOnWire(c.to, ut, x);
    PlacedBack(c.from, c.to, uf, ut, x);
    TrackRefines(p, s, c, uf, ut, g, synSent);
    BoundsAdvance(p, c, uf, ut, g, synSent);
  }

  lemma SideBound(x: Side, s: nat)
    requires SideOk(x, s)
    ensures x.maxend < M32
  {
  }

  // ----- window scales

  /** The window scale of a side is the option of the SYN that set it, at most 14, and 0 without one. */
  lemma ScaleTaken(p: Params, c: Pair, g: Segment, synSent: bool)
    ensures var f := Track(p, c, g, synSent).1.from; var option := if g.scale.Some? then g.scale.value else 0;
      && (c.from.maxwin == 0 ==> f.wscale == Smaller(option, 14))
      && (c.from.maxwin != 0 && c.from.end == 0 ==> f.wscale == if g.syn then Smaller(option, 14) else 0)
      && (c.from.maxwin != 0 && c.from.end != 0 ==> f.wscale == c.from.wscale)
  {
    hide Wrap, Signed, InBounds, RstInOrder, Pow2;
  }

  function Smaller(a: nat, b: nat): nat { if a < b then a else b }

  /** In every run, whatever the options say, no scale is above 14. */
  lemma {:induction false} ScalesClamped(p: Params, run: seq<Tracked>, arrivals: seq<Arrival>, k: nat)
    requires Run(p, run, arrivals) && k < |run|
    ensures run[k].fw.wscale <= 14 && run[k].bk.wscale <= 14
  {
    hide NextState, Track;
    if k > 0 {
      ScalesClamped(p, run, arrivals, k - 1);
      var a := arrivals[k - 1];
      assert run[k] == StepOn(p, run[k - 1], a).1;
      ScaleTaken(p, Sides(run[k - 1], a.back), a.segment, run[k - 1].state == SYN_SENT);
      OtherScale(p, Sides(run[k - 1], a.back), a.segment, run[k - 1].state == SYN_SENT);
    }
  }

  lemma OtherScale(p: Params, c: Pair, g: Segment, synSent: bool)
    ensures Track(p, c, g, synSent).1.to.wscale == if c.from.maxwin == 0 then 0 else c.to.wscale
  {
    hide Wrap, Signed, InBounds, RstInOrder, Pow2;
  }

  // ----- whole runs

  /** A run, what the ends sent from turn m on, and the boundaries at that turn: forwards and backwards. */
  datatype Exchange = Exchange(p: Params, run: seq<Tracked>, arrivals: seq<Arrival>, sent: seq<Sent>, m: nat,
                               fw: Bounds, bk: Bounds)

  ghost predicate ExchangeOk(e: Exchange) {
    && Run(e.p, e.run, e.arrivals) && |e.sent| == |e.arrivals| && e.m < |e.run|
    && forall k :: e.m <= k < |e.arrivals| ==> e.arrivals[k].segment == OnWire(e.sent[k])
  }

  /** The highest number behind a byte that one end is known to have sent: by its segments, or by an ACK of them. */
  function HighestEnd(e: Exchange, back: bool, k: nat): int
    requires e.m <= k < |e.run| && |e.run| == |e.arrivals| + 1 && |e.sent| == |e.arrivals|
  {
    if k == e.m then (if back then e.bk.end else e.fw.end)
    else
      var h, x := HighestEnd(e, back, k - 1), e.sent[k - 1];
      if !Accepted(e.p, e.run, e.arrivals, k - 1) then h
      else Max(h, if e.arrivals[k - 1].back == back then End(x) else Acked(x, h))
  }

  /** The highest number the other end has allowed it: an ACK and the window announced with it. */
  function HighestAllowed(e: Exchange, back: bool, k: nat): int
    requires e.m <= k < |e.run| && |e.run| == |e.arrivals| + 1 && |e.sent| == |e.arrivals|
  {
    if k == e.m then (if back then e.bk.maxend else e.fw.maxend)
    else
      var h, x := HighestAllowed(e, back, k - 1), e.sent[k - 1];
      if !Accepted(e.p, e.run, e.arrivals, k - 1) || e.arrivals[k - 1].back == back then h
      else Max(h, Acked(x, HighestEnd(e, back, k - 1)) + Announced(x, Sides(e.run[e.m], !back).from.wscale))
  }

  /** The largest window it has announced. */
  function HighestWindow(e: Exchange, back: bool, k: nat): nat
    requires e.m <= k < |e.run| && |e.run| == |e.arrivals| + 1 && |e.sent| == |e.arrivals|
  {
    if k == e.m then (if back then e.bk.maxwin else e.fw.maxwin)
    else
      var h, x := HighestWindow(e, back, k - 1), e.sent[k - 1];
      if !Accepted(e.p, e.run, e.arrivals, k - 1) || e.arrivals[k - 1].back != back then h
      else Max(h, Announced(x, Sides(e.run[e.m], back).from.wscale))
  }

  function Boundaries(e: Exchange, back: bool, k: nat): Bounds
    requires e.m <= k < |e.run| && |e.run| == |e.arrivals| + 1 && |e.sent| == |e.arrivals|
  {
    Bounds(HighestEnd(e, back, k), HighestAllowed(e, back, k), HighestWindow(e, back, k))
  }

  /** Segment k is near the boundaries before it, and its sender's side has been set. */
  predicate NearAt(e: Exchange, s: nat, k: nat)
    requires e.m <= k < |e.arrivals| && |e.run| == |e.arrivals| + 1 && |e.sent| == |e.arrivals|
  {
    var a, x := e.arrivals[k], e.sent[k];
    && x.win < 0x10000 && ScaleOf(OnWire(x)) <= s && Sides(e.run[k], a.back).from.end != 0
    && Near(Boundaries(e, a.back, k), Boundaries(e, !a.back, k), x)
  }

  predicate StandsFor(c: Tracked, start: Tracked, s: nat, fw: Bounds, bk: Bounds) {
    && SideOk(c.fw, s) && SideOk(c.bk, s) && Represents(c.fw, fw) && Represents(c.bk, bk)
    && c.fw.wscale == start.fw.wscale && c.bk.wscale == start.bk.wscale
  }

  lemma OneTurn(e: Exchange, s: nat, k: nat)
    requires ExchangeOk(e) && ScaleFits(e.p, s) && e.m <= k < |e.arrivals| && NearAt(e, s, k)
    requires StandsFor(e.run[k], e.run[e.m], s, Boundaries(e, false, k), Boundaries(e, true, k))
    ensures StandsFor(e.run[k + 1], e.run[e.m], s, Boundaries(e, false, k + 1), Boundaries(e, true, k + 1))
    ensures var a, x := e.arrivals[k], e.sent[k];
      Accepted(e.p, e.run, e.arrivals, k) <==>
      Allowed(e.p, Boundaries(e, a.back, k), Boundaries(e, !a.back, k), Sides(e.run[e.m], a.back).from.wscale, x)
  {
    hide Wrap, SideOk, Represents, Near, ScaleFits, Track, NextState, Allowed, OnWire, Announced;
    var a, x := e.arrivals[k], e.sent[k];
    assert e.run[k + 1] == StepOn(e.p, e.run[k], a).1 && a.segment == OnWire(x);
    SegmentExact(e.p, s, Sides(e.run[k], a.back), Boundaries(e, a.back, k), Boundaries(e, !a.back, k), x,
                 e.run[k].state == SYN_SENT);
  }

  /** In every run, from any turn on, both sides are the running maxima over what the ends sent. */
  lemma {:induction false} RunningMaxima(e: Exchange, s: nat, k: nat)
    requires ExchangeOk(e) && ScaleFits(e.p, s) && e.m <= k < |e.run|
    requires StandsFor(e.run[e.m], e.run[e.m], s, e.fw, e.bk)
    requires forall i :: e.m <= i < k ==> NearAt(e, s, i)
    ensures StandsFor(e.run[k], e.run[e.m], s, Boundaries(e, false, k), Boundaries(e, true, k))
  {
    hide StandsFor, NearAt, ScaleFits, StepOn, Announced;
    if k > e.m {
      RunningMaxima(e, s, k - 1);
      assert NearAt(e, s, k - 1);
      OneTurn(e, s, k - 1);
    }
  }
}
