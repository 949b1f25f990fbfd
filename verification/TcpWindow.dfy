/** The TCP window tracker npf_tcp_inwindow (src/kern/npf_state_tcp.c). */
module TcpWindow {
  import opened Words

  const M32 := 0x1_0000_0000
  const HALF := 0x8000_0000

  function Wrap(x: int): (r: nat)
    ensures r < M32
  {
    x % M32
  }

  /** The difference of two sequence numbers as a signed 32-bit number. */
  function Signed(x: int): (r: int)
    ensures -HALF <= r < HALF && Wrap(r) == Wrap(x)
  {
    var w := Wrap(x);
    SignedExact(x);
    if w < HALF then w else w - M32
  }

  lemma SignedExact(x: int)
    ensures var w := Wrap(x); Wrap(if w < HALF then w else w - M32) == w
  {
  }

  /** One side: nst_end, nst_maxend, nst_maxwin and nst_wscale. */
  datatype Side = Side(end: nat, maxend: nat, maxwin: nat, wscale: nat)

  /** The two sides, from the sender of the segment at hand. */
  datatype Pair = Pair(from: Side, to: Side)

  /** A segment: its numbers, window, data length and flags, and its window scale option. */
  datatype Segment = Segment(sn: nat, ack: nat, win: nat, len: int, syn: bool, fin: bool, rst: bool, hasAck: bool,
                             scale: Option<nat>)

  predicate SegmentOk(g: Segment) {
    g.sn < M32 && g.ack < M32 && g.win < 0x10000
  }

  /** SYN and FIN take a sequence number each. */
  function SegEnd(g: Segment): nat {
    Wrap(g.sn + g.len + (if g.syn then 1 else 0) + if g.fin then 1 else 0)
  }

  /** The scaled window, at least one. */
  function Window(g: Segment, wscale: nat): nat {
    if g.win == 0 then 1 else g.win * Pow2(wscale)
  }

  /** npf_fetch_tcpopts clamps the scale to fourteen. */
  function ScaleOf(g: Segment): nat {
    if g.scale.None? then 0 else if g.scale.value > 14 then 14 else g.scale.value
  }

  datatype Params = Params(maxAckWin: nat, strictRst: bool)

  /** The first packet of a connection. */
  function FirstPacket(g: Segment, f: Side): Pair {
    Pair(Side(SegEnd(g), SegEnd(g), Window(g, f.wscale), ScaleOf(g)), Side(0, 0, 1, 0))
  }

  /** The side of the sender is set anew while its nst_end is zero. */
  function Resynced(g: Segment, f: Side): Side {
    if f.end == 0 then Side(SegEnd(g), Wrap(SegEnd(g) + 1), Window(g, f.wscale), if g.syn then ScaleOf(g) else 0) else f
  }

  /** Numbers used by the checks: a missing acknowledgement is pretended, a RST to the first SYN fixed up. */
  function UsedAck(g: Segment, t: Side): nat {
    if !g.hasAck || (g.rst && g.ack == 0) then t.end else g.ack
  }

  predicate FixedUp(g: Segment, synSent: bool) {
    g.rst && g.sn == 0 && synSent
  }

  function UsedSeq(g: Segment, f: Side, synSent: bool): nat {
    if FixedUp(g, synSent) then f.end else g.sn
  }

  function UsedEnd(g: Segment, f: Side, synSent: bool): nat {
    if FixedUp(g, synSent) then f.end else SegEnd(g)
  }

  /** RST must be in order, when so configured. */
  predicate RstInOrder(p: Params, g: Segment, f: Side, synSent: bool) {
    g.rst && p.strictRst ==> Wrap(f.end - UsedSeq(g, f, synSent)) <= 1
  }

  /** The four boundaries, in serial arithmetic. */
  predicate InBounds(p: Params, f: Side, t: Side, sn: nat, end: nat, ack: nat) {
    && Signed(end - f.maxend) <= 0
    && Signed(sn - Wrap(f.end - t.maxwin)) >= 0
    && 0 - p.maxAckWin <= Signed(t.end - ack) <= p.maxAckWin * Pow2(f.wscale)
  }

  /** What an accepted segment changes. */
  function Updated(f: Side, t: Side, end: nat, ack: nat, win: nat): Pair {
    Pair(f.(maxwin := if f.maxwin < win then win else f.maxwin, end := if Signed(end - f.end) > 0 then end else f.end),
         t.(end := if Signed(t.end - ack) < 0 then ack else t.end,
            maxend := if Signed(Wrap(ack + win) - t.maxend) >= 0 then Wrap(ack + win) else t.maxend))
  }

  /** The whole tracker: whether the segment is accepted, and the sides afterwards. */
  function Track(p: Params, s: Pair, g: Segment, synSent: bool): (r: (bool, Pair)) {
    if s.from.maxwin == 0 then (true, FirstPacket(g, s.from))
    else
      var f, t, win := Resynced(g, s.from), s.to, Window(g, s.from.wscale);
      var sn, end, ack := UsedSeq(g, f, synSent), UsedEnd(g, f, synSent), UsedAck(g, t);
      if RstInOrder(p, g, f, synSent) && InBounds(p, f, t, sn, end, ack) then (true, Updated(f, t, end, ack, win))
      else (false, Pair(f, t))
  }

  // ----- the invariant

  /** The largest window with a scale of at most s. */
  function MaxWindow(s: nat): nat { 65535 * Pow2(s) }

  /** The bound under which serial comparisons cannot wrap. */
  predicate ScaleFits(p: Params, s: nat) {
    p.maxAckWin * Pow2(s) + MaxWindow(s) <= HALF + 1 && p.maxAckWin + MaxWindow(s) < HALF
  }

  predicate SideOk(x: Side, s: nat) {
    && x.end < M32 && x.maxend < M32 && 1 <= x.maxwin <= MaxWindow(s) && x.wscale <= s
    && Wrap(x.maxend - x.end) <= MaxWindow(s)
  }

  // ----- serial numbers as the residues of unbounded ones

  lemma WrapUnique(x: int, q: int, r: int)
    requires x == M32 * q + r && 0 <= r < M32
    ensures Wrap(x) == r
  {
  }

  /** Numbers that differ by a multiple of 2^32 have the same residue. */
  lemma WrapShift(x: int, q: int)
    ensures Wrap(x + M32 * q) == Wrap(x)
  {
  }

  lemma WrapSum(x: int, y: int)
    ensures Wrap(Wrap(x) + y) == Wrap(x + y) && Wrap(y + Wrap(x)) == Wrap(x + y) && Wrap(y - Wrap(x)) == Wrap(y - x)
  {
    var q := x / M32;
    assert x == M32 * q + Wrap(x);
    WrapShift(x + y, -q);
    WrapShift(y - x, q);
  }

  lemma SignedSmall(v: int)
    requires -HALF <= v < HALF
    ensures Signed(v) == v
  {
  }

  lemma SignedSame(x: int, y: int)
    requires Wrap(x) == Wrap(y)
    ensures Signed(x) == Signed(y)
  {
  }

  /** A serial difference within half the space is the difference of the unbounded numbers. */
  lemma SerialDifference(x: int, y: int, ux: int, uy: int)
    requires Wrap(x) == Wrap(ux) && Wrap(y) == Wrap(uy) && -HALF <= ux - uy < HALF
    ensures Signed(x - y) == ux - uy
  {
    WrapSum(x, -y);
    WrapSum(y, Wrap(x));
    WrapSum(ux, -uy);
    WrapSum(uy, Wrap(ux));
    SignedSame(x - y, ux - uy);
    SignedSmall(ux - uy);
  }

  // ----- the unbounded tracker

  /** The boundaries of one side in unbounded sequence space. */
  datatype Bounds = Bounds(end: int, maxend: int, maxwin: nat)

  predicate Represents(x: Side, u: Bounds) {
    Wrap(u.end) == x.end && u.maxend == u.end + Wrap(x.maxend - x.end) && u.maxwin == x.maxwin
  }

  lemma RepresentsMaxend(x: Side, u: Bounds)
    requires Represents(x, u) && x.maxend < M32
    ensures Wrap(u.maxend) == x.maxend
  {
  }

  function Max(a: int, b: int): int { if a < b then b else a }

  /** A segment with its numbers placed in unbounded sequence space. */
  datatype Placed = Placed(sn: int, end: int, ack: int)

  /** The numbers nearest to the boundaries they are compared with. */
  function Place(f: Side, t: Side, uf: Bounds, ut: Bounds, sn: nat, end: nat, ack: nat): Placed {
    Placed(uf.end - t.maxwin + Signed(sn - Wrap(f.end - t.maxwin)), uf.maxend + Signed(end - f.maxend),
           ut.end - Signed(t.end - ack))
  }

  /** Boundaries I to IV of the tracker, over the integers. */
  predicate Within(p: Params, uf: Bounds, ut: Bounds, wscale: nat, g: Placed) {
    && g.end <= uf.maxend
    && g.sn >= uf.end - ut.maxwin
    && g.ack <= ut.end + p.maxAckWin
    && g.ack >= ut.end - p.maxAckWin * Pow2(wscale)
  }

  function SenderAfter(u: Bounds, g: Placed, win: nat): Bounds {
    Bounds(Max(u.end, g.end), u.maxend, Max(u.maxwin, win))
  }

  function ReceiverAfter(u: Bounds, g: Placed, win: nat): Bounds {
    Bounds(Max(u.end, g.ack), Max(u.maxend, g.ack + win), u.maxwin)
  }

  /** Placing a number changes it by a multiple of 2^32 only. */
  lemma PlacedNumber(base: int, b: nat, x: nat)
    requires Wrap(base) == b && x < M32
    ensures Wrap(base + Signed(x - b)) == x && Wrap(base - Signed(b - x)) == x
  {
    hide Wrap, Signed;
    WrapSum(base, Signed(x - b));
    WrapSum(Signed(x - b), b);
    WrapSum(x - b, b);
    WrapSum(base, 0 - Signed(b - x));
    WrapSum(Signed(b - x), b);
    WrapSum(b - x, b);
    WrapUnique(x, 0, x);
  }

  /** Placed numbers are the segment's own, up to multiples of 2^32. */
  lemma PlacedSame(f: Side, t: Side, uf: Bounds, ut: Bounds, sn: nat, end: nat, ack: nat)
    requires Represents(f, uf) && Represents(t, ut) && f.maxend < M32 && sn < M32 && end < M32 && ack < M32
    ensures var g := Place(f, t, uf, ut, sn, end, ack); Wrap(g.sn) == sn && Wrap(g.end) == end && Wrap(g.ack) == ack
  {
    hide Wrap, Signed;
    RepresentsMaxend(f, uf);
    WrapSum(uf.end, 0 - t.maxwin);
    PlacedNumber(uf.end - t.maxwin, Wrap(f.end - t.maxwin), sn);
    PlacedNumber(uf.maxend, f.maxend, end);
    PlacedNumber(ut.end, t.end, ack);
  }

  lemma WindowFits(p: Params, s: nat, wscale: nat)
    requires ScaleFits(p, s) && wscale <= s
    ensures p.maxAckWin * Pow2(wscale) + MaxWindow(s) <= HALF + 1 && MaxWindow(s) >= 65535
    ensures p.maxAckWin * Pow2(wscale) >= p.maxAckWin
  {
    Pow2Monotone(wscale, s);
    Pow2Monotone(0, wscale);
    MulMonotone(p.maxAckWin, Pow2(wscale), Pow2(s));
    MulMonotone(p.maxAckWin, 1, Pow2(wscale));
  }

  /** The sender's side after an accepted segment. */
  lemma SenderRefines(p: Params, s: nat, f: Side, t: Side, uf: Bounds, ut: Bounds, sn: nat, end: nat, ack: nat,
                      win: nat)
    requires ScaleFits(p, s) && SideOk(f, s) && SideOk(t, s) && Represents(f, uf) && Represents(t, ut)
    requires InBounds(p, f, t, sn, end, ack) && sn < M32 && end < M32 && ack < M32 && 1 <= win <= MaxWindow(s)
    ensures var g := Place(f, t, uf, ut, sn, end, ack); var f' := Updated(f, t, end, ack, win).from;
      SideOk(f', s) && Represents(f', SenderAfter(uf, g, win))
  {
    hide Signed, Wrap;
    var g := Place(f, t, uf, ut, sn, end, ack);
    WindowFits(p, s, f.wscale);
    PlacedSame(f, t, uf, ut, sn, end, ack);
    RepresentsMaxend(f, uf);
    assert Wrap(f.end) == Wrap(uf.end) by { WrapUnique(f.end, 0, f.end); }
    assert Wrap(end) == Wrap(g.end) by { WrapUnique(end, 0, end); }
    assert Signed(end - f.end) == g.end - uf.end by {
      assert -HALF <= Signed(end - f.maxend);
      SerialDifference(end, f.end, g.end, uf.end);
    }
    if Signed(end - f.end) > 0 {
      assert Wrap(f.maxend) == Wrap(uf.maxend) by { WrapUnique(f.maxend, 0, f.maxend); }
      DistanceIs(f.maxend, end, uf.maxend, g.end);
    }
  }

  lemma DistanceIs(x: int, y: int, ux: int, uy: int)
    requires Wrap(x) == Wrap(ux) && Wrap(y) == Wrap(uy) && 0 <= ux - uy < HALF
    ensures Wrap(x - y) == ux - uy
  {
    SerialDifference(x, y, ux, uy);
    WrapUnique(ux - uy, 0, ux - uy);
  }

  /** The receiver's side after an accepted segment. */
  lemma ReceiverRefines(p: Params, s: nat, f: Side, t: Side, uf: Bounds, ut: Bounds, sn: nat, end: nat, ack: nat,
                        win: nat)
    requires ScaleFits(p, s) && SideOk(f, s) && SideOk(t, s) && Represents(f, uf) && Represents(t, ut)
    requires InBounds(p, f, t, sn, end, ack) && sn < M32 && end < M32 && ack < M32 && 1 <= win <= MaxWindow(s)
    ensures var g := Place(f, t, uf, ut, sn, end, ack); var t' := Updated(f, t, end, ack, win).to;
      SideOk(t', s) && Represents(t', ReceiverAfter(ut, g, win))
  {
    hide Signed, Wrap;
    var g := Place(f, t, uf, ut, sn, end, ack);
    WindowFits(p, s, f.wscale);
    PlacedSame(f, t, uf, ut, sn, end, ack);
    RepresentsMaxend(t, ut);
    WrapUnique(t.end, 0, t.end);
    WrapUnique(t.maxend, 0, t.maxend);
    WrapUnique(ack, 0, ack);
    WrapSum(g.ack, win);
    assert Signed(Wrap(ack + win) - t.maxend) == g.ack + win - ut.maxend by {
      assert Wrap(Wrap(ack + win)) == Wrap(ack + win) by { WrapUnique(Wrap(ack + win), 0, Wrap(ack + win)); }
      assert Wrap(g.ack + win) == Wrap(ack + win);
      assert ut.maxend <= ut.end + MaxWindow(s) && g.ack <= ut.end + p.maxAckWin;
      assert g.ack + win - ut.maxend < HALF;
      assert g.ack + win - ut.maxend >= -HALF;
      SerialDifference(Wrap(ack + win), t.maxend, g.ack + win, ut.maxend);
    }
    var e' := if Signed(t.end - ack) < 0 then ack else t.end;
    var m' := if Signed(Wrap(ack + win) - t.maxend) >= 0 then Wrap(ack + win) else t.maxend;
    var u' := ReceiverAfter(ut, g, win);
    assert Wrap(e') == Wrap(u'.end);
    assert Wrap(m') == Wrap(u'.maxend) by { WrapUnique(Wrap(ack + win), 0, Wrap(ack + win)); }
    DistanceIs(m', e', u'.maxend, u'.end);
  }

  // ----- the whole tracker

  lemma WindowRange(g: Segment, wscale: nat, s: nat)
    requires SegmentOk(g) && wscale <= s
    ensures 1 <= Window(g, wscale) <= MaxWindow(s)
  {
    Pow2Monotone(wscale, s);
    Pow2Monotone(0, wscale);
    MulMonotone(g.win, Pow2(wscale), Pow2(s));
    MulMonotone(g.win, 1, Pow2(wscale));
    MulMonotone(Pow2(s), g.win, 65535);
    MulMonotone(65535, 1, Pow2(s));
  }

  /** The boundaries after a segment, in unbounded space: for the sender and for the receiver. */
  function BoundsAfter(p: Params, c: Pair, uf: Bounds, ut: Bounds, g: Segment, synSent: bool): (Bounds, Bounds) {
    var f, t, win := Resynced(g, c.from), c.to, Window(g, c.from.wscale);
    var uf' := if c.from.end == 0 then Bounds(SegEnd(g), SegEnd(g) + 1, win) else uf;
    var placed := Place(f, t, uf', ut, UsedSeq(g, f, synSent), UsedEnd(g, f, synSent), UsedAck(g, t));
    if Track(p, c, g, synSent).0 then (SenderAfter(uf', placed, win), ReceiverAfter(ut, placed, win)) else (uf', ut)
  }

  lemma ResyncedOk(g: Segment, f: Side, s: nat, u: Bounds)
    requires SegmentOk(g) && SideOk(f, s) && Represents(f, u) && ScaleOf(g) <= s
    ensures var win := Window(g, f.wscale);
      var u' := if f.end == 0 then Bounds(SegEnd(g), SegEnd(g) + 1, win) else u;
      SideOk(Resynced(g, f), s) && Represents(Resynced(g, f), u')
  {
    hide Wrap;
    WindowRange(g, f.wscale, s);
    if f.end == 0 {
      var e: int := SegEnd(g);
      WrapUnique(e, 0, e);
      WrapSum(e + 1, 0 - e);
      WrapUnique(1, 0, 1);
      Pow2Monotone(0, s);
      MulMonotone(65535, 1, Pow2(s));
    }
  }

  /**
   * Every segment after the first, accepted or not, keeps both sides in order, and they go on
   * representing the unbounded tracker.
   */
  lemma TrackRefines(p: Params, s: nat, c: Pair, uf: Bounds, ut: Bounds, g: Segment, synSent: bool)
    requires ScaleFits(p, s) && SegmentOk(g) && ScaleOf(g) <= s
    requires SideOk(c.from, s) && SideOk(c.to, s) && Represents(c.from, uf) && Represents(c.to, ut)
    ensures var c' := Track(p, c, g, synSent).1;
      var u' := BoundsAfter(p, c, uf, ut, g, synSent);
      SideOk(c'.from, s) && SideOk(c'.to, s) && Represents(c'.from, u'.0) && Represents(c'.to, u'.1)
  {
    hide Wrap, Signed, SideOk, Represents, InBounds, Updated, Resynced, Place, ScaleFits, MaxWindow;
    SideFacts(c.from, s);
    SideFacts(c.to, s);
    ResyncedOk(g, c.from, s, uf);
    WindowRange(g, c.from.wscale, s);
    var f, t, win := Resynced(g, c.from), c.to, Window(g, c.from.wscale);
    SideFacts(f, s);
    var sn, end, ack := UsedSeq(g, f, synSent), UsedEnd(g, f, synSent), UsedAck(g, t);
    var uf' := if c.from.end == 0 then Bounds(SegEnd(g), SegEnd(g) + 1, win) else uf;
    if RstInOrder(p, g, f, synSent) && InBounds(p, f, t, sn, end, ack) {
      SenderRefines(p, s, f, t, uf', ut, sn, end, ack, win);
      ReceiverRefines(p, s, f, t, uf', ut, sn, end, ack, win);
    }
  }

  lemma SideFacts(x: Side, s: nat)
    requires SideOk(x, s)
    ensures x.maxwin != 0 && x.end < M32 && x.wscale <= s
  {
  }

  /** Without a resynchronisation the boundaries never move backwards: they are running maxima. */
  lemma BoundsAdvance(p: Params, c: Pair, uf: Bounds, ut: Bounds, g: Segment, synSent: bool)
    requires c.from.end != 0 && c.from.maxwin != 0
    ensures var u' := BoundsAfter(p, c, uf, ut, g, synSent);
      && u'.0.end >= uf.end && u'.0.maxend == uf.maxend && u'.0.maxwin >= uf.maxwin
      && u'.1.end >= ut.end && u'.1.maxend >= ut.maxend && u'.1.maxwin == ut.maxwin
    ensures Represents(c.from, uf) && Represents(c.to, ut) && RstInOrder(p, g, c.from, synSent) ==>
      (Track(p, c, g, synSent).0 <==>
       Within(p, uf, ut, c.from.wscale,
              Place(c.from, c.to, uf, ut, UsedSeq(g, c.from, synSent), UsedEnd(g, c.from, synSent), UsedAck(g, c.to))))
  {
  }

  /** The first packet puts both sides in order. */
  lemma FirstPacketOk(s: nat, g: Segment, f: Side)
    requires SegmentOk(g) && ScaleOf(g) <= s && f.wscale <= s
    ensures var c := FirstPacket(g, f);
      && SideOk(c.from, s) && SideOk(c.to, s)
      && Represents(c.from, Bounds(SegEnd(g), SegEnd(g), c.from.maxwin)) && Represents(c.to, Bounds(0, 0, 1))
  {
    hide Wrap;
    WindowRange(g, f.wscale, s);
    WrapUnique(0, 0, 0);
    WrapUnique(SegEnd(g), 0, SegEnd(g));
    Pow2Monotone(0, s);
    MulMonotone(65535, 1, Pow2(s));
  }

  lemma SmallWindow(s: nat)
    requires s <= 14
    ensures 65535 <= MaxWindow(s) <= 65535 * 16384
  {
    Pow2Monotone(s, 14);
    Pow2Monotone(0, s);
    assert Pow2(14) == 16384;
    MulMonotone(65535, Pow2(s), 16384);
    MulMonotone(65535, 1, Pow2(s));
  }

  /** With the default acknowledgement window the bound holds up to a scale of 13, but not at 14. */
  lemma DefaultScale(strict: bool)
    ensures ScaleFits(Params(66000, strict), 13) && !ScaleFits(Params(66000, strict), 14)
  {
    assert Pow2(13) == 8192 && Pow2(14) == 16384;
  }
}
