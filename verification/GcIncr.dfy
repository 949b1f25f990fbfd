/** The incremental garbage collection of npf_conndb_gc_incr (src/kern/npf_conndb.c). */
module GcIncr {
  import opened Words

  predicate Distinct(s: seq<nat>) {
    forall i, j :: 0 <= i < j < |s| ==> s[i] != s[j]
  }

  /** The circular order from one position on. */
  function Turned(s: seq<nat>, i: nat): seq<nat>
    requires i <= |s|
  {
    s[i..] + s[..i]
  }

  function IndexOf(s: seq<nat>, x: nat): (i: nat)
    requires x in s
    ensures i < |s| && s[i] == x
  {
    if s[0] == x then 0 else 1 + IndexOf(s[1..], x)
  }

  lemma IndexUnique(s: seq<nat>, i: nat)
    requires Distinct(s) && i < |s|
    ensures IndexOf(s, s[i]) == i
  {
  }

  function Survivors(s: seq<nat>, expired: nat -> bool): seq<nat> {
    if s == [] then []
    else Survivors(s[..|s| - 1], expired) + (if expired(s[|s| - 1]) then [] else [s[|s| - 1]])
  }

  /** The connections moved to the G/C list, the last one first. */
  function Moved(s: seq<nat>, expired: nat -> bool): seq<nat> {
    if s == [] then []
    else (if expired(s[|s| - 1]) then [s[|s| - 1]] else []) + Moved(s[..|s| - 1], expired)
  }

  lemma {:induction false} SurvivorsFrom(s: seq<nat>, expired: nat -> bool)
    ensures forall x :: x in Survivors(s, expired) <==> x in s && !expired(x)
    ensures |Survivors(s, expired)| + |Moved(s, expired)| == |s|
  {
    if s != [] {
      SurvivorsFrom(s[..|s| - 1], expired);
      assert s == s[..|s| - 1] + [s[|s| - 1]];
    }
  }

  lemma NextStep(r: seq<nat>, k: nat, expired: nat -> bool)
    requires k < |r|
    ensures Survivors(r[..k + 1], expired) == Survivors(r[..k], expired) + (if expired(r[k]) then [] else [r[k]])
    ensures Moved(r[..k + 1], expired) == (if expired(r[k]) then [r[k]] else []) + Moved(r[..k], expired)
    ensures r[k..] == [r[k]] + r[k + 1..]
  {
    assert r[..k + 1][..k] == r[..k];
  }

  lemma TurnedOn(s: seq<nat>, i: nat)
    requires i < |s|
    ensures Turned(s, if i + 1 < |s| then i + 1 else 0) == Turned(s, i)[1..] + [s[i]]
  {
  }

  lemma TurnedOff(s: seq<nat>, i: nat)
    requires i < |s|
    ensures var s' := s[..i] + s[i + 1..]; Turned(s', if i < |s'| then i else 0) == Turned(s, i)[1..]
  {
  }

  function Head(s: seq<nat>): Option<nat> {
    if s == [] then None else Some(s[0])
  }

  function Min(a: nat, b: nat): nat {
    if a < b then a else b
  }

  /** Whose turn comes next when the order is q. */
  lemma TurnedHead(s: seq<nat>, i: nat)
    requires i < |s|
    ensures |Turned(s, i)| == |s| && Turned(s, i)[0] == s[i]
    ensures Distinct(s) ==> Distinct(Turned(s, i))
    ensures forall x :: x in Turned(s, i) <==> x in s
  {
  }

  /** The lists of a connection database and the connection to be inspected next. */
  class ConnLists {
    var list: seq<nat>
    var gclist: seq<nat>
    var marker: Option<nat>

    /** The marker is null or on the main list. */
    ghost predicate Valid()
      reads this
    {
      Distinct(list) && (marker.Some? ==> marker.value in list)
    }

    /** The connections in the order in which they will be inspected. */
    ghost function Order(): seq<nat>
      requires Valid()
      reads this
    {
      OrderFrom(list, marker)
    }

    constructor ()
      ensures Valid() && list == [] && gclist == [] && marker == None
    {
      list, gclist, marker := [], [], None;
    }

    /** npf_conndb_getnext: the circular order from the next connection on ends with this one. */
    method GetNext(con: Option<nat>) returns (next: Option<nat>)
      requires Distinct(list) && (con.Some? ==> con.value in list)
      ensures next == NextOf(list, con)
      ensures con.None? ==> next == Head(list)
      ensures con.Some? ==>
        && next.Some? && next.value in list
        && OrderFrom(list, next) == OrderFrom(list, con)[1..] + [con.value]
    {
      if con.Some? {
        NextTurn(list, con.value);
      }
      if con.None? || IndexOf(list, con.value) + 1 == |list| {
        next := if list == [] then None else Some(list[0]);
      } else {
        next := Some(list[IndexOf(list, con.value) + 1]);
      }
    }

    /**
     * Unlink a connection and put it first on the G/C list: nothing else leaves the main list, and the
     * circular order from its successor on is what followed it.
     */
    method MoveToGc(con: nat)
      requires Distinct(list) && con in list
      modifies this
      ensures list == Unlinked(old(list), con) && gclist == [con] + old(gclist) && marker == old(marker)
      ensures Distinct(list) && forall x :: x in list <==> x in old(list) && x != con
      ensures var next := NextOf(old(list), Some(con));
        list != [] ==> next.Some? && next.value in list && OrderFrom(list, next) == OrderFrom(old(list), Some(con))[1..]
    {
      NextTurnUnlinked(list, con);
      var i := IndexOf(list, con);
      list := list[..i] + list[i + 1..];
      gclist := [con] + gclist;
    }

    /** One turn of the scan; stop says that the round is complete. */
    method Inspect(con: nat, expired: nat -> bool, ghost r: seq<nat>, ghost k: nat)
      returns (next: Option<nat>, moved: bool, stop: bool)
      requires Scanning(r, k, expired, list, con, marker)
      modifies this
      ensures k < |r| && con == r[k] && moved == expired(con)
      ensures gclist == (if expired(con) then [con] else []) + old(gclist)
      ensures stop ==>
        k + 1 == |r| && next.Some? && next.value in list && OrderFrom(list, next) == After(r, k + 1, expired)
      ensures !stop && next.Some? ==> Scanning(r, k + 1, expired, list, next.value, marker)
      ensures !stop && next.None? ==> k + 1 == |r| && list == [] && Survivors(r, expired) == []
      ensures Distinct(list)
    {
      hide After, Mark, Survivors, Moved, NextOf, Unlinked, Distinct, OrderFrom;
      assert Distinct(list);
      ScanEnd(r, k, expired, list, con, marker);
      next := GetNext(Some(con));
      moved, stop := expired(con), false;
      if moved {
        GoneStep(r, k, expired, list, con, marker);
        MoveToGc(con);
        if next == Some(con) {
          next := None;
        }
        if marker == Some(con) {
          marker := next;
          return;
        }
      } else {
        KeptStep(r, k, expired, list, con, marker);
      }
      stop := next == marker;
    }

    /**
     * npf_conndb_gc_incr. One call inspects the first connections of the circular order, up to step of
     * them and none twice, and moves the expired ones away.
     */
    method Collect(step: nat, expired: nat -> bool) returns (count: nat, ghost inspected: seq<nat>)
      requires Valid()
      modifies this
      ensures Valid()
      ensures inspected == old(Order())[..Min(step, |old(Order())|)]
      ensures Order() == After(old(Order()), Min(step, |old(Order())|), expired)
      ensures gclist == Moved(inspected, expired) + old(gclist) && count == |Moved(inspected, expired)|
    {
      hide Scanning, After, Mark, Survivors, Moved, NextOf, Unlinked, Distinct, OrderFrom;
      ghost var r := Order();
      NothingMoved(r, expired);
      var con := marker;
      if con.None? {
        con := GetNext(None);
        marker := con;
      }
      StartScan(list, old(marker), con, expired);
      var target := step;
      var stop := false;
      ghost var k: nat := 0;
      count := 0;
      while !stop && con.Some? && target > 0
        invariant 0 <= target && target + k == step && k <= |r| && Distinct(list)
        invariant !stop && con.Some? ==> Scanning(r, k, expired, list, con.value, marker)
        invariant !stop && con.None? ==> k == |r| && list == [] && Survivors(r, expired) == []
        invariant stop ==> k == |r| && con.Some? && con.value in list && OrderFrom(list, con) == After(r, k, expired)
        invariant gclist == Moved(r[..k], expired) + old(gclist) && count == |Moved(r[..k], expired)|
        decreases target
      {
        target := target - 1;
        ScanEnd(r, k, expired, list, con.value, marker);
        NextStep(r, k, expired);
        var moved;
        con, moved, stop := Inspect(con.value, expired, r, k);
        count := count + if moved then 1 else 0;
        k := k + 1;
      }
      if con.None? {
        AllGone(r, expired);
      } else if !stop {
        ScanEnd(r, k, expired, list, con.value, marker);
      }
      marker := con;
      inspected := r[..k];
    }
  }

  function OrderFrom(list: seq<nat>, from: Option<nat>): seq<nat>
    requires from.Some? ==> from.value in list
  {
    if from.None? then list else Turned(list, IndexOf(list, from.value))
  }

  function NextOf(list: seq<nat>, con: Option<nat>): Option<nat>
    requires con.Some? ==> con.value in list
  {
    if con.None? || IndexOf(list, con.value) + 1 == |list| then Head(list)
    else Some(list[IndexOf(list, con.value) + 1])
  }

  function Unlinked(list: seq<nat>, con: nat): seq<nat>
    requires con in list
  {
    var i := IndexOf(list, con);
    list[..i] + list[i + 1..]
  }

  /** Going on to the next connection. */
  lemma NextTurn(list: seq<nat>, con: nat)
    requires Distinct(list) && con in list
    ensures var next := NextOf(list, Some(con));
      && next.Some? && next.value in list
      && OrderFrom(list, next) == OrderFrom(list, Some(con))[1..] + [con]
  {
    var i := IndexOf(list, con);
    TurnedOn(list, i);
    IndexUnique(list, if i + 1 < |list| then i + 1 else 0);
  }

  /** Going on to the next connection after this one has been unlinked. */
  lemma NextTurnUnlinked(list: seq<nat>, con: nat)
    requires Distinct(list) && con in list
    ensures var list', next := Unlinked(list, con), NextOf(list, Some(con));
      && Distinct(list') && (forall x :: x in list' <==> x in list && x != con)
      && (list' == [] <==> next == Some(con))
      && (list' != [] ==>
            next.Some? && next.value in list' && OrderFrom(list', next) == OrderFrom(list, Some(con))[1..])
  {
    var i := IndexOf(list, con);
    var list' := Unlinked(list, con);
    TurnedOff(list, i);
    assert list == list[..i] + [con] + list[i + 1..];
    assert forall x :: x in list' <==> x in list && x != con by {
      forall x ensures x in list' <==> x in list && x != con {
        if x in list && x != con { var j := IndexOf(list, x); }
        if x in list' { var j := IndexOf(list', x); }
      }
    }
    if list' != [] {
      IndexUnique(list', if i < |list'| then i else 0);
    }
  }

  /** The circular order after the first k connections of r have been dealt with. */
  function After(r: seq<nat>, k: nat, expired: nat -> bool): seq<nat>
    requires k <= |r|
  {
    r[k..] + Survivors(r[..k], expired)
  }

  /** Where the marker stands meanwhile: on the first connection kept, or else on the next one. */
  function Mark(r: seq<nat>, k: nat, expired: nat -> bool): Option<nat>
    requires k <= |r|
  {
    Head(Survivors(r[..k], expired) + r[k..])
  }

  ghost predicate Scanning(r: seq<nat>, k: nat, expired: nat -> bool, list: seq<nat>, con: nat, marker: Option<nat>) {
    && k < |r| && Distinct(r) && Distinct(list) && con in list
    && OrderFrom(list, Some(con)) == After(r, k, expired) && marker == Mark(r, k, expired)
  }

  lemma ScanFacts(r: seq<nat>, k: nat, expired: nat -> bool, list: seq<nat>, con: nat, marker: Option<nat>)
    requires Scanning(r, k, expired, list, con, marker)
    ensures con == r[k] && marker.Some?
    ensures marker == Some(con) <==> Survivors(r[..k], expired) == []
    ensures marker.value in r[..k + 1]
    ensures k + 1 < |r| ==> r[k + 1] !in r[..k + 1]
  {
    NextStep(r, k, expired);
    TurnedHead(list, IndexOf(list, con));
    SurvivorsFrom(r[..k], expired);
    var sv := Survivors(r[..k], expired);
    if sv != [] {
      assert sv[0] in sv;
      assert sv[0] in r[..k];
      assert r[k] !in r[..k];
      assert r[..k + 1] == r[..k] + [r[k]];
    }
  }

  lemma AfterKept(r: seq<nat>, k: nat, expired: nat -> bool)
    requires k < |r| && !expired(r[k])
    ensures After(r, k + 1, expired) == After(r, k, expired)[1..] + [r[k]]
    ensures Mark(r, k + 1, expired) == Mark(r, k, expired)
  {
    NextStep(r, k, expired);
  }

  lemma AfterGone(r: seq<nat>, k: nat, expired: nat -> bool)
    requires k < |r| && expired(r[k])
    ensures After(r, k + 1, expired) == After(r, k, expired)[1..]
    ensures Survivors(r[..k], expired) != [] ==> Mark(r, k + 1, expired) == Mark(r, k, expired)
    ensures Survivors(r[..k], expired) == [] ==> Mark(r, k + 1, expired) == Head(After(r, k + 1, expired))
  {
    NextStep(r, k, expired);
  }

  /** The order that follows begins with the marker exactly when the round is complete. */
  lemma RoundComplete(r: seq<nat>, k: nat, expired: nat -> bool)
    requires k < |r| && Distinct(r) && Survivors(r[..k + 1], expired) != []
    ensures Head(After(r, k + 1, expired)) == Mark(r, k + 1, expired) <==> k + 1 == |r|
  {
    var sv := Survivors(r[..k + 1], expired);
    SurvivorsFrom(r[..k + 1], expired);
    assert sv[0] in sv;
    assert sv[0] in r[..k + 1];
    if k + 1 < |r| {
      assert After(r, k + 1, expired)[0] == r[k + 1];
      assert r[k + 1] !in r[..k + 1];
    }
  }

  lemma OrderHead(list: seq<nat>, con: nat)
    requires con in list
    ensures Head(OrderFrom(list, Some(con))) == Some(con) && |OrderFrom(list, Some(con))| == |list|
  {
  }

  lemma ScanEnd(r: seq<nat>, k: nat, expired: nat -> bool, list: seq<nat>, con: nat, marker: Option<nat>)
    requires Scanning(r, k, expired, list, con, marker)
    ensures k < |r| && con in list && con == r[k] && OrderFrom(list, Some(con)) == After(r, k, expired)
  {
    ScanFacts(r, k, expired, list, con, marker);
  }

  lemma AllGone(r: seq<nat>, expired: nat -> bool)
    requires Survivors(r, expired) == []
    ensures After(r, |r|, expired) == [] && OrderFrom([], None) == []
  {
    assert r[..|r|] == r;
  }

  lemma NothingMoved(r: seq<nat>, expired: nat -> bool)
    ensures Moved(r[..0], expired) == []
  {
  }

  lemma StartScan(list: seq<nat>, marker: Option<nat>, con: Option<nat>, expired: nat -> bool)
    requires Distinct(list) && (marker.Some? ==> marker.value in list)
    requires con == if marker.Some? then marker else Head(list)
    ensures Distinct(OrderFrom(list, marker)) && (con.None? <==> OrderFrom(list, marker) == [])
    ensures con.None? ==> list == [] && Survivors([], expired) == []
    ensures con.Some? ==> Scanning(OrderFrom(list, marker), 0, expired, list, con.value, con)
  {
  }

  lemma KeptStep(r: seq<nat>, k: nat, expired: nat -> bool, list: seq<nat>, con: nat, marker: Option<nat>)
    requires Scanning(r, k, expired, list, con, marker) && !expired(con)
    ensures var next := NextOf(list, Some(con));
      && next.Some? && next.value in list && OrderFrom(list, next) == After(r, k + 1, expired)
      && (next == marker <==> k + 1 == |r|)
      && (k + 1 < |r| ==> Scanning(r, k + 1, expired, list, next.value, marker))
  {
    ScanFacts(r, k, expired, list, con, marker);
    NextTurn(list, con);
    AfterKept(r, k, expired);
    NextStep(r, k, expired);
    RoundComplete(r, k, expired);
    OrderHead(list, NextOf(list, Some(con)).value);
  }

  lemma GoneStep(r: seq<nat>, k: nat, expired: nat -> bool, list: seq<nat>, con: nat, marker: Option<nat>)
    requires Scanning(r, k, expired, list, con, marker) && expired(con)
    ensures var list', next := Unlinked(list, con), NextOf(list, Some(con));
      && Distinct(list')
      && (next == Some(con) <==> list' == [])
      && (list' == [] ==> k + 1 == |r| && Survivors(r, expired) == [] && marker == Some(con))
      && (list' != [] ==> next.Some? && next.value in list' && OrderFrom(list', next) == After(r, k + 1, expired))
      && (list' != [] && marker == Some(con) ==> k + 1 < |r| && Scanning(r, k + 1, expired, list', next.value, next))
      && (list' != [] && marker != Some(con) ==>
            && (next == marker <==> k + 1 == |r|)
            && (k + 1 < |r| ==> Scanning(r, k + 1, expired, list', next.value, marker)))
  {
    ScanFacts(r, k, expired, list, con, marker);
    NextTurnUnlinked(list, con);
    AfterGone(r, k, expired);
    NextStep(r, k, expired);
    OrderHead(list, con);
    var list', next := Unlinked(list, con), NextOf(list, Some(con));
    if list' == [] {
      assert |After(r, k, expired)| == 1;
      assert r[..k + 1] == r;
    } else {
      OrderHead(list', next.value);
      if marker != Some(con) {
        RoundComplete(r, k, expired);
      }
    }
  }

  /** What successive calls inspect, with nothing added meanwhile; each call has its own clock. */
  function InspectedBy(r: seq<nat>, step: nat, clocks: seq<nat -> bool>): seq<nat>
    decreases |clocks|
  {
    if clocks == [] then []
    else
      var s := Min(step, |r|);
      r[..s] + InspectedBy(After(r, s, clocks[0]), step, clocks[1..])
  }

  lemma {:induction false} CoveredFrom(u: seq<nat>, v: seq<nat>, step: nat, clocks: seq<nat -> bool>, x: nat)
    requires |u| <= |clocks| * step && x in u
    ensures x in InspectedBy(u + v, step, clocks)
    decreases |clocks|
  {
    var r := u + v;
    var s := Min(step, |r|);
    if |u| <= s {
      assert u == r[..s][..|u|];
    } else {
      var u' := u[s..];
      var v' := v + Survivors(r[..s], clocks[0]);
      assert After(r, s, clocks[0]) == u' + v';
      assert u == r[..s] + u';
      if x !in r[..s] {
        assert |clocks[1..]| * step == |clocks| * step - step;
        CoveredFrom(u', v', step, clocks[1..], x);
      }
    }
  }

  /** Every one of n connections is inspected within n / step calls, rounded up. */
  lemma AllInspected(r: seq<nat>, step: nat, clocks: seq<nat -> bool>)
    requires |r| <= |clocks| * step
    ensures forall x :: x in r ==> x in InspectedBy(r, step, clocks)
  {
    forall x | x in r ensures x in InspectedBy(r, step, clocks) {
      assert r + [] == r;
      CoveredFrom(r, [], step, clocks, x);
    }
  }
}
