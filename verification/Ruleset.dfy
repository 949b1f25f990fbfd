/**
  * Nested rules flattened to an array with skip-to marks (src/libnpf/npf.c), loaded into the kernel
  * ruleset and inspected by one loop (src/kern/npf_ruleset.c).
  */
module Ruleset {
  import opened Words

  const SKIPTO_ADJ_FLAG := 0x8000_0000

  /** Attributes that steer the inspection; `subset` is the rule list of a dynamic group. */
  datatype Rule = Rule(id: nat, group: bool, dynamic: bool, final: bool, subset: seq<Rule>)

  /** A rule without, or with, a list of subrules (which may be empty). */
  datatype Node = Leaf(rule: Rule) | Inner(rule: Rule, subrules: seq<Node>)

  /** A rule as it is transferred: with its skip-to index, zero when there is none. */
  datatype Flat = Flat(rule: Rule, skipTo: u32)

  // ----- recursive evaluation of the nested rules --------------------------------------------

  /** The matching rule so far, and whether the inspection is over. */
  datatype Verdict = Verdict(found: Option<Rule>, stop: bool)

  predicate DynamicGroup(r: Rule) { r.group && r.dynamic }

  /** The attributes as the kernel keeps them: only dynamic groups stay dynamic. */
  function Normal(r: Rule): Rule {
    if DynamicGroup(r) then r else r.(dynamic := false)
  }

  /** npf_rule_reinspect: the first final match, or else the last match, of a dynamic group. */
  function Reinspect(m: Rule -> bool, rs: seq<Rule>, found: Option<Rule>): Option<Rule> {
    if rs == [] then found
    else if !m(rs[0]) then Reinspect(m, rs[1..], found)
    else if rs[0].final then Some(rs[0])
    else Reinspect(m, rs[1..], Some(rs[0]))
  }

  /** Nothing if nothing matches; else the first final match, or, if no match is final, the last match. */
  ghost predicate FirstFinalElseLast(m: Rule -> bool, rs: seq<Rule>, found: Option<Rule>) {
    if forall i :: 0 <= i < |rs| ==> !m(rs[i]) then found == None
    else exists i :: 0 <= i < |rs| && m(rs[i]) && found == Some(rs[i]) && Decisive(m, rs, i)
  }

  ghost predicate Decisive(m: Rule -> bool, rs: seq<Rule>, i: nat)
    requires i < |rs|
  {
    if rs[i].final then forall j :: 0 <= j < i && m(rs[j]) ==> !rs[j].final
    else forall j :: 0 <= j < |rs| && m(rs[j]) ==> j <= i && !rs[j].final
  }

  lemma ReinspectExact(m: Rule -> bool, rs: seq<Rule>)
    ensures FirstFinalElseLast(m, rs, Reinspect(m, rs, None))
  {
    assert rs[0..] == rs;
    ReinspectFrom(m, rs, 0, 0, None);
  }

  /** From rule i on, when no rule before it was a final match and the last match, if any, was at `last`. */
  lemma {:induction false} ReinspectFrom(m: Rule -> bool, rs: seq<Rule>, i: nat, last: nat, found: Option<Rule>)
    requires i <= |rs| && (forall j :: 0 <= j < i && m(rs[j]) ==> !rs[j].final && j <= last)
    requires if found.None? then forall j :: 0 <= j < i ==> !m(rs[j])
             else last < i && m(rs[last]) && found == Some(rs[last])
    ensures FirstFinalElseLast(m, rs, Reinspect(m, rs[i..], found))
    decreases |rs| - i
  {
    if i == |rs| {
      assert rs[i..] == [];
      assert found.Some? ==> Decisive(m, rs, last);
    } else {
      assert rs[i..][0] == rs[i] && rs[i..][1..] == rs[i + 1..];
      assert m(rs[i]) && rs[i].final ==> Decisive(m, rs, i);
      if !m(rs[i]) {
        ReinspectFrom(m, rs, i + 1, last, found);
      } else if !rs[i].final {
        ReinspectFrom(m, rs, i + 1, i, Some(rs[i]));
      }
    }
  }

  /**
    * A rule and its subtree: any group is a barrier once something matched, a rule that does not
    * match takes its subtree with it, a dynamic group answers with its own rules, groups do not
    * match themselves, and a final rule ends the inspection.
    */
  function EvalNode(m: Rule -> bool, t: Node, found: Option<Rule>): Verdict
    decreases t, 1
  {
    var r := Normal(t.rule);
    if r.group && found.Some? then Verdict(found, true)
    else if !m(r) then Verdict(found, false)
    else
      var dyn := if DynamicGroup(r) then Reinspect(m, r.subset, None) else None;
      if dyn.Some? then Verdict(dyn, true)
      else
        var now := if r.group then found else Some(r);
        if r.final then Verdict(now, true)
        else if t.Leaf? then Verdict(now, false)
        else EvalForest(m, t.subrules, now)
  }

  function EvalForest(m: Rule -> bool, ts: seq<Node>, found: Option<Rule>): Verdict
    decreases ts, 0
  {
    if ts == [] then Verdict(found, false)
    else
      var v := EvalNode(m, ts[0], found);
      if v.stop then v else EvalForest(m, ts[1..], v.found)
  }

  // ----- flattening --------------------------------------------------------------------------

  function Count(ts: seq<Node>): nat
    decreases ts, 0
  {
    if ts == [] then 0 else CountNode(ts[0]) + Count(ts[1..])
  }

  function CountNode(t: Node): nat
    decreases t, 1
  {
    1 + if t.Inner? then Count(t.subrules) else 0
  }

  /** The array from index `base` on; the skip-to mark is the index behind the subtree. */
  function Flatten(ts: seq<Node>, base: nat): (fs: seq<Flat>)
    requires base + Count(ts) < SKIPTO_ADJ_FLAG
    ensures |fs| == Count(ts)
    decreases ts, 0
  {
    if ts == [] then []
    else FlattenNode(ts[0], base) + Flatten(ts[1..], base + CountNode(ts[0]))
  }

  function FlattenNode(t: Node, base: nat): (fs: seq<Flat>)
    requires base + CountNode(t) < SKIPTO_ADJ_FLAG
    ensures |fs| == CountNode(t)
    decreases t, 1
  {
    if t.Leaf? then [Flat(t.rule, 0)]
    else [Flat(t.rule, base + CountNode(t))] + Flatten(t.subrules, base + 1)
  }

  /** The rule list of a configuration while it is being flattened. */
  class RuleList {
    var list: seq<Flat>

    constructor ()
      ensures list == []
    {
      list := [];
    }

    /** _npf_rules_process. */
    method Process(items: seq<Node>)
      requires |list| + Count(items) < SKIPTO_ADJ_FLAG
      modifies this
      ensures list == old(list) + Flatten(items, |old(list)|)
      decreases items, 0
    {
      hide FlattenNode, CountNode;
      ghost var before := list;
      var i := 0;
      while i < |items|
        invariant 0 <= i <= |items| && |list| + Count(items[i..]) < SKIPTO_ADJ_FLAG
        invariant list + Flatten(items[i..], |list|) == before + Flatten(items, |before|)
      {
        assert items[i..][0] == items[i] && items[i..][1..] == items[i + 1..];
        ProcessOne(items[i]);
        i := i + 1;
      }
    }

    /** The body of its loop: append a rule, process its subrules, then mark where they end. */
    method ProcessOne(t: Node)
      requires |list| + CountNode(t) < SKIPTO_ADJ_FLAG
      modifies this
      ensures list == old(list) + FlattenNode(t, |old(list)|)
      decreases t, 1
    {
      hide Flatten, Count;
      var n := |list|;
      list := list + [Flat(t.rule, 0)];
      if t.Inner? {
        Process(t.subrules);
        var idx := |list|;
        list := list[n := list[n].(skipTo := idx)];
      }
    }
  }

  // ----- the kernel ruleset ------------------------------------------------------------------

  datatype Slot = Slot(rule: Rule, skip: u32)

  /** npf_ruleset_insert at index n: a skip-to index that is not ahead becomes the next slot. */
  function Load(f: Flat, n: nat): Slot
    requires n + 1 < SKIPTO_ADJ_FLAG
  {
    Slot(Normal(f.rule), if f.skipTo < n + 1 then SKIPTO_ADJ_FLAG + (n + 1) else f.skipTo)
  }

  /** The skip-to index the inspection uses: the flag bit is masked out. */
  function Target(s: Slot): nat { s.skip % SKIPTO_ADJ_FLAG }

  predicate Progress(rs: seq<Slot>) {
    forall n :: 0 <= n < |rs| ==> n < Target(rs[n])
  }

  function LoadAll(fs: seq<Flat>): seq<Slot>
    requires |fs| < SKIPTO_ADJ_FLAG
  {
    seq(|fs|, n requires 0 <= n < |fs| => Load(fs[n], n))
  }

  class KernelRuleset {
    const slots: nat
    var rules: seq<Slot>

    constructor (n: nat)
      ensures slots == n && rules == []
    {
      slots := n;
      rules := [];
    }

    /**
     * npf_ruleset_insert: the mark of the new slot is the next slot, or the supplied index when that is
     * ahead; it comes out ahead of the slot exactly when the supplied index is safe.
     */
    method Insert(f: Flat)
      requires |rules| < slots < SKIPTO_ADJ_FLAG
      modifies this
      ensures rules == old(rules) + [Load(f, |old(rules)|)]
      ensures var n := |old(rules)|;
        && (n < Target(rules[n]) <==> SafeSkip(f.skipTo, n))
        && (f.skipTo <= n ==> Target(rules[n]) == n + 1)
        && (n < f.skipTo < SKIPTO_ADJ_FLAG ==> Target(rules[n]) == f.skipTo)
      ensures Progress(old(rules)) && SafeSkip(f.skipTo, |old(rules)|) ==> Progress(rules)
    {
      var n := |rules|;
      var rl := f.rule;
      if !(rl.group && rl.dynamic) {
        rl := rl.(dynamic := false);
      }
      var skip := f.skipTo;
      if skip < n + 1 {
        skip := SKIPTO_ADJ_FLAG + (n + 1);
      }
      rules := rules + [Slot(rl, skip)];
    }

    /** npf_ruleset_inspect; the mark of every slot must be ahead of it, as the source asserts. */
    method Inspect(m: Rule -> bool) returns (found: Option<Rule>)
      requires Progress(rules)
      ensures found == InspectFrom(m, rules, 0, None)
    {
      found := None;
      var n := 0;
      while n < |rules|
        invariant InspectFrom(m, rules, n, found) == InspectFrom(m, rules, 0, None)
        decreases |rules| - n
      {
        var rl, skipTo := rules[n].rule, Target(rules[n]);
        if rl.group && found.Some? {
          break;
        }
        if !m(rl) {
          n := skipTo;
          continue;
        }
        if rl.group && rl.dynamic {
          var dyn := ReinspectList(m, rl.subset);
          if dyn.Some? {
            found := dyn;
            break;
          }
        } else if !rl.group {
          found := Some(rl);
        }
        if rl.final {
          break;
        }
        n := n + 1;
      }
    }
  }

  method ReinspectList(m: Rule -> bool, rs: seq<Rule>) returns (found: Option<Rule>)
    ensures found == Reinspect(m, rs, None) && FirstFinalElseLast(m, rs, found)
  {
    hide FirstFinalElseLast;
    ReinspectExact(m, rs);
    found := None;
    var i := 0;
    while i < |rs|
      invariant 0 <= i <= |rs| && Reinspect(m, rs[i..], found) == Reinspect(m, rs, None)
    {
      assert rs[i..][1..] == rs[i + 1..];
      if m(rs[i]) {
        if rs[i].final {
          return Some(rs[i]);
        }
        found := Some(rs[i]);
      }
      i := i + 1;
    }
  }

  /** One iteration of the inspection loop. */
  datatype Step = Go(n: nat, found: Option<Rule>) | Done(found: Option<Rule>)

  function Advance(m: Rule -> bool, rs: seq<Slot>, n: nat, found: Option<Rule>): Step
    requires n < |rs|
  {
    var r := rs[n].rule;
    if r.group && found.Some? then Done(found)
    else if !m(r) then Go(Target(rs[n]), found)
    else
      var dyn := if DynamicGroup(r) then Reinspect(m, r.subset, None) else None;
      if dyn.Some? then Done(dyn)
      else
        var now := if r.group then found else Some(r);
        if r.final then Done(now) else Go(n + 1, now)
  }

  function InspectFrom(m: Rule -> bool, rs: seq<Slot>, n: nat, found: Option<Rule>): Option<Rule>
    requires Progress(rs)
    decreases |rs| - n
  {
    if n >= |rs| then found
    else
      match Advance(m, rs, n, found)
      case Done(f) => f
      case Go(n', f) => InspectFrom(m, rs, n', f)
  }

  // ----- flattening preserves meaning --------------------------------------------------------

  /** The loaded marks of a flattened forest are all ahead. */
  lemma {:induction false} FlattenAhead(ts: seq<Node>, base: nat, i: nat)
    requires base + Count(ts) < SKIPTO_ADJ_FLAG && i < Count(ts)
    ensures var k := Flatten(ts, base)[i].skipTo;
            k == 0 || base + i < k <= base + Count(ts)
    decreases ts
  {
    if i < CountNode(ts[0]) {
      if ts[0].Inner? && i > 0 {
        FlattenAhead(ts[0].subrules, base + 1, i - 1);
      }
    } else {
      FlattenAhead(ts[1..], base + CountNode(ts[0]), i - CountNode(ts[0]));
    }
  }

  lemma FlattenedProgress(ts: seq<Node>)
    requires Count(ts) < SKIPTO_ADJ_FLAG
    ensures Progress(LoadAll(Flatten(ts, 0)))
  {
    hide Flatten, Load, Target;
    var fs := Flatten(ts, 0);
    forall n | 0 <= n < |fs|
      ensures n < Target(LoadAll(fs)[n])
    {
      FlattenAhead(ts, 0, n);
      LoadedMarkIsAhead(fs[n], n);
    }
  }

  /** Part of a ruleset holds the flattened form of a forest. */
  predicate Holds(rs: seq<Slot>, fs: seq<Flat>, base: nat) {
    && base + |fs| <= |rs| < SKIPTO_ADJ_FLAG
    && forall i :: 0 <= i < |fs| ==> rs[base + i] == Load(fs[i], base + i)
  }

  function Resume(m: Rule -> bool, rs: seq<Slot>, v: Verdict, n: nat): Option<Rule>
    requires Progress(rs)
  {
    if v.stop then v.found else InspectFrom(m, rs, n, v.found)
  }

  lemma HoldsSplit(rs: seq<Slot>, fs: seq<Flat>, gs: seq<Flat>, base: nat)
    requires Holds(rs, fs + gs, base)
    ensures Holds(rs, fs, base) && Holds(rs, gs, base + |fs|)
  {
    forall i | 0 <= i < |fs|
      ensures rs[base + i] == Load(fs[i], base + i)
    {
      assert (fs + gs)[i] == fs[i];
    }
    forall i | 0 <= i < |gs|
      ensures rs[base + |fs| + i] == Load(gs[i], base + |fs| + i)
    {
      assert (fs + gs)[|fs| + i] == gs[i];
    }
  }

  lemma {:induction false} NodeMeaning(m: Rule -> bool, rs: seq<Slot>, t: Node, base: nat, found: Option<Rule>)
    requires Progress(rs) && base + CountNode(t) < SKIPTO_ADJ_FLAG && Holds(rs, FlattenNode(t, base), base)
    ensures InspectFrom(m, rs, base, found) == Resume(m, rs, EvalNode(m, t, found), base + CountNode(t))
    decreases t, 1
  {
    hide InspectFrom, Flatten, FlattenNode, EvalForest, Reinspect, Holds, CountNode;
    FirstSlot(rs, t, base);
    InspectStep(m, rs, base, found);
    var now := if t.rule.group then found else Some(Normal(t.rule));
    if t.Inner? {
      ForestMeaning(m, rs, t.subrules, base + 1, now);
    }
  }

  /** The first slot of a flattened node leads behind its subtree, the rest is its subtree. */
  lemma FirstSlot(rs: seq<Slot>, t: Node, base: nat)
    requires base + CountNode(t) < SKIPTO_ADJ_FLAG && Holds(rs, FlattenNode(t, base), base)
    ensures base < |rs| && rs[base].rule == Normal(t.rule) && Target(rs[base]) == base + CountNode(t)
    ensures CountNode(t) == 1 + if t.Inner? then Count(t.subrules) else 0
    ensures t.Inner? ==> Holds(rs, Flatten(t.subrules, base + 1), base + 1)
  {
    var fs := FlattenNode(t, base);
    assert rs[base] == Load(fs[0], base);
    if t.Inner? {
      HoldsSplit(rs, [fs[0]], Flatten(t.subrules, base + 1), base);
    }
  }

  lemma InspectStep(m: Rule -> bool, rs: seq<Slot>, n: nat, found: Option<Rule>)
    requires Progress(rs) && n < |rs|
    ensures InspectFrom(m, rs, n, found)
         == match Advance(m, rs, n, found)
            case Done(f) => f
            case Go(n', f) => InspectFrom(m, rs, n', f)
  {
  }

  lemma {:induction false} ForestMeaning(m: Rule -> bool, rs: seq<Slot>, ts: seq<Node>, base: nat, found: Option<Rule>)
    requires Progress(rs) && base + Count(ts) < SKIPTO_ADJ_FLAG && Holds(rs, Flatten(ts, base), base)
    ensures InspectFrom(m, rs, base, found) == Resume(m, rs, EvalForest(m, ts, found), base + Count(ts))
    decreases ts, 0
  {
    hide EvalNode, FlattenNode, CountNode, Advance;
    if ts != [] {
      var n := base + CountNode(ts[0]);
      HoldsSplit(rs, FlattenNode(ts[0], base), Flatten(ts[1..], n), base);
      NodeMeaning(m, rs, ts[0], base, found);
      ForestMeaning(m, rs, ts[1..], n, EvalNode(m, ts[0], found).found);
    }
  }

  /** For every forest and packet, the loop over the array finds what the tree evaluates to. */
  lemma FlatteningPreservesMeaning(m: Rule -> bool, ts: seq<Node>)
    requires Count(ts) < SKIPTO_ADJ_FLAG
    ensures Progress(LoadAll(Flatten(ts, 0)))
    ensures InspectFrom(m, LoadAll(Flatten(ts, 0)), 0, None) == EvalForest(m, ts, None).found
  {
    FlattenedProgress(ts);
    ForestMeaning(m, LoadAll(Flatten(ts, 0)), ts, 0, None);
  }

  // ----- arbitrary skip-to values ------------------------------------------------------------

  /** A supplied index that lets the loop advance: behind the slot, or ahead without the flag bit. */
  predicate SafeSkip(skipTo: u32, n: nat) {
    skipTo <= n || skipTo % SKIPTO_ADJ_FLAG > n
  }

  /** Exactly the safe values are loaded as a mark that is ahead. */
  lemma LoadedMarkIsAhead(f: Flat, n: nat)
    requires n + 1 < SKIPTO_ADJ_FLAG
    ensures n < Target(Load(f, n)) <==> SafeSkip(f.skipTo, n)
  {
  }

  /** Whatever the packet, every iteration moves forward. */
  ghost predicate AlwaysAdvances(rs: seq<Slot>) {
    forall m: Rule -> bool, n: nat, found: Option<Rule> :: n < |rs| && Advance(m, rs, n, found).Go? ==>
      n < Advance(m, rs, n, found).n
  }

  /** The loop advances from every slot on every packet exactly when all supplied skip-to indexes are safe. */
  lemma AdvancesExactly(fs: seq<Flat>)
    requires |fs| < SKIPTO_ADJ_FLAG
    ensures AlwaysAdvances(LoadAll(fs)) <==> forall n :: 0 <= n < |fs| ==> SafeSkip(fs[n].skipTo, n)
  {
    var rs := LoadAll(fs);
    if forall n :: 0 <= n < |fs| ==> SafeSkip(fs[n].skipTo, n) {
      forall n | 0 <= n < |fs|
        ensures n < Target(rs[n])
      {
        LoadedMarkIsAhead(fs[n], n);
      }
    } else {
      var n :| 0 <= n < |fs| && !SafeSkip(fs[n].skipTo, n);
      LoadedMarkIsAhead(fs[n], n);
      var m: Rule -> bool := r => false;
      assert Advance(m, rs, n, None) == Go(Target(rs[n]), None);
    }
  }

  /** The inspection from a slot on is over within some number of iterations. */
  predicate EndsWithin(m: Rule -> bool, rs: seq<Slot>, n: nat, found: Option<Rule>, steps: nat)
    decreases steps
  {
    n >= |rs| || (steps > 0 && (match Advance(m, rs, n, found)
                                case Done(_) => true
                                case Go(n', f) => EndsWithin(m, rs, n', f, steps - 1)))
  }

  lemma {:induction false} EndsFrom(m: Rule -> bool, rs: seq<Slot>, n: nat, found: Option<Rule>, steps: nat)
    requires Progress(rs) && |rs| <= n + steps
    ensures EndsWithin(m, rs, n, found, steps)
    decreases steps
  {
    if n < |rs| && Advance(m, rs, n, found).Go? {
      var next := Advance(m, rs, n, found);
      EndsFrom(m, rs, next.n, next.found, steps - 1);
    }
  }

  /** With safe indexes the inspection of every packet is over after at most one iteration for each rule. */
  lemma SafeInspectionEnds(m: Rule -> bool, fs: seq<Flat>)
    requires |fs| < SKIPTO_ADJ_FLAG && forall n :: 0 <= n < |fs| ==> SafeSkip(fs[n].skipTo, n)
    ensures EndsWithin(m, LoadAll(fs), 0, None, |fs|)
  {
    forall n | 0 <= n < |fs| ensures n < Target(LoadAll(fs)[n]) { LoadedMarkIsAhead(fs[n], n); }
    EndsFrom(m, LoadAll(fs), 0, None, |fs|);
  }

  /** Where the inspection of a packet is after some iterations, unless it is over. */
  function After(m: Rule -> bool, rs: seq<Slot>, k: nat): (p: Option<(nat, Option<Rule>)>)
    ensures p.Some? ==> p.value.0 < |rs|
  {
    if k == 0 then (if rs == [] then None else Some((0, None)))
    else
      var p := After(m, rs, k - 1);
      if p.None? then None
      else
        match Advance(m, rs, p.value.0, p.value.1)
        case Done(_) => None
        case Go(n, f) => if n < |rs| then Some((n, f)) else None
  }

  lemma {:induction false} AfterEnds(m: Rule -> bool, rs: seq<Slot>, k: nat, steps: nat)
    requires After(m, rs, k).Some?
    ensures var p := After(m, rs, k).value;
      EndsWithin(m, rs, p.0, p.1, steps) <==> After(m, rs, k + steps).None?
    decreases steps
  {
    hide Advance;
    if steps > 0 {
      if After(m, rs, k + 1).Some? {
        AfterEnds(m, rs, k + 1, steps - 1);
      } else {
        EndedStays(m, rs, k + 1, k + steps);
      }
    }
  }

  lemma {:induction false} EndedStays(m: Rule -> bool, rs: seq<Slot>, k: nat, l: nat)
    requires k <= l && After(m, rs, k).None?
    ensures After(m, rs, l).None?
    decreases l
  {
    if k < l { EndedStays(m, rs, k, l - 1); }
  }

  /** A step that skips its rule, which is the only one that a supplied index decides. */
  predicate Skips(m: Rule -> bool, rs: seq<Slot>, n: nat, found: Option<Rule>)
    requires n < |rs|
  {
    !(rs[n].rule.group && found.Some?) && !m(rs[n].rule)
  }

  /**
   * The inspection of a packet goes forward all the way exactly when the index of every rule that it
   * reaches and skips is safe.
   */
  lemma ForwardExactly(m: Rule -> bool, fs: seq<Flat>)
    requires |fs| < SKIPTO_ADJ_FLAG
    ensures var rs := LoadAll(fs);
      (forall k: nat :: After(m, rs, k).Some? ==> Forward(m, rs, After(m, rs, k).value)) <==>
      (forall k: nat :: After(m, rs, k).Some? ==> SkipsSafely(m, fs, rs, After(m, rs, k).value))
  {
    var rs := LoadAll(fs);
    forall k: nat | After(m, rs, k).Some?
      ensures Forward(m, rs, After(m, rs, k).value) <==> SkipsSafely(m, fs, rs, After(m, rs, k).value)
    {
      var p := After(m, rs, k).value;
      LoadedMarkIsAhead(fs[p.0], p.0);
    }
  }

  predicate Forward(m: Rule -> bool, rs: seq<Slot>, p: (nat, Option<Rule>)) {
    p.0 < |rs| && (Advance(m, rs, p.0, p.1).Go? ==> p.0 < Advance(m, rs, p.0, p.1).n)
  }

  predicate SkipsSafely(m: Rule -> bool, fs: seq<Flat>, rs: seq<Slot>, p: (nat, Option<Rule>)) {
    p.0 < |rs| == |fs| && (Skips(m, rs, p.0, p.1) ==> SafeSkip(fs[p.0].skipTo, p.0))
  }

  // ----- inspections that never end ----------------------------------------------------------

  /** All that the next iteration depends on: the slot, and whether a rule has been found. */
  function Code(p: (nat, Option<Rule>)): nat {
    2 * p.0 + if p.1.Some? then 1 else 0
  }

  lemma SameNext(m: Rule -> bool, rs: seq<Slot>, i: nat, j: nat)
    requires After(m, rs, i).Some? && After(m, rs, j).Some?
    requires Code(After(m, rs, i).value) == Code(After(m, rs, j).value)
    ensures After(m, rs, i + 1).Some? == After(m, rs, j + 1).Some?
    ensures After(m, rs, i + 1).Some? ==> Code(After(m, rs, i + 1).value) == Code(After(m, rs, j + 1).value)
  {
    hide Reinspect;
  }

  /** From equal positions on the inspection repeats itself. */
  lemma {:induction false} Repeats(m: Rule -> bool, rs: seq<Slot>, i: nat, j: nat, d: nat)
    requires After(m, rs, i).Some? && After(m, rs, j).Some?
    requires Code(After(m, rs, i).value) == Code(After(m, rs, j).value)
    ensures After(m, rs, i + d).Some? == After(m, rs, j + d).Some?
    ensures After(m, rs, i + d).Some? ==> Code(After(m, rs, i + d).value) == Code(After(m, rs, j + d).value)
    decreases d
  {
    hide After, Code;
    if d > 0 {
      Repeats(m, rs, i, j, d - 1);
      if After(m, rs, i + d - 1).Some? {
        SameNext(m, rs, i + d - 1, j + d - 1);
      } else {
        EndedStays(m, rs, i + d - 1, i + d);
        EndedStays(m, rs, j + d - 1, j + d);
      }
    }
  }

  /** More numbers below n than n are not all different. */
  lemma {:induction false} Pigeons(s: seq<nat>, n: nat)
    requires |s| > n && forall k :: 0 <= k < |s| ==> s[k] < n
    ensures exists i, j :: 0 <= i < j < |s| && s[i] == s[j]
  {
    assert s[0] < n;
    if n > 0 {
      if i :| 0 <= i < |s| && s[i] == n - 1 {
        if j :| 0 <= j < |s| && j != i && s[j] == n - 1 {
          assert if i < j then s[i] == s[j] else s[j] == s[i];
        } else {
          var rest := s[..i] + s[i + 1..];
          Pigeons(rest, n - 1);
          var a, b :| 0 <= a < b < |rest| && rest[a] == rest[b];
          var a', b' := if a < i then a else a + 1, if b < i then b else b + 1;
          assert s[a'] == s[b'];
        }
      } else {
        Pigeons(s, n - 1);
      }
    }
  }

  lemma Returns(m: Rule -> bool, rs: seq<Slot>) returns (i: nat, j: nat)
    requires After(m, rs, 2 * |rs|).Some?
    ensures i < j <= 2 * |rs| && After(m, rs, i).Some? && After(m, rs, j).Some?
    ensures Code(After(m, rs, i).value) == Code(After(m, rs, j).value)
  {
    hide After;
    var l := 2 * |rs|;
    forall k: nat | k <= l ensures After(m, rs, k).Some? {
      if After(m, rs, k).None? { EndedStays(m, rs, k, l); }
    }
    var s := seq(l + 1, k requires 0 <= k <= l => if After(m, rs, k).Some? then Code(After(m, rs, k).value) else 0);
    Pigeons(s, l);
    i, j :| 0 <= i < j < |s| && s[i] == s[j];
  }

  /** An inspection that is not over after two iterations for each slot never is. */
  lemma {:induction false} NeverEnds(m: Rule -> bool, rs: seq<Slot>, steps: nat)
    requires After(m, rs, 2 * |rs|).Some?
    ensures After(m, rs, steps).Some?
    decreases steps
  {
    hide After, Code;
    if steps <= 2 * |rs| {
      if After(m, rs, steps).None? { EndedStays(m, rs, steps, 2 * |rs|); }
    } else {
      var i, j := Returns(m, rs);
      NeverEnds(m, rs, i + (steps - j));
      Repeats(m, rs, i, j, steps - j);
    }
  }

  /** Whatever the indexes are, an inspection ends exactly when it ends within two iterations for each slot. */
  lemma EndsExactly(m: Rule -> bool, rs: seq<Slot>)
    ensures (exists steps: nat :: EndsWithin(m, rs, 0, None, steps)) <==> EndsWithin(m, rs, 0, None, 2 * |rs|)
  {
    if rs != [] {
      assert After(m, rs, 0) == Some((0, None));
      hide After, EndsWithin;
      if steps: nat :| EndsWithin(m, rs, 0, None, steps) {
        AfterEnds(m, rs, 0, steps);
        AfterEnds(m, rs, 0, 2 * |rs|);
        if After(m, rs, 2 * |rs|).Some? { NeverEnds(m, rs, steps); }
      }
    }
  }

  /** With the flag bit set by the sender the first rule jumps to itself: the loop never ends. */
  lemma {:induction false} FlagBitLoopsForever(r: Rule, m: Rule -> bool, steps: nat)
    requires !m(Normal(r))
    ensures !EndsWithin(m, LoadAll([Flat(r, SKIPTO_ADJ_FLAG)]), 0, None, steps)
  {
    if steps > 0 {
      FlagBitLoopsForever(r, m, steps - 1);
    }
  }

  // ----- dynamic rules -----------------------------------------------------------------------

  const NPF_PRI_FIRST := -2

  /** A dynamic rule in the list of its group: an identity and a priority. */
  datatype Dynamic = Dynamic(id: nat, priority: int)

  predicate Ordered(ds: seq<Dynamic>) {
    && (forall i :: 0 <= i < |ds| ==> 0 <= ds[i].priority)
    && (forall i, j :: 0 <= i < j < |ds| ==> ds[i].priority <= ds[j].priority)
  }

  /** npf_ruleset_add on the list of the group: behind all rules of no lower precedence, or first. */
  method AddDynamic(ds: seq<Dynamic>, id: nat, prio: int) returns (r: seq<Dynamic>, at: nat)
    requires Ordered(ds)
    ensures at <= |ds| && r == ds[..at] + [Dynamic(id, if prio < 0 then 0 else prio)] + ds[at..]
    ensures Ordered(r)
    ensures prio == NPF_PRI_FIRST ==> at == 0
    ensures prio != NPF_PRI_FIRST ==> forall i :: at <= i < |ds| ==> ds[i].priority > (if prio < 0 then 0 else prio)
  {
    var rl := Dynamic(id, if prio < 0 then 0 else prio);
    at := 0;
    if prio != NPF_PRI_FIRST {
      while at < |ds| && ds[at].priority <= rl.priority
        invariant 0 <= at <= |ds|
        invariant forall i :: 0 <= i < at ==> ds[i].priority <= rl.priority
      {
        at := at + 1;
      }
    }
    r := ds[..at] + [rl] + ds[at..];
  }
}
