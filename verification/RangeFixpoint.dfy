/** What the return-range pass leaves behind: a post-fixpoint of its equations under
    the final ranges of all functions. */
module RangeFixpoint {
  import opened SignLattice
  import opened SignFacts
  import opened Cardinality
  import opened IR
  import opened RangeTransfer
  import opened RangeInvariant
  import opened RangeSweep

  // ----- Dependence on the ranges of callees -----

  /** The functions a function calls directly. */
  function Callees(fn: Function): set<nat> {
    set b: nat, i: nat |
      b < |fn.blocks| && i < |fn.blocks[b]| && fn.blocks[b][i].Call? && fn.blocks[b][i].callee.Direct? ::
      fn.blocks[b][i].callee.id
  }

  ghost predicate SameFor(ids: set<nat>, x: Ranges, y: Ranges) {
    forall g :: g in ids ==> (g in x <==> g in y) && (g in x ==> x[g] == y[g])
  }

  lemma OperandSignSame(c: Context, x: Ranges, y: Ranges, fact: Fact, v: Value)
    requires c.Valid() && SameFor(Callees(c.Fn()), x, y)
    ensures OperandSign(c, x, fact, v) == OperandSign(c, y, fact, v)
  {
    var definition := Definition(c.Fn(), v);
    if v.Reg? && definition.Some? && definition.value.Call? && definition.value.callee.Direct? {
      assert definition.value.callee.id in Callees(c.Fn());
    }
  }

  lemma OutSame(c: Context, x: Ranges, y: Ranges, b: nat, i: nat, fact: Fact)
    requires c.Valid() && IsInstruction(c.Fn(), b, i) && SameFor(Callees(c.Fn()), x, y)
    ensures Out(c, x, b, i, fact) == Out(c, y, b, i, fact)
  {
    match c.Fn().blocks[b][i]
    case Store(sender, _) => OperandSignSame(c, x, y, fact, sender);
    case Load(address) => OperandSignSame(c, x, y, fact, address);
    case Cast(_, source) => OperandSignSame(c, x, y, fact, source);
    case _ =>
  }

  // ----- Post-fixpoints -----

  /** The equations of one block, entered with the given fact. */
  ghost predicate BlockFixed(c: Context, facts: Facts, entry: Fact, ranges: Ranges, b: nat)
    requires Shape(c, facts) && b < |c.Fn().blocks|
  {
    && TracksOnly(c.Fn(), c.returnable[Point(b, 0)], entry)
    && Consistent(c, facts, Visit(entry, ranges), b)
    && Contributed(c, facts, Visit(entry, ranges), ranges, b)
  }

  ghost predicate PostFixpoint(c: Context, facts: Facts, seen: Seen, ranges: Ranges) {
    && Shape(c, facts)
    && Tracks(c, facts)
    && Settled(c, facts, seen)
    && forall b: nat | b < |c.Fn().blocks| :: b in seen && BlockFixed(c, facts, seen[b].entry, ranges, b)
  }

  lemma BlockFixedFrom(c: Context, facts: Facts, entry: Fact, x: Ranges, y: Ranges, top: Ranges, b: nat)
    requires Shape(c, facts) && b < |c.Fn().blocks|
    requires TracksOnly(c.Fn(), c.returnable[Point(b, 0)], entry)
    requires Consistent(c, facts, Visit(entry, x), b) && Contributed(c, facts, Visit(entry, x), top, b)
    requires SameFor(Callees(c.Fn()), x, y)
    requires c.id in top ==> c.id in y && Leq(top[c.id], y[c.id])
    ensures BlockFixed(c, facts, entry, y, b)
  {
    var fn := c.Fn();
    forall i: nat | IsInstruction(fn, b, i)
      ensures AgreesAt(c, facts, Visit(entry, y), b, i)
    {
      assert AgreesAt(c, facts, Visit(entry, x), b, i);
      OutSame(c, x, y, b, i, InAt(facts, entry, b, i));
    }
    var last := Last(fn, b);
    if last.Ret? {
      OperandSignSame(c, x, y, InAt(facts, entry, b, LastIndex(fn, b)), last.result);
    }
  }

  /** A post-fixpoint survives changes to ranges the function does not read, and
      growth of its own range. */
  lemma PostFixpointStable(c: Context, facts: Facts, seen: Seen, x: Ranges, y: Ranges)
    requires PostFixpoint(c, facts, seen, x)
    requires SameFor(Callees(c.Fn()), x, y)
    requires c.id in x ==> c.id in y && Leq(x[c.id], y[c.id])
    ensures PostFixpoint(c, facts, seen, y)
  {
    forall b: nat | b < |c.Fn().blocks|
      ensures b in seen && BlockFixed(c, facts, seen[b].entry, y, b)
    {
      assert BlockFixed(c, facts, seen[b].entry, x, b);
      BlockFixedFrom(c, facts, seen[b].entry, x, y, x, b);
    }
  }

  /** A run over one function ends in a post-fixpoint, provided it changed no range or
      the function does not call itself. */
  lemma RunGivesPostFixpoint(c: Context, floor: Ranges, now: Now)
    requires Invariant(c, now.facts, now.seen, now.ranges) && Settled(c, now.facts, now.seen)
    requires AllVisitedInRun(c, floor, now)
    requires floor == now.ranges || c.id !in Callees(c.Fn())
    ensures PostFixpoint(c, now.facts, now.seen, now.ranges)
  {
    forall b: nat | b < |c.Fn().blocks|
      ensures b in now.seen && BlockFixed(c, now.facts, now.seen[b].entry, now.ranges, b)
    {
      assert VisitedInRun(c, floor, now, b);
      assert BlockInvariant(c, now.facts, now.seen, now.ranges, b);
      var v := now.seen[b];
      assert TracksOnly(c.Fn(), c.returnable[Point(b, 0)], v.entry) by {
        assert IsPoint(c.Fn(), Point(b, 0));
        assert TracksOnly(c.Fn(), c.returnable[Point(b, 0)], now.facts[Point(b, 0)]);
      }
      VisitRangesCurrent(c, floor, now, b);
      BlockFixedFrom(c, now.facts, v.entry, v.ranges, now.ranges, now.ranges, b);
    }
  }

  lemma VisitRangesCurrent(c: Context, floor: Ranges, now: Now, b: nat)
    requires c.Valid() && VisitedInRun(c, floor, now, b) && Below(now.seen[b].ranges, now.ranges)
    requires floor == now.ranges || c.id !in Callees(c.Fn())
    ensures SameFor(Callees(c.Fn()), now.seen[b].ranges, now.ranges)
  {
    if floor == now.ranges {
      BelowAntisymmetric(now.seen[b].ranges, now.ranges);
    } else {
      SameElsewhere(now.seen[b].ranges, now.ranges, c.id, Callees(c.Fn()));
    }
  }

  lemma SameElsewhere(x: Ranges, y: Ranges, id: nat, ids: set<nat>)
    requires x - {id} == y - {id} && id !in ids
    ensures SameFor(ids, x, y)
  {
    forall g | g in ids
      ensures (g in x <==> g in y) && (g in x ==> x[g] == y[g])
    {
      assert g in x <==> g in x - {id};
      assert g in y <==> g in y - {id};
      if g in x {
        assert (x - {id})[g] == (y - {id})[g];
      }
    }
  }

  // ----- Strongly connected components -----

  datatype Component = Component(members: seq<nat>, hasLoop: bool)

  function Members(component: Component): set<nat> {
    set f | f in component.members
  }

  /** Members of the first `k` components. */
  function MembersBefore(components: seq<Component>, k: nat): set<nat>
    requires k <= |components|
  {
    set j, f | 0 <= j < k && f in components[j].members :: f
  }

  /** A bottom-up list of the components of the call graph. */
  ghost predicate BottomUp(functions: seq<Function>, components: seq<Component>) {
    && (forall f: nat | f < |functions| :: f in MembersBefore(components, |components|))
    && forall k: nat | k < |components| :: ComponentInOrder(functions, components, k)
  }

  ghost predicate ComponentInOrder(functions: seq<Function>, components: seq<Component>, k: nat)
    requires k < |components|
  {
    var component := components[k];
    && (forall f :: f in component.members ==> f < |functions| && f !in MembersBefore(components, k))
    && (forall f :: f in component.members ==> f < |functions| ==> CalleesBefore(functions, components, k + 1, f))
    && (!component.hasLoop ==>
          |component.members| == 1 &&
          forall f :: f in component.members ==> f < |functions| ==> f !in Callees(functions[f]))
  }

  /** Every callee with a range is in one of the first `k` components. */
  ghost predicate CalleesBefore(functions: seq<Function>, components: seq<Component>, k: nat, f: nat)
    requires k <= |components| && f < |functions|
  {
    forall g :: g in Callees(functions[f]) && g < |functions| ==> g in MembersBefore(components, k)
  }

  lemma EarlierAreDisjoint(functions: seq<Function>, components: seq<Component>, k: nat, f: nat)
    requires BottomUp(functions, components) && k < |components|
    requires f in MembersBefore(components, k)
    ensures f !in Members(components[k])
  {
    assert ComponentInOrder(functions, components, k);
  }

  /** Analysing component `k` leaves alone the ranges that earlier functions read, and
      their own. */
  lemma EarlierRangesKept(functions: seq<Function>, components: seq<Component>, k: nat, f: nat, x: Ranges, y: Ranges)
    requires BottomUp(functions, components) && k < |components|
    requires f < |functions| && f in MembersBefore(components, k)
    requires Below(x, y) && SameOutside(Members(components[k]), x, y)
    ensures f !in Members(components[k])
    ensures SameFor(Callees(functions[f]), x, y)
    ensures f in x ==> f in y && Leq(x[f], y[f])
  {
    EarlierAreDisjoint(functions, components, k, f);
    var ids := Members(components[k]);
    assert ComponentInOrder(functions, components, k);
    var j: nat :| j < k && f in components[j].members;
    assert ComponentInOrder(functions, components, j);
    assert CalleesBefore(functions, components, j + 1, f);
    forall g | g in Callees(functions[f])
      ensures (g in x <==> g in y) && (g in x ==> x[g] == y[g])
    {
      if g < |functions| {
        assert g in MembersBefore(components, j + 1);
        assert g in MembersBefore(components, k);
        EarlierAreDisjoint(functions, components, k, g);
      } else {
        assert g !in ids;
      }
      assert g in x <==> g in x - ids;
      assert g in y <==> g in y - ids;
      assert g in x ==> (x - ids)[g] == (y - ids)[g];
    }
  }

  // ----- The height of a component -----

  /** What the ranges of a set of functions could still gain. */
  ghost function MissingBits(ids: set<nat>, ranges: Ranges): set<(nat, Bit)> {
    set g, bit | g in ids && bit in AllBits() && !HasBit(ranges, g, bit) :: (g, bit)
  }

  ghost predicate SameOutside(ids: set<nat>, x: Ranges, y: Ranges) {
    x - ids == y - ids
  }

  lemma GrowthShrinksMissingBits(ids: set<nat>, x: Ranges, y: Ranges)
    requires Below(x, y) && SameOutside(ids, x, y)
    ensures MissingBits(ids, y) <= MissingBits(ids, x)
    ensures x != y ==> MissingBits(ids, y) < MissingBits(ids, x)
  {
    forall g, bit | g in ids && bit in AllBits() && HasBit(x, g, bit)
      ensures HasBit(y, g, bit)
    {
      GrowthKeepsBits(x, y, g, bit);
    }
    if x != y {
      var g, bit := GrowthGainsBit(x, y);
      if g !in ids {
        BitElsewhere(x, y, ids, g, bit);
      }
      assert (g, bit) in MissingBits(ids, x) && (g, bit) !in MissingBits(ids, y);
    }
  }

  lemma {:induction false} MissingBitsBound(ids: set<nat>, ranges: Ranges)
    ensures |MissingBits(ids, ranges)| <= 4 * |ids|
    decreases ids
  {
    if ids == {} {
      assert MissingBits(ids, ranges) == {};
    } else {
      var g :| g in ids;
      MissingBitsBound(ids - {g}, ranges);
      var own := {(g, Present), (g, NegativeBit), (g, ZeroBit), (g, PositiveBit)};
      var all := MissingBits(ids - {g}, ranges) + own;
      SubsetCardinality(MissingBits(ids, ranges), all);
      assert |own| <= 4;
    }
  }
}
