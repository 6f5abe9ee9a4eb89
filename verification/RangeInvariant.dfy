/** What the return-range sweep keeps true of one function while it runs.

    `changed` watches output facts only, and a tested branch pushes narrowed entries
    into successors that may already have been visited. The argument therefore
    remembers, for every block, the entry fact and the ranges it was last visited
    with (`Visit`): the output facts are a function of those. */
module RangeInvariant {
  import opened SignLattice
  import opened SignFacts
  import opened Cardinality
  import opened IR
  import opened RangeTransfer

  datatype Visit = Visit(entry: Fact, ranges: Ranges)

  type Seen = map<nat, Visit>

  function Remember(seen: Seen, b: nat, v: Visit): Seen {
    seen[b := v]
  }

  /** The fact an instruction was last visited with. */
  function InAt(facts: Facts, entry: Fact, b: nat, i: nat): Fact
    requires i > 0 ==> Point(b, i) in facts
  {
    if i == 0 then entry else facts[Point(b, i)]
  }

  ghost predicate Shape(c: Context, facts: Facts) {
    c.Valid() && facts.Keys == Points(c.Fn())
  }

  // ----- One block -----

  ghost predicate AgreesAt(c: Context, facts: Facts, v: Visit, b: nat, i: nat)
    requires Shape(c, facts) && IsInstruction(c.Fn(), b, i)
  {
    facts[Point(b, i + 1)] == Out(c, v.ranges, b, i, InAt(facts, v.entry, b, i))
  }

  ghost predicate Consistent(c: Context, facts: Facts, v: Visit, b: nat)
    requires Shape(c, facts) && b < |c.Fn().blocks|
  {
    forall i: nat | IsInstruction(c.Fn(), b, i) :: AgreesAt(c, facts, v, b, i)
  }

  ghost predicate Untouched(c: Context, facts: Facts, b: nat)
    requires Shape(c, facts) && b < |c.Fn().blocks|
  {
    forall i: nat | IsInstruction(c.Fn(), b, i) :: facts[Point(b, i + 1)] == map[]
  }

  ghost predicate PushCovered(c: Context, facts: Facts, p: Push)
    requires Shape(c, facts)
  {
    p.target < |c.Fn().blocks| && Covers(facts[Point(p.target, 0)], p.key, p.sign)
  }

  /** The fact before the last instruction of a block. */
  function LastIn(c: Context, facts: Facts, b: nat): Fact
    requires Shape(c, facts) && b < |c.Fn().blocks|
  {
    facts[Point(b, LastIndex(c.Fn(), b))]
  }

  ghost predicate AllCovered(c: Context, facts: Facts, pushes: seq<Push>)
    requires Shape(c, facts)
  {
    forall p :: p in pushes ==> PushCovered(c, facts, p)
  }

  /** Whatever the block pushes is already in the facts it pushes to. */
  ghost predicate Absorbed(c: Context, facts: Facts, b: nat)
    requires Shape(c, facts) && b < |c.Fn().blocks|
  {
    Length(c.Fn(), b) >= 2 ==> AllCovered(c, facts, Pushes(c, b, LastIn(c, facts, b)))
  }

  ghost predicate Contributed(c: Context, facts: Facts, v: Visit, ranges: Ranges, b: nat)
    requires Shape(c, facts) && b < |c.Fn().blocks|
  {
    var last := Last(c.Fn(), b);
    last.Ret? ==>
      Covers(ranges, c.id, Contribution(c, v.ranges, InAt(facts, v.entry, b, LastIndex(c.Fn(), b)), last.result))
  }

  ghost predicate BlockInvariant(c: Context, facts: Facts, seen: Seen, ranges: Ranges, b: nat)
    requires Shape(c, facts) && b < |c.Fn().blocks|
  {
    if b in seen then
      && Consistent(c, facts, seen[b], b)
      && Below(seen[b].entry, facts[Point(b, 0)])
      && Below(seen[b].ranges, ranges)
      && Absorbed(c, facts, b)
      && Contributed(c, facts, seen[b], ranges, b)
    else
      Untouched(c, facts, b)
  }

  // ----- One function -----

  /** The cross-pass invariant: a fact only mentions values that are returnable at
      its point, and only addresses and results of loads and casts. */
  ghost predicate Tracks(c: Context, facts: Facts)
    requires Shape(c, facts)
  {
    forall p | p in facts :: TracksOnly(c.Fn(), c.returnable[p], facts[p])
  }

  ghost predicate Invariant(c: Context, facts: Facts, seen: Seen, ranges: Ranges) {
    && Shape(c, facts)
    && Tracks(c, facts)
    && (forall b :: b in seen ==> b < |c.Fn().blocks|)
    && (forall b: nat | b < |c.Fn().blocks| :: BlockInvariant(c, facts, seen, ranges, b))
  }

  /** Entry facts may grow, all other facts stay. */
  ghost predicate EntriesGrow(c: Context, before: Facts, after: Facts)
    requires Shape(c, before) && Shape(c, after)
  {
    && (forall p | p in before && p.index > 0 :: after[p] == before[p])
    && (forall b: nat | b < |c.Fn().blocks| :: Below(before[Point(b, 0)], after[Point(b, 0)]))
  }

  lemma EntriesGrowKeepsBlock(c: Context, before: Facts, after: Facts, seen: Seen, ranges: Ranges, b: nat)
    requires Shape(c, before) && Shape(c, after) && b < |c.Fn().blocks|
    requires EntriesGrow(c, before, after)
    requires BlockInvariant(c, before, seen, ranges, b)
    ensures BlockInvariant(c, after, seen, ranges, b)
  {
    var fn := c.Fn();
    assert WellFormedBlock(fn, b);
    forall i: nat | IsInstruction(fn, b, i)
      ensures after[Point(b, i + 1)] == before[Point(b, i + 1)]
    {
      assert IsPoint(fn, Point(b, i + 1));
    }
    if b in seen {
      forall i: nat | IsInstruction(fn, b, i)
        ensures AgreesAt(c, after, seen[b], b, i)
      {
        assert AgreesAt(c, before, seen[b], b, i);
        assert IsPoint(fn, Point(b, i));
      }
      assert IsPoint(fn, Point(b, LastIndex(fn, b)));
      if Length(fn, b) >= 2 {
        assert LastIn(c, after, b) == LastIn(c, before, b);
        forall p | p in Pushes(c, b, LastIn(c, after, b))
          ensures PushCovered(c, after, p)
        {
          assert PushCovered(c, before, p);
        }
      }
    }
  }

  lemma EntriesGrowKeepsInvariant(c: Context, before: Facts, after: Facts, seen: Seen, ranges: Ranges)
    requires Invariant(c, before, seen, ranges)
    requires Shape(c, after) && Tracks(c, after) && EntriesGrow(c, before, after)
    ensures Invariant(c, after, seen, ranges)
  {
    forall b: nat | b < |c.Fn().blocks|
      ensures BlockInvariant(c, after, seen, ranges, b)
    {
      EntriesGrowKeepsBlock(c, before, after, seen, ranges, b);
    }
  }

  lemma RangesGrowKeepsInvariant(c: Context, facts: Facts, seen: Seen, before: Ranges, after: Ranges)
    requires Invariant(c, facts, seen, before) && Below(before, after)
    ensures Invariant(c, facts, seen, after)
  {
    forall b: nat | b < |c.Fn().blocks|
      ensures BlockInvariant(c, facts, seen, after, b)
    {
      assert BlockInvariant(c, facts, seen, before, b);
    }
  }

  // ----- Pushing -----

  function ApplyPush(facts: Facts, p: Push): (after: Facts)
    ensures after.Keys == facts.Keys
  {
    var start := Point(p.target, 0);
    if start in facts then facts[start := Joined(facts[start], map[p.key := p.sign])] else facts
  }

  function ApplyPushes(facts: Facts, pushes: seq<Push>): (after: Facts)
    ensures after.Keys == facts.Keys
    decreases |pushes|
  {
    if pushes == [] then facts else ApplyPushes(ApplyPush(facts, pushes[0]), pushes[1..])
  }

  lemma ApplyPushesConcat(facts: Facts, xs: seq<Push>, ys: seq<Push>)
    ensures ApplyPushes(facts, xs + ys) == ApplyPushes(ApplyPushes(facts, xs), ys)
    decreases |xs|
  {
    if xs == [] {
      assert xs + ys == ys;
    } else {
      assert (xs + ys)[1..] == xs[1..] + ys;
      ApplyPushesConcat(ApplyPush(facts, xs[0]), xs[1..], ys);
    }
  }

  ghost predicate PushAllowed(c: Context, p: Push)
    requires c.Valid()
  {
    && p.target < |c.Fn().blocks|
    && p.key in c.returnable[Point(p.target, 0)]
    && IsTracked(c.Fn(), p.key)
  }

  lemma PushAllowedIsPoint(c: Context, facts: Facts, p: Push)
    requires Shape(c, facts) && PushAllowed(c, p)
    ensures Point(p.target, 0) in facts
  {
    assert IsPoint(c.Fn(), Point(p.target, 0));
  }

  lemma ApplyPushEffect(c: Context, facts: Facts, p: Push)
    requires Shape(c, facts) && Tracks(c, facts)
    requires PushAllowed(c, p) && Point(p.target, 0) in facts
    ensures var after := ApplyPush(facts, p);
            EntriesGrow(c, facts, after) && Tracks(c, after) && PushCovered(c, after, p)
  {
    var entry := facts[Point(p.target, 0)];
    var pushed := map[p.key := p.sign];
    JoinedIsLeast(entry, pushed, entry);
    assert p.key in pushed;
  }

  lemma EntriesGrowTransitive(c: Context, x: Facts, y: Facts, z: Facts)
    requires Shape(c, x) && Shape(c, y) && Shape(c, z)
    requires EntriesGrow(c, x, y) && EntriesGrow(c, y, z)
    ensures EntriesGrow(c, x, z)
  {
    forall b: nat | b < |c.Fn().blocks|
      ensures Below(x[Point(b, 0)], z[Point(b, 0)])
    {
      assert Below(x[Point(b, 0)], y[Point(b, 0)]) && Below(y[Point(b, 0)], z[Point(b, 0)]);
    }
  }

  lemma {:induction false} ApplyPushesEffect(c: Context, facts: Facts, pushes: seq<Push>)
    requires Shape(c, facts) && Tracks(c, facts)
    requires forall p :: p in pushes ==> PushAllowed(c, p)
    ensures var after := ApplyPushes(facts, pushes);
            EntriesGrow(c, facts, after) && Tracks(c, after) && AllCovered(c, after, pushes)
    decreases |pushes|
  {
    if pushes != [] {
      var p := pushes[0];
      var mid := ApplyPush(facts, p);
      assert p in pushes;
      PushAllowedIsPoint(c, facts, p);
      ApplyPushEffect(c, facts, p);
      ApplyPushesEffect(c, mid, pushes[1..]);
      var after := ApplyPushes(facts, pushes);
      EntriesGrowTransitive(c, facts, mid, after);
      forall q | q in pushes
        ensures PushCovered(c, after, q)
      {
        if q !in pushes[1..] {
          assert q == p;
          assert Below(mid[Point(p.target, 0)], after[Point(p.target, 0)]);
        }
      }
    }
  }

  lemma CasePushesAllowed(c: Context, fact: Fact, key: Value, cases: seq<Case>)
    requires c.Valid() && IsTracked(c.Fn(), key)
    requires forall t :: t in CaseTargets(cases) ==> t < |c.Fn().blocks|
    ensures forall p :: p in CasePushes(c, fact, key, cases) ==> PushAllowed(c, p)
    decreases |cases|
  {
    if cases != [] {
      assert cases[0].target in CaseTargets(cases);
      assert CaseTargets(cases[1..]) <= CaseTargets(cases);
      CasePushesAllowed(c, fact, key, cases[1..]);
    }
  }

  lemma PushesAllowed(c: Context, b: nat, fact: Fact)
    requires c.Valid() && b < |c.Fn().blocks|
    ensures forall p :: p in Pushes(c, b, fact) ==> PushAllowed(c, p)
  {
    var fn := c.Fn();
    assert WellFormedBlock(fn, b);
    var after := c.returnable[End(fn, b)];
    var checked := Checked(fn, b, after);
    if checked.Some? {
      match Last(fn, b)
      case CondBr(condition, onTrue, onFalse) =>
        var icmp := Definition(fn, condition).value;
        if CheckedReturnValue(fn, condition.block, condition.index, icmp.x, after).Some? {
          CheckedIsAddress(fn, condition.block, condition.index, icmp.x, after);
        } else {
          CheckedIsAddress(fn, condition.block, condition.index, icmp.y, after);
        }
        assert onTrue in Successors(fn, b) && onFalse in Successors(fn, b);
      case Switch(condition, cases, default_) =>
        CheckedIsAddress(fn, b, Length(fn, b) - 1, condition, after);
        assert default_ in Successors(fn, b);
        assert CaseTargets(cases) <= Successors(fn, b);
        CasePushesAllowed(c, fact, checked.value, cases);
    }
  }

  // ----- Visiting a block -----

  /** The ranges after the last instruction of a block. */
  function RangesAfter(c: Context, ranges: Ranges, b: nat, fact: Fact): Ranges
    requires c.Valid() && b < |c.Fn().blocks|
  {
    var last := Last(c.Fn(), b);
    if last.Ret? then
      var s := Contribution(c, ranges, fact, last.result);
      ranges[c.id := if c.id in ranges then Lub(ranges[c.id], s) else s]
    else
      ranges
  }

  lemma RangesAfterGrows(c: Context, ranges: Ranges, b: nat, fact: Fact)
    requires c.Valid() && b < |c.Fn().blocks|
    ensures Below(ranges, RangesAfter(c, ranges, b, fact))
    ensures RangesAfter(c, ranges, b, fact) - {c.id} == ranges - {c.id}
  {
  }

  /** The output facts of the visited block, recomputed from its entry; the facts of
      other blocks stay except for entries that grow. */
  ghost predicate BlockVisited(c: Context, before: Facts, after: Facts, ranges: Ranges, b: nat)
    requires Shape(c, before) && Shape(c, after) && b < |c.Fn().blocks|
  {
    && Consistent(c, after, Visit(before[Point(b, 0)], ranges), b)
    && (forall p | p in before && p.index > 0 && p.block != b :: after[p] == before[p])
    && (forall t: nat | t < |c.Fn().blocks| :: Below(before[Point(t, 0)], after[Point(t, 0)]))
    && Absorbed(c, after, b)
  }

  lemma VisitedBlockInvariant(c: Context, before: Facts, after: Facts, seen: Seen, ranges: Ranges, b: nat)
    requires Invariant(c, before, seen, ranges) && b < |c.Fn().blocks|
    requires Shape(c, after) && BlockVisited(c, before, after, ranges, b)
    ensures var v := Visit(before[Point(b, 0)], ranges);
            var last := LastIndex(c.Fn(), b);
            BlockInvariant(c, after, seen[b := v], RangesAfter(c, ranges, b, InAt(after, v.entry, b, last)), b)
  {
    var v := Visit(before[Point(b, 0)], ranges);
    RangesAfterGrows(c, ranges, b, InAt(after, v.entry, b, LastIndex(c.Fn(), b)));
  }

  /** Only the facts of the block itself and the entries matter to a block. */
  lemma BlockInvariantIsLocal(c: Context, x: Facts, y: Facts, seen: Seen, ranges: Ranges, d: nat)
    requires Shape(c, x) && Shape(c, y) && d < |c.Fn().blocks| && BlockInvariant(c, x, seen, ranges, d)
    requires forall t: nat | t < |c.Fn().blocks| :: y[Point(t, 0)] == x[Point(t, 0)]
    requires forall i: nat | i <= Length(c.Fn(), d) :: y[Point(d, i)] == x[Point(d, i)]
    ensures BlockInvariant(c, y, seen, ranges, d)
  {
    if d in seen {
      forall i: nat | IsInstruction(c.Fn(), d, i)
        ensures AgreesAt(c, y, seen[d], d, i)
      {
        assert AgreesAt(c, x, seen[d], d, i);
      }
      if Length(c.Fn(), d) >= 2 {
        forall p | p in Pushes(c, d, LastIn(c, y, d))
          ensures PushCovered(c, y, p)
        {
          assert PushCovered(c, x, p);
        }
      }
    }
  }

  /** The facts before a visit, with the entries after it. */
  function WithEntries(before: Facts, after: Facts): Facts
    requires before.Keys == after.Keys
  {
    map p | p in before :: if p.index > 0 then before[p] else after[p]
  }

  lemma OtherBlockInvariant(c: Context, before: Facts, after: Facts, seen: Seen, ranges: Ranges, b: nat, d: nat)
    requires Invariant(c, before, seen, ranges) && b < |c.Fn().blocks| && d < |c.Fn().blocks| && d != b
    requires Shape(c, after) && BlockVisited(c, before, after, ranges, b)
    ensures BlockInvariant(c, after, seen, ranges, d)
  {
    assert BlockInvariant(c, before, seen, ranges, d);
    var patched := WithEntries(before, after);
    assert EntriesGrow(c, before, patched);
    EntriesGrowKeepsBlock(c, before, patched, seen, ranges, d);
    forall i: nat | i <= Length(c.Fn(), d)
      ensures after[Point(d, i)] == patched[Point(d, i)]
    {
      assert IsPoint(c.Fn(), Point(d, i));
    }
    BlockInvariantIsLocal(c, patched, after, seen, ranges, d);
  }

  lemma VisitTracks(c: Context, before: Facts, after: Facts, ranges: Ranges, b: nat, i: nat)
    requires Shape(c, before) && Tracks(c, before) && b < |c.Fn().blocks| && i <= Length(c.Fn(), b)
    requires Shape(c, after) && Consistent(c, after, Visit(before[Point(b, 0)], ranges), b)
    requires TracksOnly(c.Fn(), c.returnable[Point(b, 0)], after[Point(b, 0)])
    ensures TracksOnly(c.Fn(), c.returnable[Point(b, i)], after[Point(b, i)])
  {
    if i > 0 {
      VisitTracks(c, before, after, ranges, b, i - 1);
      var v := Visit(before[Point(b, 0)], ranges);
      assert AgreesAt(c, after, v, b, i - 1);
      OutTracksOnly(c, ranges, b, i - 1, InAt(after, v.entry, b, i - 1));
    }
  }

  /** Visiting a block keeps the invariant. */
  lemma VisitKeepsInvariant(c: Context, before: Facts, after: Facts, seen: Seen, ranges: Ranges, b: nat)
    requires Invariant(c, before, seen, ranges) && b < |c.Fn().blocks|
    requires Shape(c, after) && BlockVisited(c, before, after, ranges, b)
    requires forall t: nat | t < |c.Fn().blocks| ::
               TracksOnly(c.Fn(), c.returnable[Point(t, 0)], after[Point(t, 0)])
    ensures var v := Visit(before[Point(b, 0)], ranges);
            var last := LastIndex(c.Fn(), b);
            Invariant(c, after, seen[b := v], RangesAfter(c, ranges, b, InAt(after, v.entry, b, last)))
  {
    var fn := c.Fn();
    var v := Visit(before[Point(b, 0)], ranges);
    var grown := RangesAfter(c, ranges, b, InAt(after, v.entry, b, LastIndex(fn, b)));
    RangesAfterGrows(c, ranges, b, InAt(after, v.entry, b, LastIndex(fn, b)));
    forall p | p in after
      ensures TracksOnly(fn, c.returnable[p], after[p])
    {
      if p.index == 0 {
        assert p == Point(p.block, 0);
      } else if p.block == b {
        VisitTracks(c, before, after, ranges, b, p.index);
      } else {
        assert after[p] == before[p];
      }
    }
    var visited := seen[b := v];
    forall d: nat | d < |fn.blocks|
      ensures BlockInvariant(c, after, visited, grown, d)
    {
      if d == b {
        VisitedBlockInvariant(c, before, after, seen, ranges, b);
      } else {
        OtherBlockInvariant(c, before, after, seen, ranges, b, d);
      }
    }
  }

  /** A visit with the entry and the ranges of the last visit recomputes the same
      output facts. */
  lemma SameVisitSameFacts(c: Context, before: Facts, after: Facts, v: Visit, b: nat, i: nat)
    requires Shape(c, before) && Shape(c, after) && b < |c.Fn().blocks| && 0 < i <= Length(c.Fn(), b)
    requires Consistent(c, before, v, b) && Consistent(c, after, v, b)
    ensures after[Point(b, i)] == before[Point(b, i)]
  {
    assert AgreesAt(c, before, v, b, i - 1) && AgreesAt(c, after, v, b, i - 1);
    if i > 1 {
      SameVisitSameFacts(c, before, after, v, b, i - 1);
    }
  }

  // ----- Within a visit -----

  /** The first `i` output facts of the block have been recomputed, nothing else. */
  ghost predicate Partial(c: Context, before: Facts, now: Facts, ranges: Ranges, b: nat, i: nat)
    requires Shape(c, before) && Shape(c, now) && b < |c.Fn().blocks|
  {
    && (forall j: nat | j < i && IsInstruction(c.Fn(), b, j) ::
          AgreesAt(c, now, Visit(before[Point(b, 0)], ranges), b, j))
    && (forall p | p in before && !(p.block == b && 0 < p.index <= i) :: now[p] == before[p])
  }

  function Stepped(c: Context, ranges: Ranges, facts: Facts, b: nat, i: nat): Facts
    requires Shape(c, facts) && IsInstruction(c.Fn(), b, i)
  {
    facts[Point(b, i + 1) := Out(c, ranges, b, i, facts[Point(b, i)])]
  }

  /** The facts after one instruction: its output fact is recomputed, and a terminator
      pushes. */
  function AfterInstruction(c: Context, ranges: Ranges, facts: Facts, b: nat, i: nat): (after: Facts)
    requires Shape(c, facts) && IsInstruction(c.Fn(), b, i)
    ensures after.Keys == facts.Keys
  {
    assert WellFormedBlock(c.Fn(), b) && IsPoint(c.Fn(), Point(b, i)) && IsPoint(c.Fn(), Point(b, i + 1));
    var stepped := Stepped(c, ranges, facts, b, i);
    if i == LastIndex(c.Fn(), b) then ApplyPushes(stepped, Pushes(c, b, facts[Point(b, i)])) else stepped
  }

  /** A return leaves the facts as they are, if its output fact is empty. */
  lemma ReturnChangesNothing(c: Context, ranges: Ranges, facts: Facts, b: nat, i: nat)
    requires Shape(c, facts) && IsInstruction(c.Fn(), b, i) && c.Fn().blocks[b][i].Ret?
    requires IsPoint(c.Fn(), Point(b, i + 1)) && facts[Point(b, i + 1)] == map[]
    ensures i == LastIndex(c.Fn(), b) && AfterInstruction(c, ranges, facts, b, i) == facts
  {
    assert WellFormedBlock(c.Fn(), b) && IsPoint(c.Fn(), Point(b, i));
    OutOfReturn(c, ranges, b, i, facts[Point(b, i)]);
    assert facts == facts[Point(b, i + 1) := map[]];
  }

  /** The cross-pass invariant holds after every single instruction. */
  lemma InstructionTracks(c: Context, ranges: Ranges, facts: Facts, b: nat, i: nat)
    requires Shape(c, facts) && Tracks(c, facts) && IsInstruction(c.Fn(), b, i)
    ensures Shape(c, AfterInstruction(c, ranges, facts, b, i)) && Tracks(c, AfterInstruction(c, ranges, facts, b, i))
  {
    assert WellFormedBlock(c.Fn(), b) && IsPoint(c.Fn(), Point(b, i)) && IsPoint(c.Fn(), Point(b, i + 1));
    var in_ := facts[Point(b, i)];
    var stepped := Stepped(c, ranges, facts, b, i);
    assert TracksOnly(c.Fn(), c.returnable[Point(b, i)], in_);
    OutTracksOnly(c, ranges, b, i, in_);
    assert Shape(c, stepped) && Tracks(c, stepped);
    PushesAllowed(c, b, in_);
    ApplyPushesEffect(c, stepped, Pushes(c, b, in_));
  }

  lemma StepExtendsPartial(c: Context, before: Facts, now: Facts, ranges: Ranges, b: nat, i: nat)
    requires Shape(c, before) && Shape(c, now) && IsInstruction(c.Fn(), b, i)
    requires Partial(c, before, now, ranges, b, i)
    ensures Shape(c, Stepped(c, ranges, now, b, i))
    ensures Partial(c, before, Stepped(c, ranges, now, b, i), ranges, b, i + 1)
  {
    var after := Stepped(c, ranges, now, b, i);
    var v := Visit(before[Point(b, 0)], ranges);
    assert IsPoint(c.Fn(), Point(b, i + 1));
    forall j: nat | j < i + 1 && IsInstruction(c.Fn(), b, j)
      ensures AgreesAt(c, after, v, b, j)
    {
      if j < i {
        assert AgreesAt(c, now, v, b, j);
      }
    }
  }

  /** Comparing the one output fact that a step writes is enough to notice change. */
  lemma PartialChange(c: Context, before: Facts, now: Facts, after: Facts, ranges: Ranges, b: nat, i: nat)
    requires Shape(c, before) && Shape(c, now) && IsInstruction(c.Fn(), b, i)
    requires Partial(c, before, now, ranges, b, i) && after == Stepped(c, ranges, now, b, i)
    ensures after[Point(b, i + 1)] == now[Point(b, i + 1)] ==> after == now
    ensures now != before ==> after != before
    ensures after[Point(b, i + 1)] != now[Point(b, i + 1)] ==> after != before
  {
    assert IsPoint(c.Fn(), Point(b, i + 1));
    if now != before {
      var p :| p in before && now[p] != before[p];
      assert after[p] != before[p];
    }
  }

  ghost predicate EntriesGrowElsewhere(c: Context, before: Facts, after: Facts, b: nat)
    requires Shape(c, before) && Shape(c, after)
  {
    && (forall p | p in before && p.index > 0 && p.block != b :: after[p] == before[p])
    && (forall t: nat | t < |c.Fn().blocks| :: Below(before[Point(t, 0)], after[Point(t, 0)]))
  }

  lemma AfterSameVisit(c: Context, before: Facts, after: Facts, seen: Seen, ranges: Ranges, b: nat)
    requires Invariant(c, before, seen, ranges) && Shape(c, after) && b < |c.Fn().blocks|
    requires BlockVisited(c, before, after, ranges, b)
    requires b in seen && seen[b] == Visit(before[Point(b, 0)], ranges)
    ensures forall i: nat | 0 < i <= Length(c.Fn(), b) :: after[Point(b, i)] == before[Point(b, i)]
  {
    assert BlockInvariant(c, before, seen, ranges, b);
    forall i: nat | 0 < i <= Length(c.Fn(), b)
      ensures after[Point(b, i)] == before[Point(b, i)]
    {
      SameVisitSameFacts(c, before, after, seen[b], b, i);
    }
  }

  lemma SameVisitNoChange(c: Context, before: Facts, now: Facts, after: Facts, seen: Seen, ranges: Ranges, b: nat)
    requires Invariant(c, before, seen, ranges) && Shape(c, now) && Shape(c, after) && b < |c.Fn().blocks|
    requires Partial(c, before, now, ranges, b, LastIndex(c.Fn(), b))
    requires EntriesGrow(c, Stepped(c, ranges, now, b, LastIndex(c.Fn(), b)), after)
    requires BlockVisited(c, before, after, ranges, b)
    requires b in seen && seen[b] == Visit(before[Point(b, 0)], ranges)
    ensures now == before && after[End(c.Fn(), b)] == now[End(c.Fn(), b)]
  {
    var fn := c.Fn();
    var last := LastIndex(fn, b);
    var stepped := Stepped(c, ranges, now, b, last);
    AfterSameVisit(c, before, after, seen, ranges, b);
    forall p | p in before
      ensures now[p] == before[p]
    {
      if p.block == b && 0 < p.index <= last {
        assert after[p] == stepped[p] == now[p];
        assert p == Point(b, p.index);
      }
    }
    assert IsPoint(fn, End(fn, b)) && End(fn, b) == Point(b, last + 1);
  }

  /** What `changed` says about a whole visit. */
  lemma VisitChange(c: Context, before: Facts, now: Facts, after: Facts, seen: Seen, ranges: Ranges, b: nat, changed: bool)
    requires Invariant(c, before, seen, ranges) && Shape(c, now) && Shape(c, after) && b < |c.Fn().blocks|
    requires Partial(c, before, now, ranges, b, LastIndex(c.Fn(), b))
    requires EntriesGrow(c, Stepped(c, ranges, now, b, LastIndex(c.Fn(), b)), after)
    requires BlockVisited(c, before, after, ranges, b)
    requires changed <==> now != before || after[End(c.Fn(), b)] != now[End(c.Fn(), b)]
    ensures EntriesGrowElsewhere(c, before, after, b)
    ensures !changed ==> EntriesGrow(c, before, after)
    ensures changed ==> b in seen ==> seen[b] != Visit(before[Point(b, 0)], ranges)
  {
    var fn := c.Fn();
    var last := LastIndex(fn, b);
    var stepped := Stepped(c, ranges, now, b, last);
    assert IsPoint(fn, End(fn, b)) && End(fn, b) == Point(b, last + 1);
    assert after[End(fn, b)] == stepped[End(fn, b)];
    if !changed {
      assert stepped == before;
    }
    if b in seen && seen[b] == Visit(before[Point(b, 0)], ranges) {
      SameVisitNoChange(c, before, now, after, seen, ranges, b);
    }
  }

  lemma PartialTracks(c: Context, before: Facts, now: Facts, ranges: Ranges, b: nat)
    requires Shape(c, before) && Tracks(c, before) && Shape(c, now) && b < |c.Fn().blocks|
    requires Partial(c, before, now, ranges, b, Length(c.Fn(), b))
    ensures Tracks(c, now)
  {
    var v := Visit(before[Point(b, 0)], ranges);
    assert forall i: nat | IsInstruction(c.Fn(), b, i) :: AgreesAt(c, now, v, b, i);
    forall p | p in now
      ensures TracksOnly(c.Fn(), c.returnable[p], now[p])
    {
      if p.block == b {
        VisitTracks(c, before, now, ranges, b, p.index);
      }
    }
  }

  lemma EntriesGrowKeepsConsistent(c: Context, now: Facts, after: Facts, v: Visit, b: nat)
    requires Shape(c, now) && Shape(c, after) && b < |c.Fn().blocks|
    requires EntriesGrow(c, now, after) && Consistent(c, now, v, b)
    ensures Consistent(c, after, v, b)
  {
    forall i: nat | IsInstruction(c.Fn(), b, i)
      ensures AgreesAt(c, after, v, b, i)
    {
      assert AgreesAt(c, now, v, b, i);
      assert IsPoint(c.Fn(), Point(b, i)) && IsPoint(c.Fn(), Point(b, i + 1));
    }
  }

  /** Once every output fact is recomputed, pushing completes the visit. */
  lemma PushCompletesVisit(c: Context, before: Facts, now: Facts, ranges: Ranges, b: nat, fact: Fact)
    requires Shape(c, before) && Tracks(c, before) && Shape(c, now) && b < |c.Fn().blocks|
    requires Partial(c, before, now, ranges, b, Length(c.Fn(), b))
    requires fact == now[Point(b, LastIndex(c.Fn(), b))]
    ensures var after := ApplyPushes(now, Pushes(c, b, fact));
            && Shape(c, after) && EntriesGrow(c, now, after)
            && BlockVisited(c, before, after, ranges, b)
            && fact == InAt(after, before[Point(b, 0)], b, LastIndex(c.Fn(), b))
            && forall t: nat | t < |c.Fn().blocks| ::
                 TracksOnly(c.Fn(), c.returnable[Point(t, 0)], after[Point(t, 0)])
  {
    var fn := c.Fn();
    var v := Visit(before[Point(b, 0)], ranges);
    PushesAllowed(c, b, fact);
    PartialTracks(c, before, now, ranges, b);
    ApplyPushesEffect(c, now, Pushes(c, b, fact));
    var after := ApplyPushes(now, Pushes(c, b, fact));
    assert forall i: nat | IsInstruction(fn, b, i) :: AgreesAt(c, now, v, b, i);
    EntriesGrowKeepsConsistent(c, now, after, v, b);
  }

  /** What the last instruction makes of a visit whose other output facts are recomputed. */
  lemma FinishVisit(c: Context, before: Facts, now: Facts, seen: Seen, ranges: Ranges, b: nat, changed: bool)
    requires Invariant(c, before, seen, ranges) && Shape(c, now) && b < |c.Fn().blocks|
    requires Partial(c, before, now, ranges, b, LastIndex(c.Fn(), b))
    requires IsPoint(c.Fn(), End(c.Fn(), b)) && IsPoint(c.Fn(), Point(b, LastIndex(c.Fn(), b)))
    requires var after := AfterInstruction(c, ranges, now, b, LastIndex(c.Fn(), b));
             changed <==> now != before || after[End(c.Fn(), b)] != now[End(c.Fn(), b)]
    ensures var after := AfterInstruction(c, ranges, now, b, LastIndex(c.Fn(), b));
            var v := Visit(before[Point(b, 0)], ranges);
            var grown := RangesAfter(c, ranges, b, now[Point(b, LastIndex(c.Fn(), b))]);
            && Invariant(c, after, Remember(seen, b, v), grown)
            && Below(ranges, grown) && grown - {c.id} == ranges - {c.id}
            && EntriesGrowElsewhere(c, before, after, b)
            && (!changed ==> EntriesGrow(c, before, after))
            && (changed ==> b in seen ==> seen[b] != v)
  {
    var last := LastIndex(c.Fn(), b);
    var fact := now[Point(b, last)];
    var after := AfterInstruction(c, ranges, now, b, last);
    StepExtendsPartial(c, before, now, ranges, b, last);
    PushCompletesVisit(c, before, Stepped(c, ranges, now, b, last), ranges, b, fact);
    VisitChange(c, before, now, after, seen, ranges, b, changed);
    VisitKeepsInvariant(c, before, after, seen, ranges, b);
    RangesAfterGrows(c, ranges, b, fact);
  }

  lemma OutOfReturn(c: Context, ranges: Ranges, b: nat, i: nat, fact: Fact)
    requires c.Valid() && IsInstruction(c.Fn(), b, i) && c.Fn().blocks[b][i].Ret?
    ensures Out(c, ranges, b, i, fact) == map[]
  {
  }

  /** The output fact of a return is empty, before and after any visit. */
  lemma ReturnOutIsEmpty(c: Context, facts: Facts, seen: Seen, ranges: Ranges, b: nat)
    requires Invariant(c, facts, seen, ranges) && b < |c.Fn().blocks|
    requires Last(c.Fn(), b).Ret?
    ensures facts[End(c.Fn(), b)] == map[]
  {
    assert BlockInvariant(c, facts, seen, ranges, b);
    var last := LastIndex(c.Fn(), b);
    assert IsInstruction(c.Fn(), b, last) && Point(b, last + 1) == End(c.Fn(), b);
    if b in seen {
      assert AgreesAt(c, facts, seen[b], b, last);
      OutOfReturn(c, seen[b].ranges, b, last, InAt(facts, seen[b].entry, b, last));
    }
  }

  // ----- Progress -----

  datatype Atom = Visited | EntryAtom(key: Value, bit: Bit) | RangeAtom(bit: Bit)

  function Atoms(c: Context, b: nat): set<Atom>
    requires c.Valid() && b < |c.Fn().blocks|
  {
    {Visited} + (set k, bit | k in c.returnable[Point(b, 0)] && bit in AllBits() :: EntryAtom(k, bit))
    + (set bit | bit in AllBits() :: RangeAtom(bit))
  }

  ghost predicate HasAtom(c: Context, seen: Seen, b: nat, a: Atom) {
    b in seen && match a
    case Visited => true
    case EntryAtom(k, bit) => HasBit(seen[b].entry, k, bit)
    case RangeAtom(bit) => HasBit(seen[b].ranges, c.id, bit)
  }

  /** Everything the remembered visits of a function could say; its size is the height of
      the lattice they climb. */
  function Universe(c: Context): set<(nat, Atom)>
    requires c.Valid()
  {
    set b: nat, a | b < |c.Fn().blocks| && a in Atoms(c, b) :: (b, a)
  }

  /** What the remembered visits of a function could still gain. */
  ghost function Missing(c: Context, seen: Seen): set<(nat, Atom)>
    requires c.Valid()
  {
    set b: nat, a | b < |c.Fn().blocks| && a in Atoms(c, b) && !HasAtom(c, seen, b, a) :: (b, a)
  }

  lemma MissingBound(c: Context, seen: Seen)
    requires c.Valid()
    ensures |Missing(c, seen)| <= |Universe(c)|
  {
    SubsetCardinality(Missing(c, seen), Universe(c));
  }

  lemma VisitShrinksMissing(c: Context, seen: Seen, b: nat, v: Visit)
    requires c.Valid() && b < |c.Fn().blocks|
    requires b in seen ==> Below(seen[b].entry, v.entry) && Below(seen[b].ranges, v.ranges)
    ensures Missing(c, seen[b := v]) <= Missing(c, seen)
  {
    forall d: nat, a | d < |c.Fn().blocks| && a in Atoms(c, d) && HasAtom(c, seen, d, a)
      ensures HasAtom(c, seen[b := v], d, a)
    {
      if d == b {
        match a
        case Visited =>
        case EntryAtom(k, bit) => GrowthKeepsBits(seen[b].entry, v.entry, k, bit);
        case RangeAtom(bit) => GrowthKeepsBits(seen[b].ranges, v.ranges, c.id, bit);
      }
    }
  }

  lemma BitElsewhere(x: Ranges, y: Ranges, ids: set<nat>, k: nat, bit: Bit)
    requires x - ids == y - ids && k !in ids
    ensures HasBit(x, k, bit) <==> HasBit(y, k, bit)
  {
    assert k in x <==> k in x - ids;
    assert k in y <==> k in y - ids;
    if k in x && k in y {
      assert (x - ids)[k] == (y - ids)[k];
    }
  }

  /** A visit that differs from the last one, other than in the ranges of other
      functions, makes progress. */
  lemma ChangeShrinksMissing(c: Context, seen: Seen, b: nat, v: Visit)
    requires c.Valid() && b < |c.Fn().blocks|
    requires v.entry.Keys <= c.returnable[Point(b, 0)]
    requires b in seen ==>
      && Below(seen[b].entry, v.entry) && Below(seen[b].ranges, v.ranges)
      && seen[b].ranges - {c.id} == v.ranges - {c.id} && seen[b] != v
    ensures Missing(c, seen[b := v]) < Missing(c, seen)
  {
    VisitShrinksMissing(c, seen, b, v);
    var a: Atom;
    if b !in seen {
      a := Visited;
    } else if seen[b].entry != v.entry {
      var k, bit := GrowthGainsBit(seen[b].entry, v.entry);
      a := EntryAtom(k, bit);
    } else {
      var k, bit := GrowthGainsBit(seen[b].ranges, v.ranges);
      if k != c.id {
        BitElsewhere(seen[b].ranges, v.ranges, {c.id}, k, bit);
      }
      a := RangeAtom(bit);
    }
    assert a in Atoms(c, b);
    assert (b, a) in Missing(c, seen) && (b, a) !in Missing(c, seen[b := v]);
  }

  // ----- The end of a run over one function -----

  /** Every predecessor's output fact is covered by the entry the block was visited with. */
  ghost predicate EdgesInto(c: Context, facts: Facts, entry: Fact, b: nat)
    requires Shape(c, facts) && b < |c.Fn().blocks|
  {
    forall p | p in Predecessors(c.Fn(), b) ::
      Below(Filtered(facts[End(c.Fn(), p)], c.returnable[Point(b, 0)]), entry)
  }

  /** What a block pushes about a value it knows has reached the entry its successor
      was visited with. */
  ghost predicate PushesReach(c: Context, facts: Facts, seen: Seen, b: nat)
    requires Shape(c, facts) && b < |c.Fn().blocks|
  {
    Length(c.Fn(), b) >= 2 ==>
      forall p | p in Pushes(c, b, LastIn(c, facts, b)) && p.key in LastIn(c, facts, b) ::
        p.target in seen && Covers(seen[p.target].entry, p.key, p.sign)
  }

  ghost predicate Settled(c: Context, facts: Facts, seen: Seen)
    requires Shape(c, facts)
  {
    forall b: nat | b < |c.Fn().blocks| ::
      b in seen && EdgesInto(c, facts, seen[b].entry, b) && PushesReach(c, facts, seen, b)
  }
}
