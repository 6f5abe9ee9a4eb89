/** One sweep of the return-range pass over all blocks of a function: what it has
    achieved after `b` blocks, and why a sweep that changes no output fact leaves the
    function settled. */
module RangeSweep {
  import opened SignFacts
  import opened Cardinality
  import opened IR
  import opened RangeTransfer
  import opened RangeInvariant

  /** Where a sweep started, and the ranges the whole run started from. */
  datatype Start = Start(facts: Facts, seen: Seen, ranges: Ranges, floor: Ranges)

  /** The pass state that concerns one function. */
  datatype Now = Now(facts: Facts, seen: Seen, ranges: Ranges)

  /** The ranges of other functions, which a run over one function does not touch. */
  function Others(c: Context, ranges: Ranges): Ranges {
    ranges - {c.id}
  }

  ghost predicate VisitedInRun(c: Context, floor: Ranges, now: Now, d: nat) {
    && d in now.seen
    && Others(c, now.seen[d].ranges) == Others(c, now.ranges)
    && Below(floor, now.seen[d].ranges)
  }

  ghost predicate AllVisitedInRun(c: Context, floor: Ranges, now: Now)
    requires c.Valid()
  {
    forall d: nat | d < |c.Fn().blocks| :: VisitedInRun(c, floor, now, d)
  }

  ghost predicate RangesKept(c: Context, start: Start, now: Now) {
    && Below(start.floor, now.ranges) && Below(start.ranges, now.ranges)
    && Others(c, now.ranges) == Others(c, start.ranges)
  }

  /** The first `b` blocks have been visited since the sweep started, the others not. */
  ghost predicate VisitedSince(c: Context, start: Start, now: Now, b: nat)
    requires Shape(c, start.facts)
  {
    && (forall d: nat | d < b && d < |c.Fn().blocks| :: VisitedHere(c, start, now, d))
    && (forall d: nat | b <= d < |c.Fn().blocks| :: NotYetVisited(start, now, d))
  }

  ghost predicate VisitedHere(c: Context, start: Start, now: Now, d: nat)
    requires Shape(c, start.facts) && d < |c.Fn().blocks|
  {
    VisitedInRun(c, start.floor, now, d) && Below(start.facts[Point(d, 0)], now.seen[d].entry)
  }

  ghost predicate NotYetVisited(start: Start, now: Now, d: nat) {
    (d in now.seen <==> d in start.seen) && (d in now.seen ==> now.seen[d] == start.seen[d])
  }

  ghost predicate EntriesAbove(c: Context, before: Facts, after: Facts)
    requires Shape(c, before) && Shape(c, after)
  {
    forall t: nat | t < |c.Fn().blocks| :: EntryAbove(c, before, after, t)
  }

  ghost predicate EntryAbove(c: Context, before: Facts, after: Facts, t: nat)
    requires Shape(c, before) && Shape(c, after) && t < |c.Fn().blocks|
  {
    Below(before[Point(t, 0)], after[Point(t, 0)])
  }

  /** No output fact has changed, and the edges into the visited blocks are covered. */
  ghost predicate Quiet(c: Context, start: Start, now: Now, b: nat)
    requires Shape(c, start.facts) && Shape(c, now.facts)
  {
    && EntriesGrow(c, start.facts, now.facts)
    && forall d: nat | d < b && d < |c.Fn().blocks| :: EdgesCovered(c, now, d)
  }

  ghost predicate EdgesCovered(c: Context, now: Now, d: nat)
    requires Shape(c, now.facts) && d < |c.Fn().blocks|
  {
    d in now.seen && EdgesInto(c, now.facts, now.seen[d].entry, d)
  }

  /** Progress of a sweep after its first `b` blocks. */
  ghost predicate Swept(c: Context, start: Start, now: Now, b: nat, changed: bool)
    requires Shape(c, start.facts) && Shape(c, now.facts)
  {
    && RangesKept(c, start, now)
    && VisitedSince(c, start, now, b)
    && EntriesAbove(c, start.facts, now.facts)
    && (!changed ==> Quiet(c, start, now, b))
  }

  lemma EdgesIntoStable(c: Context, before: Facts, after: Facts, entry: Fact, d: nat)
    requires Shape(c, before) && Shape(c, after) && d < |c.Fn().blocks|
    requires EntriesGrow(c, before, after) && EdgesInto(c, before, entry, d)
    ensures EdgesInto(c, after, entry, d)
  {
    forall p | p in Predecessors(c.Fn(), d)
      ensures Below(Filtered(after[End(c.Fn(), p)], c.returnable[Point(d, 0)]), entry)
    {
      assert IsPoint(c.Fn(), End(c.Fn(), p)) && WellFormedBlock(c.Fn(), p);
    }
  }

  /** The state after joining the predecessors of block `b` and visiting it. */
  ghost predicate BlockStep(c: Context, now: Now, joined: Facts, after: Now, b: nat, blockChanged: bool)
    requires Shape(c, now.facts) && Shape(c, joined) && Shape(c, after.facts) && b < |c.Fn().blocks|
  {
    && EntriesGrow(c, now.facts, joined)
    && EdgesInto(c, joined, joined[Point(b, 0)], b)
    && after.seen == Remember(now.seen, b, Visit(joined[Point(b, 0)], now.ranges))
    && EntriesGrowElsewhere(c, joined, after.facts, b)
    && Below(now.ranges, after.ranges) && Others(c, after.ranges) == Others(c, now.ranges)
    && (!blockChanged ==> EntriesGrow(c, joined, after.facts))
    && (blockChanged ==> b in now.seen ==> now.seen[b] != after.seen[b])
  }

  lemma EntriesAboveStep(c: Context, start: Facts, now: Now, joined: Facts, after: Now, b: nat, blockChanged: bool)
    requires Shape(c, start) && Shape(c, now.facts) && Shape(c, joined) && Shape(c, after.facts)
    requires b < |c.Fn().blocks| && EntriesAbove(c, start, now.facts) && BlockStep(c, now, joined, after, b, blockChanged)
    ensures EntriesAbove(c, start, after.facts)
    ensures Below(start[Point(b, 0)], joined[Point(b, 0)])
  {
    assert EntryAbove(c, start, now.facts, b);
    BelowTransitive(start[Point(b, 0)], now.facts[Point(b, 0)], joined[Point(b, 0)]);
    forall t: nat | t < |c.Fn().blocks|
      ensures EntryAbove(c, start, after.facts, t)
    {
      assert EntryAbove(c, start, now.facts, t);
      BelowTransitive(start[Point(t, 0)], now.facts[Point(t, 0)], joined[Point(t, 0)]);
      BelowTransitive(start[Point(t, 0)], joined[Point(t, 0)], after.facts[Point(t, 0)]);
    }
  }

  lemma VisitedSinceStep(c: Context, start: Start, now: Now, joined: Facts, after: Now, b: nat, blockChanged: bool)
    requires Shape(c, start.facts) && Shape(c, now.facts) && Shape(c, joined) && Shape(c, after.facts)
    requires b < |c.Fn().blocks| && RangesKept(c, start, now) && VisitedSince(c, start, now, b)
    requires Below(start.facts[Point(b, 0)], joined[Point(b, 0)])
    requires BlockStep(c, now, joined, after, b, blockChanged)
    ensures RangesKept(c, start, after) && VisitedSince(c, start, after, b + 1)
  {
    BelowTransitive(start.floor, now.ranges, after.ranges);
    BelowTransitive(start.ranges, now.ranges, after.ranges);
    forall d: nat | d < b + 1 && d < |c.Fn().blocks|
      ensures VisitedHere(c, start, after, d)
    {
      if d < b {
        assert VisitedHere(c, start, now, d);
      }
    }
    forall d: nat | b + 1 <= d < |c.Fn().blocks|
      ensures NotYetVisited(start, after, d)
    {
      assert NotYetVisited(start, now, d);
    }
  }

  lemma QuietStep(c: Context, start: Start, now: Now, joined: Facts, after: Now, b: nat)
    requires Shape(c, start.facts) && Shape(c, now.facts) && Shape(c, joined) && Shape(c, after.facts)
    requires b < |c.Fn().blocks| && Quiet(c, start, now, b) && BlockStep(c, now, joined, after, b, false)
    ensures Quiet(c, start, after, b + 1)
  {
    EntriesGrowTransitive(c, start.facts, now.facts, joined);
    EntriesGrowTransitive(c, start.facts, joined, after.facts);
    forall d: nat | d < b + 1 && d < |c.Fn().blocks|
      ensures EdgesCovered(c, after, d)
    {
      if d < b {
        assert EdgesCovered(c, now, d);
        EdgesIntoStable(c, now.facts, joined, now.seen[d].entry, d);
        EdgesIntoStable(c, joined, after.facts, now.seen[d].entry, d);
      } else {
        EdgesIntoStable(c, joined, after.facts, joined[Point(b, 0)], b);
      }
    }
  }

  lemma SweptExtends(c: Context, start: Start, now: Now, joined: Facts, after: Now, b: nat, changed: bool, blockChanged: bool)
    requires Shape(c, start.facts) && Shape(c, now.facts) && Shape(c, joined) && Shape(c, after.facts)
    requires b < |c.Fn().blocks| && Swept(c, start, now, b, changed) && BlockStep(c, now, joined, after, b, blockChanged)
    ensures Swept(c, start, after, b + 1, blockChanged || changed)
  {
    EntriesAboveStep(c, start.facts, now, joined, after, b, blockChanged);
    VisitedSinceStep(c, start, now, joined, after, b, blockChanged);
    if !(blockChanged || changed) {
      QuietStep(c, start, now, joined, after, b);
    }
  }

  /** A visit makes what is missing no larger; one that changes an output fact makes
      it smaller, once the ranges of other functions are those of the last visit. */
  lemma StepShrinksMissing(c: Context, now: Now, joined: Facts, after: Now, b: nat, blockChanged: bool)
    requires Invariant(c, joined, now.seen, now.ranges) && Shape(c, now.facts) && Shape(c, after.facts)
    requires b < |c.Fn().blocks| && BlockStep(c, now, joined, after, b, blockChanged)
    ensures Missing(c, after.seen) <= Missing(c, now.seen)
    ensures blockChanged && (b in now.seen ==> Others(c, now.seen[b].ranges) == Others(c, now.ranges)) ==>
              Missing(c, after.seen) < Missing(c, now.seen)
  {
    var v := Visit(joined[Point(b, 0)], now.ranges);
    assert BlockInvariant(c, joined, now.seen, now.ranges, b);
    VisitShrinksMissing(c, now.seen, b, v);
    if blockChanged && (b in now.seen ==> Others(c, now.seen[b].ranges) == Others(c, now.ranges)) {
      assert IsPoint(c.Fn(), Point(b, 0));
      ChangeShrinksMissing(c, now.seen, b, v);
    }
  }

  /** After the first sweep of a run, a block about to be visited was last visited
      with the ranges that other functions still have. */
  lemma LastVisitHasRanges(c: Context, start: Start, now: Now, b: nat, first: bool)
    requires Shape(c, start.facts) && Shape(c, now.facts) && b < |c.Fn().blocks|
    requires RangesKept(c, start, now) && VisitedSince(c, start, now, b)
    requires first || AllVisitedInRun(c, start.floor, Now(start.facts, start.seen, start.ranges))
    ensures !first ==> b in now.seen && Others(c, now.seen[b].ranges) == Others(c, now.ranges)
  {
    assert NotYetVisited(start, now, b);
    if !first {
      assert VisitedInRun(c, start.floor, Now(start.facts, start.seen, start.ranges), b);
    }
  }

  /** A sweep up to block `b`, and how much nearer to its end the analysis is. */
  ghost predicate SweptSoFar(c: Context, start: Start, now: Now, b: nat, changed: bool, first: bool)
    requires Shape(c, start.facts) && Shape(c, now.facts)
  {
    && Swept(c, start, now, b, changed)
    && Missing(c, now.seen) <= Missing(c, start.seen)
    && (changed && !first ==> Missing(c, now.seen) < Missing(c, start.seen))
  }

  lemma SweepStep(c: Context, start: Start, now: Now, joined: Facts, after: Now, b: nat, changed: bool,
                  blockChanged: bool, first: bool)
    requires Shape(c, start.facts) && Shape(c, now.facts) && Shape(c, joined) && Shape(c, after.facts)
    requires b < |c.Fn().blocks| && SweptSoFar(c, start, now, b, changed, first)
    requires BlockStep(c, now, joined, after, b, blockChanged)
    requires first || AllVisitedInRun(c, start.floor, Now(start.facts, start.seen, start.ranges))
    requires Missing(c, after.seen) <= Missing(c, now.seen)
    requires blockChanged && (b in now.seen ==> Others(c, now.seen[b].ranges) == Others(c, now.ranges)) ==>
               Missing(c, after.seen) < Missing(c, now.seen)
    ensures SweptSoFar(c, start, after, b + 1, blockChanged || changed, first)
  {
    LastVisitHasRanges(c, start, now, b, first);
    SweptExtends(c, start, now, joined, after, b, changed, blockChanged);
  }

  lemma SweptCount(c: Context, start: Start, now: Now, b: nat, changed: bool, first: bool)
    requires Shape(c, start.facts) && Shape(c, now.facts) && SweptSoFar(c, start, now, b, changed, first)
    ensures |Missing(c, now.seen)| + (if changed && !first then 1 else 0) <= |Missing(c, start.seen)|
  {
    SubsetCardinality(Missing(c, now.seen), Missing(c, start.seen));
  }

  lemma SweepStarts(c: Context, start: Start)
    requires Shape(c, start.facts) && Below(start.floor, start.ranges)
    ensures Swept(c, start, Now(start.facts, start.seen, start.ranges), 0, false)
  {
  }

  lemma SweepEnds(c: Context, start: Start, now: Now, changed: bool)
    requires Shape(c, start.facts) && Shape(c, now.facts)
    requires Swept(c, start, now, |c.Fn().blocks|, changed)
    ensures RangesKept(c, start, now) && AllVisitedInRun(c, start.floor, now)
  {
    forall d: nat | d < |c.Fn().blocks|
      ensures VisitedInRun(c, start.floor, now, d)
    {
      assert VisitedHere(c, start, now, d);
    }
  }

  lemma UnchangedPushesReach(c: Context, start: Start, now: Now, b: nat)
    requires Invariant(c, start.facts, start.seen, start.ranges) && Shape(c, now.facts)
    requires Swept(c, start, now, |c.Fn().blocks|, false) && b < |c.Fn().blocks|
    ensures PushesReach(c, now.facts, now.seen, b)
  {
    var fn := c.Fn();
    if Length(fn, b) >= 2 {
      var last := LastIndex(fn, b);
      assert WellFormedBlock(fn, b) && IsPoint(fn, Point(b, last));
      assert LastIn(c, now.facts, b) == LastIn(c, start.facts, b);
      assert BlockInvariant(c, start.facts, start.seen, start.ranges, b);
      if b in start.seen {
        forall p | p in Pushes(c, b, LastIn(c, now.facts, b))
          ensures p.target in now.seen && Covers(now.seen[p.target].entry, p.key, p.sign)
        {
          assert PushCovered(c, start.facts, p);
          assert VisitedHere(c, start, now, p.target);
        }
      } else {
        // Never visited before the sweep, and unchanged by it: nothing is known.
        assert IsInstruction(fn, b, last - 1);
        assert LastIn(c, now.facts, b) == map[];
      }
    }
  }

  /** A sweep that changes no output fact leaves the function settled, although pushes
      along back edges go unnoticed by `changed`. */
  lemma UnchangedSweepSettles(c: Context, start: Start, now: Now)
    requires Invariant(c, start.facts, start.seen, start.ranges) && Shape(c, now.facts)
    requires Swept(c, start, now, |c.Fn().blocks|, false)
    ensures Settled(c, now.facts, now.seen)
  {
    forall b: nat | b < |c.Fn().blocks|
      ensures b in now.seen && EdgesInto(c, now.facts, now.seen[b].entry, b) && PushesReach(c, now.facts, now.seen, b)
    {
      assert EdgesCovered(c, now, b);
      UnchangedPushesReach(c, start, now, b);
    }
  }

  // ----- Joining predecessors -----

  /** The entry of a block is the least fact above its earlier entry and what the output
      facts of the given predecessors say of values that are returnable at the entry: a
      fact is above the entry if and only if it is above all of these. Nothing else has
      changed. */
  ghost predicate EntryIsJoin(c: Context, before: Facts, after: Facts, b: nat, done: set<nat>)
    requires Shape(c, before) && b < |c.Fn().blocks|
  {
    && IsPoint(c.Fn(), Point(b, 0)) && Point(b, 0) in after
    && after == before[Point(b, 0) := after[Point(b, 0)]]
    && forall z: Fact :: Below(after[Point(b, 0)], z) <==> AboveEntryAndEdges(c, before, b, done, z)
  }

  ghost predicate AboveEntryAndEdges(c: Context, before: Facts, b: nat, done: set<nat>, z: Fact)
    requires Shape(c, before) && b < |c.Fn().blocks| && IsPoint(c.Fn(), Point(b, 0))
  {
    && Below(before[Point(b, 0)], z)
    && forall p | p in done && p < |c.Fn().blocks| :: AboveEdge(c, before, p, b, z)
  }

  ghost predicate AboveEdge(c: Context, facts: Facts, p: nat, b: nat, z: Fact)
    requires Shape(c, facts) && b < |c.Fn().blocks| && p < |c.Fn().blocks|
  {
    assert IsPoint(c.Fn(), End(c.Fn(), p)) && IsPoint(c.Fn(), Point(b, 0));
    Below(Filtered(facts[End(c.Fn(), p)], c.returnable[Point(b, 0)]), z)
  }

  lemma EntryStarts(c: Context, facts: Facts, b: nat)
    requires Shape(c, facts) && b < |c.Fn().blocks|
    ensures EntryIsJoin(c, facts, facts, b, {})
  {
    assert IsPoint(c.Fn(), Point(b, 0));
    assert facts == facts[Point(b, 0) := facts[Point(b, 0)]];
  }

  lemma EntryIsJoinStep(c: Context, before: Facts, now: Facts, b: nat, done: set<nat>, p: nat)
    requires Shape(c, before) && b < |c.Fn().blocks| && p < |c.Fn().blocks|
    requires EntryIsJoin(c, before, now, b, done) && IsPoint(c.Fn(), End(c.Fn(), p))
    ensures var start := Point(b, 0);
            EntryIsJoin(c, before, now[start := Joined(now[start], Filtered(now[End(c.Fn(), p)], c.returnable[start]))],
                        b, done + {p})
  {
    var start := Point(b, 0);
    assert WellFormedBlock(c.Fn(), p);
    var sent := Filtered(now[End(c.Fn(), p)], c.returnable[start]);
    var entry := Joined(now[start], sent);
    forall z: Fact
      ensures Below(entry, z) <==> AboveEntryAndEdges(c, before, b, done + {p}, z)
    {
      JoinedIsLeast(now[start], sent, z);
      if Below(entry, z) {
        BelowTransitive(now[start], entry, z);
        BelowTransitive(sent, entry, z);
      }
      assert Below(now[start], z) <==> AboveEntryAndEdges(c, before, b, done, z);
      assert Below(sent, z) <==> AboveEdge(c, before, p, b, z);
    }
  }

  lemma EntryIsJoinCovers(c: Context, before: Facts, after: Facts, b: nat)
    requires Shape(c, before) && Shape(c, after) && b < |c.Fn().blocks|
    requires EntryIsJoin(c, before, after, b, Predecessors(c.Fn(), b))
    ensures EntriesGrow(c, before, after) && EdgesInto(c, after, after[Point(b, 0)], b)
  {
    var entry := after[Point(b, 0)];
    assert Below(entry, entry);
    assert AboveEntryAndEdges(c, before, b, Predecessors(c.Fn(), b), entry);
    forall p | p in Predecessors(c.Fn(), b)
      ensures Below(Filtered(after[End(c.Fn(), p)], c.returnable[Point(b, 0)]), entry)
    {
      assert WellFormedBlock(c.Fn(), p) && AboveEdge(c, before, p, b, entry);
    }
  }

  lemma JoinStep(c: Context, facts: Facts, seen: Seen, ranges: Ranges, b: nat, p: nat)
    requires Invariant(c, facts, seen, ranges) && b < |c.Fn().blocks| && p < |c.Fn().blocks|
    ensures IsPoint(c.Fn(), Point(b, 0)) && IsPoint(c.Fn(), End(c.Fn(), p))
    ensures var start := Point(b, 0);
            var entry := Joined(facts[start], Filtered(facts[End(c.Fn(), p)], c.returnable[start]));
            Invariant(c, facts[start := entry], seen, ranges)
  {
    var fn := c.Fn();
    var start := Point(b, 0);
    assert IsPoint(fn, start) && IsPoint(fn, End(fn, p));
    var added := Filtered(facts[End(fn, p)], c.returnable[start]);
    var entry := Joined(facts[start], added);
    var after := facts[start := entry];
    JoinedIsLeast(facts[start], added, entry);
    assert TracksOnly(fn, c.returnable[End(fn, p)], facts[End(fn, p)]);
    EntriesGrowKeepsInvariant(c, facts, after, seen, ranges);
  }
}
