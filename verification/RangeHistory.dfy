/** The whole run of the return-range pass as a sequence of states. Each state follows
    from the one before by a visit of an instruction or by a join along an edge, and
    both are given by their meaning. The range of a function is therefore exactly what
    its returns have returned in the course of the run, and nothing more. */
module RangeHistory {
  import opened SignLattice
  import opened SignFacts
  import opened IR
  import opened RangeTransfer
  import opened RangeInvariant
  import opened RangeFixpoint
  import opened RangeMeaning
  import RV = ReturnedValues

  datatype State = State(facts: seq<Facts>, ranges: Ranges)

  datatype Event =
    | Instruction(id: nat, block: nat, index: nat)  // the instruction is visited
    | Edge(id: nat, from: nat, to: nat)             // the output fact of a predecessor is joined

  datatype History = History(states: seq<State>, events: seq<Event>)

  datatype Program = Program(functions: seq<Function>, returnable: seq<RV.Facts>) {
    function Ctx(f: nat): Context
      requires f < |functions| && |returnable| == |functions|
    {
      Context(functions, f, returnable[f])
    }

    ghost predicate IsFunction(f: nat) {
      f < |functions| && |returnable| == |functions| && Ctx(f).Valid()
    }
  }

  // ----- Steps -----

  /** The entry of `to` gains what the output fact of `from` says of values that are
      returnable there; all other facts stay. */
  ghost predicate Joins(c: Context, before: Facts, from: nat, to: nat, after: Facts)
    requires Shape(c, before) && Shape(c, after) && from < |c.Fn().blocks| && to < |c.Fn().blocks|
  {
    && (forall p | p in before && p != Point(to, 0) :: after[p] == before[p])
    && forall key :: JoinsKey(c, before, from, to, after, key)
  }

  ghost predicate JoinsKey(c: Context, before: Facts, from: nat, to: nat, after: Facts, key: Value)
    requires Shape(c, before) && Shape(c, after) && from < |c.Fn().blocks| && to < |c.Fn().blocks|
  {
    assert IsPoint(c.Fn(), Point(to, 0)) && IsPoint(c.Fn(), End(c.Fn(), from));
    var now, then_, sent := before[Point(to, 0)], after[Point(to, 0)], before[End(c.Fn(), from)];
    var isSent := key in sent && key in c.returnable[Point(to, 0)];
    && (key in then_ <==> key in now || isSent)
    && (key in then_ ==> forall x ::
          In(x, then_[key]) <==> (key in now && In(x, now[key])) || (isSent && In(x, sent[key])))
  }

  lemma JoinedMeans(c: Context, facts: Facts, from: nat, to: nat)
    requires Shape(c, facts) && from < |c.Fn().blocks| && to < |c.Fn().blocks|
    requires IsPoint(c.Fn(), Point(to, 0)) && IsPoint(c.Fn(), End(c.Fn(), from))
    ensures var start := Point(to, 0);
            var entry := Joined(facts[start], Filtered(facts[End(c.Fn(), from)], c.returnable[start]));
            Joins(c, facts, from, to, facts[start := entry])
  {
    var start := Point(to, 0);
    var sent := facts[End(c.Fn(), from)];
    var entry := Joined(facts[start], Filtered(sent, c.returnable[start]));
    var after := facts[start := entry];
    forall key
      ensures JoinsKey(c, facts, from, to, after, key)
    {
      if key in facts[start] && key in sent && key in c.returnable[start] {
        forall x
          ensures In(x, entry[key]) <==> In(x, facts[start][key]) || In(x, sent[key])
        {
          InByAtoms(x, facts[start][key]);
          InByAtoms(x, sent[key]);
          InByAtoms(x, entry[key]);
        }
      }
    }
  }

  /** Only the facts of function `f` may differ. */
  ghost predicate OnlyFactsOf(f: nat, x: State, y: State) {
    && f < |x.facts| && |y.facts| == |x.facts|
    && forall g: nat | g < |x.facts| && g != f :: y.facts[g] == x.facts[g]
  }

  ghost predicate Steps(program: Program, x: State, event: Event, y: State) {
    && program.IsFunction(event.id)
    && OnlyFactsOf(event.id, x, y)
    && var c := program.Ctx(event.id);
       var before, after := x.facts[event.id], y.facts[event.id];
       && Shape(c, before) && Tracks(c, before) && Shape(c, after)
       && match event
          case Instruction(_, b, i) =>
            && IsInstruction(c.Fn(), b, i) && IsPoint(c.Fn(), Point(b, i))
            && Visits(c, x.ranges, before, b, i, after)
            && Widens(c, x.ranges, before[Point(b, i)], c.Fn().blocks[b][i], y.ranges)
          case Edge(_, p, b) =>
            && b < |c.Fn().blocks| && p in Predecessors(c.Fn(), b)
            && Joins(c, before, p, b, after)
            && y.ranges == x.ranges
  }

  ghost predicate StartsEmpty(state: State) {
    && state.ranges == map[]
    && forall f: nat, p | f < |state.facts| && p in state.facts[f] :: state.facts[f][p] == map[]
  }

  ghost predicate StepAt(program: Program, h: History, k: nat)
    requires k < |h.events| && |h.states| == |h.events| + 1
  {
    Steps(program, h.states[k], h.events[k], h.states[k + 1])
  }

  /** A run that starts with empty facts and no ranges and leads to the given state. */
  ghost predicate LeadsTo(program: Program, h: History, state: State) {
    && |h.states| == |h.events| + 1
    && StartsEmpty(h.states[0])
    && h.states[|h.events|] == state
    && forall k: nat | k < |h.events| :: StepAt(program, h, k)
  }

  function Extended(h: History, event: Event, state: State): History {
    History(h.states + [state], h.events + [event])
  }

  lemma ExtendedLeads(program: Program, h: History, x: State, event: Event, y: State)
    requires LeadsTo(program, h, x) && Steps(program, x, event, y)
    ensures LeadsTo(program, Extended(h, event, y), y)
  {
    var longer := Extended(h, event, y);
    forall k: nat | k < |longer.events|
      ensures StepAt(program, longer, k)
    {
      if k < |h.events| {
        assert StepAt(program, h, k);
      }
    }
  }

  // ----- Where the range of a function comes from -----

  /** Event `k` of the history is a visit of a return of function `g`. */
  ghost predicate ReturnVisit(program: Program, h: History, k: nat, g: nat) {
    && k < |h.events| && |h.states| == |h.events| + 1 && StepAt(program, h, k)
    && h.events[k].Instruction? && h.events[k].id == g
    && program.functions[g].blocks[h.events[k].block][h.events[k].index].Ret?
  }

  /** It may return `x`, by what the facts and the ranges said at that moment. */
  ghost predicate ReturnedAt(program: Program, h: History, k: nat, g: nat, x: int) {
    ReturnVisit(program, h, k, g) &&
    var c, before := program.Ctx(g), h.states[k];
    var Instruction(_, b, i) := h.events[k];
    MayReturn(c, before.ranges, before.facts[g][Point(b, i)], c.Fn().blocks[b][i].result, x)
  }

  lemma RangeStep(program: Program, h: History, state: State, k: nat, g: nat, x: int)
    requires LeadsTo(program, h, state) && k < |h.events|
    ensures g in h.states[k + 1].ranges <==> g in h.states[k].ranges || ReturnVisit(program, h, k, g)
    ensures g in h.states[k + 1].ranges ==>
              (In(x, h.states[k + 1].ranges[g]) <==>
                 (g in h.states[k].ranges && In(x, h.states[k].ranges[g])) || ReturnedAt(program, h, k, g, x))
  {
    assert StepAt(program, h, k);
  }

  /** What holds from some step on held because of some step. */
  lemma {:induction false} BecauseOfSomeStep(holds: nat -> bool, cause: nat -> bool, n: nat)
    requires !holds(0)
    requires forall k: nat | k < n :: holds(k + 1) <==> holds(k) || cause(k)
    ensures holds(n) <==> exists k: nat :: k < n && cause(k)
  {
    if n > 0 {
      BecauseOfSomeStep(holds, cause, n - 1);
      assert holds(n - 1 + 1) <==> holds(n - 1) || cause(n - 1);
    }
  }

  /** A function has a range if and only if one of its returns was visited. */
  lemma RangeNeedsAReturn(program: Program, h: History, state: State, g: nat)
    requires LeadsTo(program, h, state)
    ensures g in state.ranges <==> exists k: nat :: ReturnVisit(program, h, k, g)
  {
    var holds := (k: nat) => k < |h.states| && g in h.states[k].ranges;
    var cause := (k: nat) => ReturnVisit(program, h, k, g);
    forall k: nat | k < |h.events|
      ensures holds(k + 1) <==> holds(k) || cause(k)
    {
      RangeStep(program, h, state, k, g, 0);
    }
    BecauseOfSomeStep(holds, cause, |h.events|);
    if k: nat :| ReturnVisit(program, h, k, g) {
      assert cause(k);
    }
  }

  /** The range of a function is exactly what its returns were seen to return: an integer
      is in it if and only if some visit of a return admitted it, with the tracked sign or
      the callee's range of that moment. */
  lemma RangeIsWhatReturnsGave(program: Program, h: History, state: State, g: nat, x: int)
    requires LeadsTo(program, h, state)
    ensures g in state.ranges && In(x, state.ranges[g]) <==> exists k: nat :: ReturnedAt(program, h, k, g, x)
  {
    var holds := (k: nat) => k < |h.states| && g in h.states[k].ranges && In(x, h.states[k].ranges[g]);
    var cause := (k: nat) => ReturnedAt(program, h, k, g, x);
    forall k: nat | k < |h.events|
      ensures holds(k + 1) <==> holds(k) || cause(k)
    {
      RangeStep(program, h, state, k, g, x);
    }
    BecauseOfSomeStep(holds, cause, |h.events|);
    if k: nat :| ReturnedAt(program, h, k, g, x) {
      assert cause(k);
    }
  }

  lemma {:induction false} RangesOnlyGrow(program: Program, h: History, state: State, k: nat, g: nat, x: int)
    requires LeadsTo(program, h, state) && k <= |h.events|
    requires g in h.states[k].ranges && In(x, h.states[k].ranges[g])
    ensures g in state.ranges && In(x, state.ranges[g])
    decreases |h.events| - k
  {
    if k < |h.events| {
      RangeStep(program, h, state, k, g, x);
      RangesOnlyGrow(program, h, state, k + 1, g, x);
    }
  }

  // ----- Functions whose returns hand on what no fact tracks -----

  ghost predicate IsReturn(fn: Function, b: nat) {
    b < |fn.blocks| && WellFormedBlock(fn, b) && Last(fn, b).Ret?
  }

  /** Some instruction reads or writes at the address. */
  ghost predicate IsAccessed(fn: Function, v: Value) {
    exists b: nat, i: nat :: IsInstruction(fn, b, i) && Accesses(fn.blocks[b][i], v)
  }

  predicate Accesses(inst: Instr, v: Value) {
    (inst.Load? && inst.address == v) || (inst.Store? && inst.receiver == v)
  }

  predicate IsCopy(fn: Function, v: Value) {
    Definition(fn, v).Some? && (Definition(fn, v).value.Load? || Definition(fn, v).value.Cast?)
  }

  /** Nothing that is returned is an address that is read or written, or the result of a
      load or a cast. */
  ghost predicate ReturnsUntracked(fn: Function) {
    forall b: nat | IsReturn(fn, b) :: !IsAccessed(fn, Last(fn, b).result) && !IsCopy(fn, Last(fn, b).result)
  }

  /** A fact tracks nothing else. */
  lemma UntrackedMeans(fn: Function, v: Value)
    ensures IsTracked(fn, v) ==> IsAccessed(fn, v) || IsCopy(fn, v)
  {
    if IsAddress(fn, v) {
      var b: nat, i: nat :| b < |fn.blocks| && i < |fn.blocks[b]| && AddressOf(fn.blocks[b][i]) == Some(v);
      assert IsInstruction(fn, b, i) && Accesses(fn.blocks[b][i], v);
    }
  }

  /** Some return may return the integer, under the given ranges of the callees. */
  ghost predicate SomeReturnMay(c: Context, ranges: Ranges, x: int)
    requires c.Valid()
  {
    exists b: nat :: IsReturn(c.Fn(), b) && MayReturn(c, ranges, map[], Last(c.Fn(), b).result, x)
  }

  lemma MayBeGrows(program: Program, h: History, state: State, k: nat, g: nat, v: Value, x: int)
    requires LeadsTo(program, h, state) && k <= |h.events| && program.IsFunction(g)
    requires MayBe(program.functions, program.functions[g], h.states[k].ranges, v, x)
    ensures MayBe(program.functions, program.functions[g], state.ranges, v, x)
  {
    var definition := Definition(program.functions[g], v);
    if v.Reg? && definition.Some? && definition.value.Call? && definition.value.callee.Direct? {
      var id := definition.value.callee.id;
      if id < |program.functions| && program.functions[id].blocks != [] {
        RangesOnlyGrow(program, h, state, k, id, x);
      }
    }
  }

  lemma MayReturnGrows(program: Program, h: History, state: State, k: nat, g: nat, fact: Fact, v: Value, x: int)
    requires LeadsTo(program, h, state) && k <= |h.events| && program.IsFunction(g) && v !in fact
    requires MayReturn(program.Ctx(g), h.states[k].ranges, fact, v, x)
    ensures MayReturn(program.Ctx(g), state.ranges, map[], v, x)
  {
    var c := program.Ctx(g);
    if OperandMayBe(c, h.states[k].ranges, fact, v, x) {
      MayBeGrows(program, h, state, k, g, v, x);
    } else {
      var y :| y != 0 && OperandMayBe(c, h.states[k].ranges, fact, v, y);
      MayBeGrows(program, h, state, k, g, v, y);
      assert OperandMayBe(c, state.ranges, map[], v, y);
    }
  }

  /** No integer gets into the range of such a function but through one of its returns,
      as its own operand or the final range of the callee admits. */
  lemma RangeHasAReturn(program: Program, h: History, state: State, g: nat, x: int)
    requires LeadsTo(program, h, state) && program.IsFunction(g) && ReturnsUntracked(program.functions[g])
    requires g in state.ranges && In(x, state.ranges[g])
    ensures SomeReturnMay(program.Ctx(g), state.ranges, x)
  {
    RangeIsWhatReturnsGave(program, h, state, g, x);
    var k: nat :| ReturnedAt(program, h, k, g, x);
    var c, before := program.Ctx(g), h.states[k];
    var Instruction(_, b, i) := h.events[k];
    var fact, result := before.facts[g][Point(b, i)], c.Fn().blocks[b][i].result;
    assert WellFormedBlock(c.Fn(), b);
    assert IsReturn(c.Fn(), b) && Last(c.Fn(), b).result == result;
    UntrackedMeans(c.Fn(), result);
    assert TracksOnly(c.Fn(), c.returnable[Point(b, i)], fact);
    MayReturnGrows(program, h, state, k, g, fact, result, x);
  }

  /** At a post-fixpoint every return of such a function is accounted for. */
  lemma ReturnIsInRange(c: Context, facts: Facts, seen: Seen, ranges: Ranges, b: nat, x: int)
    requires PostFixpoint(c, facts, seen, ranges) && ReturnsUntracked(c.Fn()) && IsReturn(c.Fn(), b)
    ensures c.id in ranges
    ensures MayReturn(c, ranges, map[], Last(c.Fn(), b).result, x) ==> In(x, ranges[c.id])
  {
    var fn := c.Fn();
    var last := Last(fn, b);
    assert BlockFixed(c, facts, seen[b].entry, ranges, b);
    var fact := InAt(facts, seen[b].entry, b, LastIndex(fn, b));
    assert IsPoint(fn, Point(b, LastIndex(fn, b)));
    UntrackedMeans(fn, last.result);
    assert TracksOnly(fn, c.returnable[Point(b, LastIndex(fn, b))], fact);
    UntrackedInAnyFact(c, ranges, fact, last.result, x);
    ContributionMeans(c, ranges, fact, last.result, x);
    InByAtoms(x, Contribution(c, ranges, fact, last.result));
    InByAtoms(x, ranges[c.id]);
  }

  lemma UntrackedInAnyFact(c: Context, ranges: Ranges, fact: Fact, v: Value, x: int)
    requires c.Valid() && v !in fact
    ensures MayReturn(c, ranges, fact, v, x) <==> MayReturn(c, ranges, map[], v, x)
  {
    forall y
      ensures OperandMayBe(c, ranges, fact, v, y) <==> OperandMayBe(c, ranges, map[], v, y)
    {
    }
  }

  /** The range of such a function is exactly what its returns may return under the final
      ranges of the callees. */
  ghost predicate RangeIsExact(c: Context, ranges: Ranges)
    requires c.Valid()
  {
    && (c.id in ranges <==> exists b: nat :: IsReturn(c.Fn(), b))
    && (c.id in ranges ==> forall x :: In(x, ranges[c.id]) <==> SomeReturnMay(c, ranges, x))
  }

  lemma RangeNeedsAReturnBlock(program: Program, h: History, state: State, g: nat)
    requires LeadsTo(program, h, state) && program.IsFunction(g) && g in state.ranges
    ensures exists b: nat :: IsReturn(program.functions[g], b)
  {
    RangeNeedsAReturn(program, h, state, g);
    var k: nat :| ReturnVisit(program, h, k, g);
    var fn := program.functions[g];
    assert WellFormedBlock(fn, h.events[k].block);
    assert IsReturn(fn, h.events[k].block);
  }

  lemma SomeReturnIsInRange(c: Context, facts: Facts, seen: Seen, ranges: Ranges, x: int)
    requires PostFixpoint(c, facts, seen, ranges) && ReturnsUntracked(c.Fn()) && SomeReturnMay(c, ranges, x)
    ensures c.id in ranges && In(x, ranges[c.id])
  {
    var b: nat :| IsReturn(c.Fn(), b) && MayReturn(c, ranges, map[], Last(c.Fn(), b).result, x);
    ReturnIsInRange(c, facts, seen, ranges, b, x);
  }

  lemma UntrackedReturnsAreExact(program: Program, h: History, state: State, g: nat, seen: Seen)
    requires LeadsTo(program, h, state) && program.IsFunction(g) && g < |state.facts|
    requires PostFixpoint(program.Ctx(g), state.facts[g], seen, state.ranges)
    requires ReturnsUntracked(program.functions[g])
    ensures RangeIsExact(program.Ctx(g), state.ranges)
  {
    var c := program.Ctx(g);
    if g in state.ranges {
      RangeNeedsAReturnBlock(program, h, state, g);
    }
    if b: nat :| IsReturn(c.Fn(), b) {
      ReturnIsInRange(c, state.facts[g], seen, state.ranges, b, 0);
    }
    forall x | g in state.ranges
      ensures In(x, state.ranges[g]) <==> SomeReturnMay(c, state.ranges, x)
    {
      if In(x, state.ranges[g]) {
        RangeHasAReturn(program, h, state, g, x);
      } else if SomeReturnMay(c, state.ranges, x) {
        SomeReturnIsInRange(c, state.facts[g], seen, state.ranges, x);
      }
    }
  }

  // ----- Functions that return the result of a call -----

  /** Every return hands on the result of a call of function `f`, which has a body. */
  ghost predicate ForwardsCallsOf(functions: seq<Function>, fn: Function, f: nat) {
    && f < |functions| && functions[f].blocks != []
    && (exists b: nat :: IsReturn(fn, b))
    && forall b: nat | IsReturn(fn, b) :: IsCallOf(fn, Last(fn, b).result, f)
  }

  ghost predicate IsCallOf(fn: Function, v: Value, f: nat) {
    && !IsAccessed(fn, v) && Definition(fn, v).Some?
    && var inst := Definition(fn, v).value;
       inst.Call? && inst.callee.Direct? && inst.callee.id == f
  }

  lemma ForwardedReturn(c: Context, ranges: Ranges, f: nat, b: nat, x: int)
    requires c.Valid() && ForwardsCallsOf(c.functions, c.Fn(), f) && IsReturn(c.Fn(), b)
    ensures OperandMayBe(c, ranges, map[], Last(c.Fn(), b).result, x) <==> f in ranges && In(x, ranges[f])
  {
    assert IsCallOf(c.Fn(), Last(c.Fn(), b).result, f);
  }

  /** What a function hands on from another, if the range of that is known. */
  ghost predicate HandsOn(c: Context, ranges: Ranges, f: nat, x: int)
    requires c.Valid()
  {
    f in ranges &&
    (In(x, ranges[f]) || (c.Fn().returns_.ReturnsPointer? && x != 0 && exists y :: y != 0 && In(y, ranges[f])))
  }

  lemma ForwardedReturnMay(c: Context, ranges: Ranges, f: nat, b: nat, x: int)
    requires c.Valid() && ForwardsCallsOf(c.functions, c.Fn(), f) && IsReturn(c.Fn(), b)
    ensures MayReturn(c, ranges, map[], Last(c.Fn(), b).result, x) <==> HandsOn(c, ranges, f, x)
  {
    forall y
      ensures OperandMayBe(c, ranges, map[], Last(c.Fn(), b).result, y) <==> f in ranges && In(y, ranges[f])
    {
      ForwardedReturn(c, ranges, f, b, y);
    }
  }

  /** A function that only hands on the results of another has exactly the range of that
      other one; a pointer that may be other than null may be anything other than null. */
  lemma ForwardedRange(c: Context, ranges: Ranges, f: nat, x: int)
    requires c.Valid() && RangeIsExact(c, ranges) && ForwardsCallsOf(c.functions, c.Fn(), f)
    ensures c.id in ranges && (In(x, ranges[c.id]) <==> HandsOn(c, ranges, f, x))
  {
    var b: nat :| IsReturn(c.Fn(), b);
    ForwardedReturnMay(c, ranges, f, b, x);
    if SomeReturnMay(c, ranges, x) {
      var d: nat :| IsReturn(c.Fn(), d) && MayReturn(c, ranges, map[], Last(c.Fn(), d).result, x);
      ForwardedReturnMay(c, ranges, f, d, x);
    }
  }
}
