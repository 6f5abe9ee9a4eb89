/** The return-range pass: a round-robin sweep over one function, and a bottom-up walk
    over the strongly connected components of the call graph. */
module ReturnRange {
  import opened SignLattice
  import opened SignFacts
  import opened Cardinality
  import opened IR
  import opened ICmpAbstraction
  import opened RangeTransfer
  import opened RangeInvariant
  import opened RangeSweep
  import opened RangeFixpoint
  import opened RangeMeaning
  import opened RangeHistory
  import RV = ReturnedValues

  /** The output fact of an instruction other than a return: a filtered copy of the
      input fact, then an entry set or erased. */
  method OutputFact(c: Context, ranges: Ranges, b: nat, i: nat, fact: Fact) returns (out: Fact)
    requires c.Valid() && IsInstruction(c.Fn(), b, i) && !c.Fn().blocks[b][i].Ret?
    ensures out == Out(c, ranges, b, i, fact)
  {
    var fn := c.Fn();
    var after := c.returnable[Point(b, i + 1)];
    out := FilteredJoin(map[], fact, after);
    assert out == Filtered(fact, after);
    match fn.blocks[b][i] {
      case Store(sender, receiver) =>
        if receiver in after {
          out := out[receiver := OperandSign(c, ranges, fact, sender)];
        }
      case Load(address) =>
        if Reg(b, i) in after {
          out := out[Reg(b, i) := OperandSign(c, ranges, fact, address)];
        }
      case Cast(_, source) =>
        if Reg(b, i) in after {
          out := out[Reg(b, i) := OperandSign(c, ranges, fact, source)];
        }
      case CondBr(_, _, _) =>
        var checked := Checked(fn, b, after);
        if checked.Some? {
          out := map k | k in out && k != checked.value :: out[k];
        }
      case Switch(_, _, _) =>
        var checked := Checked(fn, b, after);
        if checked.Some? {
          out := map k | k in out && k != checked.value :: out[k];
        }
      case _ =>
    }
  }

  // ----- Pushing into successors -----

  lemma ApplyOnePush(facts: Facts, p: Push)
    ensures ApplyPushes(facts, [p]) == ApplyPush(facts, p)
  {
    assert [p][1..] == [];
  }

  /** Joins one entry into the input fact of a successor. */
  method PushEntry(facts: Facts, p: Push) returns (r: Facts)
    requires Point(p.target, 0) in facts
    ensures r == ApplyPush(facts, p)
  {
    var entry := JoinInto(facts[Point(p.target, 0)], map[p.key := p.sign]);
    r := facts[Point(p.target, 0) := entry];
  }

  /** Joins a narrowed entry into the input fact of a successor, if its key is returnable
      there. */
  method PushNarrowed(c: Context, facts: Facts, fact: Fact, target: nat, key: Value, test: Sign) returns (r: Facts)
    requires Shape(c, facts) && target < |c.Fn().blocks|
    ensures r == ApplyPushes(facts, Narrowed(c, fact, target, key, test))
  {
    r := facts;
    assert IsPoint(c.Fn(), Point(target, 0));
    if key in c.returnable[Point(target, 0)] {
      var sign := test;
      if key in fact {
        sign := Meet(fact[key], test);
      }
      ApplyOnePush(facts, Push(target, key, sign));
      r := PushEntry(facts, Push(target, key, sign));
    }
  }

  method PushBranch(c: Context, facts: Facts, b: nat, fact: Fact) returns (r: Facts)
    requires Shape(c, facts) && b < |c.Fn().blocks| && Last(c.Fn(), b).CondBr?
    ensures r == ApplyPushes(facts, Pushes(c, b, fact))
  {
    r := facts;
    var fn := c.Fn();
    var CondBr(condition, onTrue, onFalse) := Last(fn, b);
    var checked := Checked(fn, b, c.returnable[End(fn, b)]);
    if checked.Some? {
      var icmp := Definition(fn, condition).value;
      var test := AbstractICmp(icmp.predicate_, icmp.x, icmp.y);
      assert onTrue in Successors(fn, b) && onFalse in Successors(fn, b);
      ApplyPushesConcat(facts, Narrowed(c, fact, onTrue, checked.value, test.onTrue),
                        Narrowed(c, fact, onFalse, checked.value, test.onFalse));
      r := PushNarrowed(c, r, fact, onTrue, checked.value, test.onTrue);
      r := PushNarrowed(c, r, fact, onFalse, checked.value, test.onFalse);
    }
  }

  lemma CasePushesStep(c: Context, facts: Facts, fact: Fact, key: Value, cases: seq<Case>)
    requires c.Valid() && cases != [] && forall t :: t in CaseTargets(cases) ==> t < |c.Fn().blocks|
    ensures cases[0].target < |c.Fn().blocks| && CaseTargets(cases[1..]) <= CaseTargets(cases)
    ensures ApplyPushes(facts, CasePushes(c, fact, key, cases)) ==
            ApplyPushes(ApplyPushes(facts, Narrowed(c, fact, cases[0].target, key, AbstractInteger(cases[0].value))),
                        CasePushes(c, fact, key, cases[1..]))
  {
    assert cases[0].target in CaseTargets(cases);
    assert CaseTargets(cases[1..]) <= CaseTargets(cases);
    ApplyPushesConcat(facts, Narrowed(c, fact, cases[0].target, key, AbstractInteger(cases[0].value)),
                      CasePushes(c, fact, key, cases[1..]));
  }

  method PushCases(c: Context, facts: Facts, fact: Fact, key: Value, cases: seq<Case>) returns (r: Facts)
    requires Shape(c, facts) && forall t :: t in CaseTargets(cases) ==> t < |c.Fn().blocks|
    ensures r.Keys == facts.Keys && r == ApplyPushes(facts, CasePushes(c, fact, key, cases))
  {
    r := facts;
    var todo := cases;
    while todo != []
      invariant Shape(c, r) && CaseTargets(todo) <= CaseTargets(cases)
      invariant ApplyPushes(r, CasePushes(c, fact, key, todo)) == ApplyPushes(facts, CasePushes(c, fact, key, cases))
      decreases |todo|
    {
      CasePushesStep(c, r, fact, key, todo);
      r := PushNarrowed(c, r, fact, todo[0].target, key, AbstractInteger(todo[0].value));
      todo := todo[1..];
    }
  }

  method PushSwitch(c: Context, facts: Facts, b: nat, fact: Fact) returns (r: Facts)
    requires Shape(c, facts) && b < |c.Fn().blocks| && Last(c.Fn(), b).Switch?
    ensures r == ApplyPushes(facts, Pushes(c, b, fact))
  {
    r := facts;
    var fn := c.Fn();
    var Switch(_, cases, default_) := Last(fn, b);
    var checked := Checked(fn, b, c.returnable[End(fn, b)]);
    if checked.Some? {
      var key := checked.value;
      assert CaseTargets(cases) <= Successors(fn, b) && default_ in Successors(fn, b);
      ApplyPushesConcat(facts, CasePushes(c, fact, key, cases), DefaultPush(c, fact, default_, key));
      r := PushCases(c, r, fact, key, cases);
      var start := Point(default_, 0);
      assert IsPoint(fn, start);
      if key in c.returnable[start] && key in fact {
        var entry := JoinInto(r[start], map[key := fact[key]]);
        r := r[start := entry];
      }
    }
  }

  // ----- Steps of the run -----

  lemma InstructionSteps(functions: seq<Function>, returnable: seq<RV.Facts>, x: State, f: nat, b: nat, i: nat)
    requires f < |functions| == |returnable| == |x.facts|
    requires var c := Context(functions, f, returnable[f]);
             Shape(c, x.facts[f]) && Tracks(c, x.facts[f]) && IsInstruction(c.Fn(), b, i)
    ensures var c := Context(functions, f, returnable[f]);
            IsPoint(c.Fn(), Point(b, i)) && WellFormedBlock(c.Fn(), b) &&
            Steps(Program(functions, returnable), x, Instruction(f, b, i),
                  State(x.facts[f := AfterInstruction(c, x.ranges, x.facts[f], b, i)],
                        if i == LastIndex(c.Fn(), b) then RangesAfter(c, x.ranges, b, x.facts[f][Point(b, i)]) else x.ranges))
  {
    var c := Context(functions, f, returnable[f]);
    assert IsPoint(c.Fn(), Point(b, i)) && WellFormedBlock(c.Fn(), b);
    AfterInstructionMeans(c, x.ranges, x.facts[f], b, i);
    RangesAfterMeans(c, x.ranges, b, x.facts[f][Point(b, i)]);
  }

  lemma EdgeSteps(functions: seq<Function>, returnable: seq<RV.Facts>, x: State, y: State, f: nat, p: nat, b: nat)
    requires f < |functions| == |returnable| == |x.facts|
    requires var c := Context(functions, f, returnable[f]);
             Shape(c, x.facts[f]) && Tracks(c, x.facts[f]) && b < |c.Fn().blocks| && p in Predecessors(c.Fn(), b)
    requires var c := Context(functions, f, returnable[f]);
             var start := Point(b, 0);
             && IsPoint(c.Fn(), start) && IsPoint(c.Fn(), End(c.Fn(), p)) && y.ranges == x.ranges
             && y.facts == x.facts[f := x.facts[f][start :=
                  Joined(x.facts[f][start], Filtered(x.facts[f][End(c.Fn(), p)], c.returnable[start]))]]
    ensures Steps(Program(functions, returnable), x, Edge(f, p, b), y)
  {
    JoinedMeans(Context(functions, f, returnable[f]), x.facts[f], p, b);
  }

  // ----- Bookkeeping between functions -----

  /** Only the facts of the named functions have changed. */
  ghost predicate OthersKept(facts: seq<Facts>, seen: seq<Seen>, facts': seq<Facts>, seen': seq<Seen>, ids: set<nat>) {
    && |facts'| == |facts| && |seen'| == |seen|
    && (forall g: nat | g < |facts| && g !in ids :: facts'[g] == facts[g])
    && (forall g: nat | g < |seen| && g !in ids :: seen'[g] == seen[g])
  }

  /** Ranges that agree elsewhere are equal as soon as they agree on one function. */
  lemma SameRangeSameRanges(x: Ranges, y: Ranges, f: nat)
    requires SameOutside({f}, x, y)
    ensures (f in x <==> f in y) && (f in x ==> x[f] == y[f]) <==> x == y
  {
    if (f in x <==> f in y) && (f in x ==> x[f] == y[f]) {
      forall g
        ensures (g in x <==> g in y) && (g in x ==> x[g] == y[g])
      {
        if g != f {
          assert g in x <==> g in x - {f};
          assert g in y <==> g in y - {f};
          assert g in x ==> (x - {f})[g] == (y - {f})[g];
        }
      }
    }
  }

  lemma SameOutsideWidens(small: set<nat>, large: set<nat>, x: Ranges, y: Ranges)
    requires small <= large && SameOutside(small, x, y)
    ensures SameOutside(large, x, y)
  {
    assert x - large == (x - small) - large;
    assert y - large == (y - small) - large;
  }

  /** Ranges only climb, so a change is never taken back. */
  lemma GrowthIsPermanent(x: Ranges, y: Ranges, z: Ranges)
    requires Below(x, y) && Below(y, z)
    ensures Below(x, z)
    ensures x == z ==> x == y == z
  {
    BelowTransitive(x, y, z);
    if x == z {
      BelowAntisymmetric(x, y);
    }
  }

  class ReturnRangePass {
    const functions: seq<Function>
    const returnable: seq<RV.Facts>
    var facts: seq<Facts>
    var ranges: Ranges
    ghost var seen: seq<Seen>
    ghost var history: History

    ghost predicate Shaped()
      reads this
    {
      |facts| == |functions| && |returnable| == |functions| && |seen| == |functions|
    }

    /** The recorded history is one of real steps, and leads to the present state. */
    ghost predicate Traced()
      reads this`facts, this`ranges, this`history
    {
      LeadsTo(Program(functions, returnable), history, State(facts, ranges))
    }

    function Ctx(f: nat): Context
      requires f < |functions| && |returnable| == |functions|
    {
      Context(functions, f, returnable[f])
    }

    ghost predicate FunctionValid(f: nat)
      requires Shaped() && f < |functions|
      reads this
    {
      Invariant(Ctx(f), facts[f], seen[f], ranges)
    }

    ghost predicate Valid()
      reads this
    {
      Shaped() && Traced() && forall f: nat | f < |functions| && !ShouldIgnore(functions[f]) :: FunctionValid(f)
    }

    // ----- Terminators -----

    /** Pushes the facts a conditional branch or a switch narrows. */
    method VisitTest(f: nat, b: nat, fact: Fact)
      requires Shaped() && f < |functions| && Shape(Ctx(f), facts[f]) && b < |functions[f].blocks|
      requires Last(functions[f], b).CondBr? || Last(functions[f], b).Switch?
      modifies this`facts
      ensures facts == old(facts)[f := ApplyPushes(old(facts)[f], Pushes(Ctx(f), b, fact))]
    {
      var pushed;
      if Last(functions[f], b).CondBr? {
        pushed := PushBranch(Ctx(f), facts[f], b, fact);
      } else {
        pushed := PushSwitch(Ctx(f), facts[f], b, fact);
      }
      facts := facts[f := pushed];
    }

    /** Joins the range of one return into the range of the function. */
    method VisitReturn(f: nat, fact: Fact, result: Value)
      requires Shaped() && f < |functions| && Ctx(f).Valid()
      modifies this`ranges
      ensures var s := Contribution(Ctx(f), old(ranges), fact, result);
              ranges == old(ranges)[f := if f in old(ranges) then Lub(old(ranges)[f], s) else s]
    {
      var s := OperandSign(Ctx(f), ranges, fact, result);
      if functions[f].returns_.ReturnsPointer? && Intersects(s, NotZero) {
        s := Join(s, NotZero);
      }
      if f in ranges {
        ranges := ranges[f := Join(ranges[f], s)];
      } else {
        ranges := ranges[f := s];
      }
    }

    // ----- Instructions and blocks -----

    /** An instruction that does not return. */
    method VisitOther(f: nat, b: nat, i: nat)
      requires Shaped() && f < |functions| && Shape(Ctx(f), facts[f])
      requires IsInstruction(functions[f], b, i) && !functions[f].blocks[b][i].Ret?
      modifies this`facts
      ensures facts == old(facts)[f := AfterInstruction(Ctx(f), ranges, old(facts)[f], b, i)]
    {
      var c := Ctx(f);
      assert WellFormedBlock(functions[f], b);
      var in_ := facts[f][Point(b, i)];
      var inst := functions[f].blocks[b][i];
      var out := OutputFact(c, ranges, b, i, in_);
      facts := facts[f := facts[f][Point(b, i + 1) := out]];
      if inst.CondBr? || inst.Switch? {
        VisitTest(f, b, in_);
      }
    }

    /** Rewrites the output fact of one instruction; a terminator also pushes into its
        successors, and a return widens the range of its function. Facts mention only
        returnable values before and after. */
    method VisitInstruction(f: nat, b: nat, i: nat)
      requires Shaped() && f < |functions| && Shape(Ctx(f), facts[f]) && Tracks(Ctx(f), facts[f])
      requires IsInstruction(functions[f], b, i)
      requires functions[f].blocks[b][i].Ret? ==> facts[f][Point(b, i + 1)] == map[]
      requires Traced()
      modifies this`facts, this`ranges, this`history
      ensures Traced()
      ensures facts == old(facts)[f := AfterInstruction(Ctx(f), old(ranges), old(facts)[f], b, i)]
      ensures ranges == if i == LastIndex(functions[f], b)
                        then RangesAfter(Ctx(f), old(ranges), b, old(facts)[f][Point(b, i)]) else old(ranges)
      ensures Shape(Ctx(f), facts[f]) && Tracks(Ctx(f), facts[f])
    {
      InstructionTracks(Ctx(f), ranges, facts[f], b, i);
      InstructionSteps(functions, returnable, State(facts, ranges), f, b, i);
      assert WellFormedBlock(functions[f], b);
      var inst := functions[f].blocks[b][i];
      if inst.Ret? {
        assert IsPoint(functions[f], Point(b, i + 1));
        ReturnChangesNothing(Ctx(f), ranges, facts[f], b, i);
        assert facts == facts[f := facts[f]];
        VisitReturn(f, facts[f][Point(b, i)], inst.result);
      } else {
        VisitOther(f, b, i);
      }
      ExtendedLeads(Program(functions, returnable), history, old(State(facts, ranges)), Instruction(f, b, i),
                    State(facts, ranges));
      history := Extended(history, Instruction(f, b, i), State(facts, ranges));
    }

    /** One instruction before the terminator of a block. */
    method VisitOneOfBody(f: nat, b: nat, i: nat, ghost before: Facts, changedBefore: bool) returns (changed: bool)
      requires Shaped() && f < |functions| && Shape(Ctx(f), facts[f]) && b < |functions[f].blocks|
      requires Tracks(Ctx(f), facts[f]) && Traced()
      requires WellFormedBlock(functions[f], b) && i < LastIndex(functions[f], b)
      requires Shape(Ctx(f), before) && Partial(Ctx(f), before, facts[f], ranges, b, i)
      requires changedBefore <==> facts[f] != before
      modifies this`facts, this`ranges, this`history
      ensures Shaped() && Shape(Ctx(f), facts[f]) && Tracks(Ctx(f), facts[f]) && Traced()
      ensures facts == old(facts)[f := facts[f]] && ranges == old(ranges)
      ensures Partial(Ctx(f), before, facts[f], ranges, b, i + 1)
      ensures changed <==> facts[f] != before
    {
      StepExtendsPartial(Ctx(f), before, facts[f], ranges, b, i);
      var previous := facts[f][Point(b, i + 1)];
      VisitInstruction(f, b, i);
      changed := changedBefore || facts[f][Point(b, i + 1)] != previous;
      PartialChange(Ctx(f), before, old(facts)[f], facts[f], ranges, b, i);
    }

    /** Visits the instructions of a block before its terminator. */
    method VisitBody(f: nat, b: nat) returns (changed: bool)
      requires Shaped() && f < |functions| && Shape(Ctx(f), facts[f]) && b < |functions[f].blocks|
      requires Tracks(Ctx(f), facts[f]) && Traced()
      modifies this`facts, this`ranges, this`history
      ensures Traced()
      ensures Shaped() && Shape(Ctx(f), facts[f]) && Tracks(Ctx(f), facts[f])
      ensures facts == old(facts)[f := facts[f]] && ranges == old(ranges)
      ensures Partial(Ctx(f), old(facts)[f], facts[f], ranges, b, LastIndex(functions[f], b))
      ensures changed <==> facts[f] != old(facts)[f]
    {
      ghost var c := Ctx(f);
      ghost var before := facts[f];
      changed := false;
      var i := 0;
      assert WellFormedBlock(functions[f], b);
      while i < LastIndex(functions[f], b)
        invariant i <= LastIndex(functions[f], b)
        invariant Shaped() && Shape(c, facts[f]) && Tracks(c, facts[f]) && Traced()
        invariant Partial(c, before, facts[f], ranges, b, i)
        invariant facts == old(facts)[f := facts[f]] && ranges == old(ranges)
        invariant changed <==> facts[f] != before
      {
        changed := VisitOneOfBody(f, b, i, before, changed);
        i := i + 1;
      }
    }

    /** Visits the terminator of a block. */
    method VisitLast(f: nat, b: nat, ghost before: Facts) returns (changed: bool)
      requires Shaped() && f < |functions| && Shape(Ctx(f), facts[f]) && Tracks(Ctx(f), facts[f])
      requires b < |functions[f].blocks| && WellFormedBlock(functions[f], b)
      requires Invariant(Ctx(f), before, seen[f], ranges)
      requires Partial(Ctx(f), before, facts[f], ranges, b, LastIndex(functions[f], b))
      requires Traced()
      modifies this`facts, this`ranges, this`history
      ensures Traced()
      ensures IsPoint(functions[f], Point(b, LastIndex(functions[f], b))) && IsPoint(functions[f], End(functions[f], b))
      ensures facts == old(facts)[f := AfterInstruction(Ctx(f), old(ranges), old(facts)[f], b, LastIndex(functions[f], b))]
      ensures ranges == RangesAfter(Ctx(f), old(ranges), b, old(facts)[f][Point(b, LastIndex(functions[f], b))])
      ensures changed <==> facts[f][End(functions[f], b)] != old(facts)[f][End(functions[f], b)]
    {
      var last := LastIndex(functions[f], b);
      var previous := facts[f][Point(b, last + 1)];
      if functions[f].blocks[b][last].Ret? {
        ReturnOutIsEmpty(Ctx(f), before, seen[f], ranges, b);
      }
      VisitInstruction(f, b, last);
      changed := facts[f][Point(b, last + 1)] != previous;
    }

    /** Visits the instructions of a block from first to last. */
    method VisitBlock(f: nat, b: nat) returns (changed: bool)
      requires Shaped() && f < |functions| && FunctionValid(f) && Traced() && b < |functions[f].blocks|
      modifies this
      ensures Shaped() && FunctionValid(f) && Traced()
      ensures facts == old(facts)[f := facts[f]]
      ensures seen == old(seen)[f := Remember(old(seen)[f], b, Visit(old(facts)[f][Point(b, 0)], old(ranges)))]
      ensures EntriesGrowElsewhere(Ctx(f), old(facts)[f], facts[f], b)
      ensures Below(old(ranges), ranges) && ranges - {f} == old(ranges) - {f}
      ensures !changed ==> EntriesGrow(Ctx(f), old(facts)[f], facts[f])
      ensures changed ==> b in old(seen)[f] ==> old(seen)[f][b] != seen[f][b]
    {
      ghost var before := facts[f];
      assert WellFormedBlock(functions[f], b);
      changed := VisitBody(f, b);
      ghost var now := facts[f];
      var lastChanged := VisitLast(f, b, before);
      changed := changed || lastChanged;
      FinishVisit(Ctx(f), before, now, seen[f], old(ranges), b, changed);
      seen := seen[f := Remember(seen[f], b, Visit(before[Point(b, 0)], old(ranges)))];
    }

    // ----- One function -----

    /** Joins the last output fact of one predecessor into the entry of a block. */
    method JoinEdge(f: nat, b: nat, p: nat, ghost before: Facts, ghost done: set<nat>)
      requires Shaped() && f < |functions| && FunctionValid(f) && b < |functions[f].blocks| && Traced()
      requires p in Predecessors(functions[f], b)
      requires Shape(Ctx(f), before) && EntryIsJoin(Ctx(f), before, facts[f], b, done)
      modifies this`facts, this`history
      ensures Shaped() && FunctionValid(f) && Traced()
      ensures facts == old(facts)[f := facts[f]]
      ensures EntryIsJoin(Ctx(f), before, facts[f], b, done + {p})
    {
      var start := Point(b, 0);
      JoinStep(Ctx(f), facts[f], seen[f], ranges, b, p);
      EntryIsJoinStep(Ctx(f), before, facts[f], b, done, p);
      var entry := FilteredJoin(facts[f][start], facts[f][End(functions[f], p)], returnable[f][start]);
      facts := facts[f := facts[f][start := entry]];
      EdgeSteps(functions, returnable, old(State(facts, ranges)), State(facts, ranges), f, p, b);
      ExtendedLeads(Program(functions, returnable), history, old(State(facts, ranges)), Edge(f, p, b), State(facts, ranges));
      history := Extended(history, Edge(f, p, b), State(facts, ranges));
    }

    /** Joins the last output facts of all predecessors into the entry of a block, and
        nothing else. */
    method JoinPredecessors(f: nat, b: nat)
      requires Shaped() && f < |functions| && FunctionValid(f) && b < |functions[f].blocks| && Traced()
      modifies this`facts, this`history
      ensures Shaped() && FunctionValid(f) && Traced()
      ensures facts == old(facts)[f := facts[f]]
      ensures EntryIsJoin(Ctx(f), old(facts)[f], facts[f], b, Predecessors(functions[f], b))
    {
      EntryStarts(Ctx(f), facts[f], b);
      var todo := Predecessors(functions[f], b);
      ghost var done := {};
      while todo != {}
        invariant todo + done == Predecessors(functions[f], b)
        invariant Shaped() && FunctionValid(f) && Traced()
        invariant facts == old(facts)[f := facts[f]]
        invariant EntryIsJoin(Ctx(f), old(facts)[f], facts[f], b, done)
        decreases todo
      {
        var p :| p in todo;
        JoinEdge(f, b, p, old(facts)[f], done);
        todo := todo - {p};
        done := done + {p};
      }
      assert done == Predecessors(functions[f], b);
    }

    ghost function NowOf(f: nat): Now
      requires Shaped() && f < |functions|
      reads this
    {
      Now(facts[f], seen[f], ranges)
    }

    /** The two steps a sweep makes for each block. */
    method JoinAndVisit(f: nat, b: nat) returns (changed: bool, ghost joined: Facts)
      requires Shaped() && f < |functions| && FunctionValid(f) && Traced() && b < |functions[f].blocks|
      modifies this
      ensures Shaped() && FunctionValid(f) && Traced()
      ensures facts == old(facts)[f := facts[f]] && seen == old(seen)[f := seen[f]]
      ensures Shape(Ctx(f), joined) && BlockStep(Ctx(f), old(NowOf(f)), joined, NowOf(f), b, changed)
      ensures Missing(Ctx(f), seen[f]) <= Missing(Ctx(f), old(seen)[f])
      ensures changed && (b in old(seen)[f] ==> Others(Ctx(f), old(seen)[f][b].ranges) == Others(Ctx(f), old(ranges))) ==>
                Missing(Ctx(f), seen[f]) < Missing(Ctx(f), old(seen)[f])
    {
      JoinPredecessors(f, b);
      joined := facts[f];
      EntryIsJoinCovers(Ctx(f), old(facts)[f], joined, b);
      changed := VisitBlock(f, b);
      StepShrinksMissing(Ctx(f), old(NowOf(f)), joined, NowOf(f), b, changed);
    }

    /** One block of a sweep. */
    method SweepBlock(f: nat, ghost start: Start, b: nat, changedBefore: bool, ghost first: bool) returns (changed: bool)
      requires Shaped() && f < |functions| && FunctionValid(f) && Traced() && b < |functions[f].blocks|
      requires Shape(Ctx(f), start.facts) && SweptSoFar(Ctx(f), start, NowOf(f), b, changedBefore, first)
      requires first || AllVisitedInRun(Ctx(f), start.floor, Now(start.facts, start.seen, start.ranges))
      modifies this
      ensures Shaped() && FunctionValid(f) && Traced()
      ensures facts == old(facts)[f := facts[f]] && seen == old(seen)[f := seen[f]]
      ensures SweptSoFar(Ctx(f), start, NowOf(f), b + 1, changed, first)
    {
      var blockChanged, joined := JoinAndVisit(f, b);
      SweepStep(Ctx(f), start, old(NowOf(f)), joined, NowOf(f), b, changedBefore, blockChanged, first);
      changed := blockChanged || changedBefore;
    }

    /** One sweep over the blocks of a function. */
    method Sweep(f: nat, ghost start: Start, ghost first: bool) returns (changed: bool)
      requires Shaped() && f < |functions| && FunctionValid(f) && Traced()
      requires start.facts == facts[f] && start.seen == seen[f] && start.ranges == ranges
      requires Below(start.floor, ranges)
      requires first || AllVisitedInRun(Ctx(f), start.floor, NowOf(f))
      modifies this
      ensures Shaped() && FunctionValid(f) && Traced()
      ensures facts == old(facts)[f := facts[f]] && seen == old(seen)[f := seen[f]]
      ensures SweptSoFar(Ctx(f), start, NowOf(f), |functions[f].blocks|, changed, first)
    {
      ghost var c := Ctx(f);
      changed := false;
      var b := 0;
      SweepStarts(c, start);
      while b < |functions[f].blocks|
        invariant b <= |functions[f].blocks|
        invariant Shaped() && FunctionValid(f) && Traced()
        invariant facts == old(facts)[f := facts[f]] && seen == old(seen)[f := seen[f]]
        invariant SweptSoFar(c, start, NowOf(f), b, changed, first)
      {
        changed := SweepBlock(f, start, b, changed, first);
        b := b + 1;
      }
    }

    /** Sweeps over the blocks of a function until no output fact changes. Each sweep but
        two uses up a part of what the visits of the function could still gain, although
        its own range, which it reads if it calls itself, may change between them. */
    method RunOnFunction(f: nat) returns (ghost sweeps: nat)
      requires Shaped() && f < |functions| && FunctionValid(f) && Traced()
      modifies this
      ensures Shaped() && FunctionValid(f) && Traced()
      ensures facts == old(facts)[f := facts[f]] && seen == old(seen)[f := seen[f]]
      ensures Settled(Ctx(f), facts[f], seen[f])
      ensures AllVisitedInRun(Ctx(f), old(ranges), NowOf(f))
      ensures Below(old(ranges), ranges) && Others(Ctx(f), ranges) == Others(Ctx(f), old(ranges))
      ensures sweeps + |Missing(Ctx(f), seen[f])| <= 2 + |Missing(Ctx(f), old(seen)[f])|
      ensures sweeps <= 2 + |Universe(Ctx(f))|
    {
      ghost var c := Ctx(f);
      MissingBound(c, seen[f]);
      sweeps := 0;
      ghost var first := true;
      var changed := true;
      while changed
        invariant Shaped() && FunctionValid(f) && Traced()
        invariant facts == old(facts)[f := facts[f]] && seen == old(seen)[f := seen[f]]
        invariant Below(old(ranges), ranges) && Others(c, ranges) == Others(c, old(ranges))
        invariant first || AllVisitedInRun(c, old(ranges), NowOf(f))
        invariant !changed ==> !first && Settled(c, facts[f], seen[f])
        invariant sweeps + |Missing(c, seen[f])| <=
                    |Missing(c, old(seen)[f])| + (if first then 0 else if changed then 1 else 2)
        decreases first, Missing(c, seen[f]), changed
      {
        ghost var start := Start(facts[f], seen[f], ranges, old(ranges));
        changed := Sweep(f, start, first);
        SweepEnds(c, start, NowOf(f), changed);
        SweptCount(c, start, NowOf(f), |functions[f].blocks|, changed, first);
        if !changed {
          UnchangedSweepSettles(c, start, NowOf(f));
        }
        first := false;
        sweeps := sweeps + 1;
      }
    }

    // ----- Components and the module -----

    predicate Analysed(f: nat) {
      f < |functions| && !ShouldIgnore(functions[f])
    }

    ghost predicate Fixed(f: nat)
      requires Shaped() && f < |functions|
      reads this
    {
      PostFixpoint(Ctx(f), facts[f], seen[f], ranges)
    }

    /** Every fact starts empty, and no function has a range. */
    constructor (functions: seq<Function>, returnable: seq<RV.Facts>)
      requires |returnable| == |functions|
      requires forall f: nat | f < |functions| && !ShouldIgnore(functions[f]) ::
                 Context(functions, f, returnable[f]).Valid()
      ensures Valid() && this.functions == functions && this.returnable == returnable
      ensures ranges == map[]
    {
      this.functions := functions;
      this.returnable := returnable;
      this.facts := seq(|functions|, f requires 0 <= f < |functions| => map p | p in Points(functions[f]) :: map[]);
      this.ranges := map[];
      this.seen := seq(|functions|, f => map[]);
      new;
      history := History([State(facts, ranges)], []);
    }

    /** The range of a function, if it has one. */
    function GetReturnRange(f: nat): Option<Sign>
      reads this
    {
      if f in ranges then Some(ranges[f]) else None
    }

    /** One run over a function, and whether its range has changed. */
    method AnalyseFunction(f: nat) returns (changed: bool)
      requires Valid() && Analysed(f)
      modifies this
      ensures Valid()
      ensures facts == old(facts)[f := facts[f]] && seen == old(seen)[f := seen[f]]
      ensures Below(old(ranges), ranges) && SameOutside({f}, old(ranges), ranges)
      ensures changed <==> ranges != old(ranges)
      ensures !changed || f !in Callees(functions[f]) ==> Fixed(f)
    {
      var original := GetReturnRange(f);
      ghost var before := ranges;
      assert FunctionValid(f);
      var sweeps := RunOnFunction(f);
      changed := original != GetReturnRange(f);
      SameRangeSameRanges(before, ranges, f);
      if !changed || f !in Callees(functions[f]) {
        RunGivesPostFixpoint(Ctx(f), before, NowOf(f));
      }
      forall g: nat | g < |functions| && !ShouldIgnore(functions[g])
        ensures FunctionValid(g)
      {
        if g != f {
          assert old(FunctionValid(g));
          RangesGrowKeepsInvariant(Ctx(g), facts[g], seen[g], before, ranges);
        }
      }
    }

    /** Runs over each function of a component once. */
    method RoundOverComponent(members: seq<nat>) returns (changed: bool)
      requires Valid() && forall f :: f in members ==> f < |functions|
      modifies this
      ensures Valid()
      ensures OthersKept(old(facts), old(seen), facts, seen, set f | f in members)
      ensures Below(old(ranges), ranges) && SameOutside(set f | f in members, old(ranges), ranges)
      ensures changed <==> ranges != old(ranges)
      ensures !changed ==> forall f | f in members && Analysed(f) :: Fixed(f)
      ensures |members| == 1 && Analysed(members[0]) && members[0] !in Callees(functions[members[0]]) ==> Fixed(members[0])
    {
      ghost var ids := set f | f in members;
      changed := false;
      var j := 0;
      while j < |members|
        invariant j <= |members|
        invariant Valid()
        invariant OthersKept(old(facts), old(seen), facts, seen, ids)
        invariant Below(old(ranges), ranges) && SameOutside(ids, old(ranges), ranges)
        invariant changed <==> ranges != old(ranges)
        invariant !changed ==> forall f | f in members[..j] && Analysed(f) :: Fixed(f)
        invariant j == 1 && |members| == 1 && Analysed(members[0]) && members[0] !in Callees(functions[members[0]]) ==>
                    Fixed(members[0])
      {
        var f := members[j];
        assert f in members;
        assert members[..j + 1] == members[..j] + [f];
        if !ShouldIgnore(functions[f]) {
          ghost var before := ranges;
          label Before:
          var rangeChanged := AnalyseFunction(f);
          SameOutsideWidens({f}, ids, before, ranges);
          GrowthIsPermanent(old(ranges), before, ranges);
          changed := changed || rangeChanged;
          forall g | !changed && g in members[..j + 1] && Analysed(g)
            ensures Fixed(g)
          {
            assert g == f || old@Before(Fixed(g));
          }
        }
        j := j + 1;
      }
    }

    /** Repeats rounds while the component has a loop and some range changes. */
    method RunOnComponent(component: Component) returns (ghost rounds: nat)
      requires Valid() && forall f :: f in component.members ==> f < |functions|
      requires !component.hasLoop ==>
        |component.members| == 1 && forall f :: f in component.members ==> f !in Callees(functions[f])
      modifies this
      ensures Valid()
      ensures OthersKept(old(facts), old(seen), facts, seen, Members(component))
      ensures Below(old(ranges), ranges) && SameOutside(Members(component), old(ranges), ranges)
      ensures forall f | f in component.members && Analysed(f) :: Fixed(f)
      ensures rounds <= 4 * |Members(component)| + 1
    {
      ghost var ids := Members(component);
      MissingBitsBound(ids, ranges);
      rounds := 0;
      var again := true;
      while again
        invariant Valid()
        invariant OthersKept(old(facts), old(seen), facts, seen, ids)
        invariant Below(old(ranges), ranges) && SameOutside(ids, old(ranges), ranges)
        invariant !again ==> forall f | f in component.members && Analysed(f) :: Fixed(f)
        invariant rounds + |MissingBits(ids, ranges)| <= 4 * |ids| + (if again then 0 else 1)
        decreases |MissingBits(ids, ranges)|, again
      {
        ghost var before := ranges;
        var changed := RoundOverComponent(component.members);
        rounds := rounds + 1;
        GrowthShrinksMissingBits(ids, before, ranges);
        SubsetCardinality(MissingBits(ids, ranges), MissingBits(ids, before));
        GrowthIsPermanent(old(ranges), before, ranges);
        again := component.hasLoop && changed;
        if !again && !component.hasLoop {
          assert component.members == [component.members[0]];
        }
      }
    }

    /** Walks the components bottom-up; every function ends in a post-fixpoint under
        the final ranges, and has no more in its range than its returns gave it. */
    method RunOnModule(components: seq<Component>)
      requires Valid() && BottomUp(functions, components)
      modifies this
      ensures Valid()
      ensures forall f: nat | Analysed(f) :: Fixed(f)
      ensures forall g: nat, x: int {:trigger GivenBack(g, x)} ::
                g in ranges && In(x, ranges[g]) <==> GivenBack(g, x)
      ensures forall g: nat | Analysed(g) && ReturnsUntracked(functions[g]) :: RangeIsExact(Ctx(g), ranges)
      ensures forall g: nat, f: nat | Analysed(g) && ForwardsCallsOf(functions, functions[g], f) :: HasRangeOf(g, f)
    {
      var k := 0;
      while k < |components|
        invariant k <= |components|
        invariant Valid()
        invariant forall f: nat | Analysed(f) && f in MembersBefore(components, k) :: Fixed(f)
      {
        assert ComponentInOrder(functions, components, k);
        ghost var before := ranges;
        ghost var ids := Members(components[k]);
        label Start:
        var rounds := RunOnComponent(components[k]);
        forall f: nat | Analysed(f) && f in MembersBefore(components, k + 1)
          ensures Fixed(f)
        {
          if f in MembersBefore(components, k) {
            assert old@Start(Fixed(f));
            EarlierRangesKept(functions, components, k, f, before, ranges);
            PostFixpointStable(Ctx(f), facts[f], seen[f], before, ranges);
          } else {
            assert f in components[k].members;
          }
        }
        k := k + 1;
      }
      RangesAreJustified();
    }

    /** Some visit of a return of the function, in the course of the run, may have
        returned the integer. */
    ghost predicate GivenBack(g: nat, x: int)
      reads this`history
    {
      exists k: nat :: ReturnedAt(Program(functions, returnable), history, k, g, x)
    }

    /** Function `g` has a range, and it is that of `f`; if `g` returns a pointer that may
        be other than null, it may be anything other than null. */
    ghost predicate HasRangeOf(g: nat, f: nat)
      requires Analysed(g)
      reads this`ranges
    {
      && g in ranges
      && (functions[g].returns_.ReturnsInteger? ==> forall x ::
            In(x, ranges[g]) <==> f in ranges && In(x, ranges[f]))
      && (functions[g].returns_.ReturnsPointer? ==> forall x ::
            In(x, ranges[g]) <==> f in ranges && (In(x, ranges[f]) || (x != 0 && exists y :: y != 0 && In(y, ranges[f]))))
    }

    lemma RangesAreJustified()
      requires Valid() && forall f: nat | Analysed(f) :: Fixed(f)
      ensures forall g: nat, x: int {:trigger GivenBack(g, x)} ::
                g in ranges && In(x, ranges[g]) <==> GivenBack(g, x)
      ensures forall g: nat | Analysed(g) && ReturnsUntracked(functions[g]) :: RangeIsExact(Ctx(g), ranges)
      ensures forall g: nat, f: nat | Analysed(g) && ForwardsCallsOf(functions, functions[g], f) :: HasRangeOf(g, f)
    {
      var program, state := Program(functions, returnable), State(facts, ranges);
      forall g: nat, x: int
        ensures g in ranges && In(x, ranges[g]) <==> GivenBack(g, x)
      {
        RangeIsWhatReturnsGave(program, history, state, g, x);
      }
      forall g: nat | Analysed(g) && ReturnsUntracked(functions[g])
        ensures RangeIsExact(Ctx(g), ranges)
      {
        assert Fixed(g);
        UntrackedReturnsAreExact(program, history, state, g, seen[g]);
      }
      forall g: nat, f: nat | Analysed(g) && ForwardsCallsOf(functions, functions[g], f)
        ensures HasRangeOf(g, f)
      {
        assert Fixed(g) && ReturnsUntracked(functions[g]);
        UntrackedReturnsAreExact(program, history, state, g, seen[g]);
        ForwardedRange(Ctx(g), ranges, f, 0);
        forall x
          ensures In(x, ranges[g]) <==> HandsOn(Ctx(g), ranges, f, x)
        {
          ForwardedRange(Ctx(g), ranges, f, x);
        }
      }
    }
  }
}
