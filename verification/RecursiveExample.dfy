/** A self-recursive function, and the facts of the three dataflow passes over it:

        int f(void) { if (h() < 0) return -1; if (f() < 0) return 1; return 0; }

    Its callee `h` has no body. */
module RecursiveExample {
  import opened SignLattice
  import opened Tuples = ConfidenceLattice
  import opened SpecificationUpdate
  import opened IR
  import opened ICmpAbstraction
  import RV = ReturnedValues
  import RP = ReturnPropagation
  import RC = ReturnConstraints
  import RT = RangeTransfer
  import RI = RangeInvariant
  import RF = RangeFixpoint
  import SF = SignFacts

  // ----- The function -----

  /** Calls a function, and goes to `then_` if its result is negative. */
  function TestedCall(b: nat, id: nat, name: string, then_: nat, else_: nat): seq<Instr> {
    [Call(Direct(id, name, id), []), ICmp(Slt, Reg(b, 0), ConstInt(0)), CondBr(Reg(b, 1), then_, else_)]
  }

  function F(): Function {
    Function("f", ReturnsInteger,
             [TestedCall(0, 1, "h", 1, 2), [Ret(ConstInt(-1))],
              TestedCall(2, 0, "f", 3, 4), [Ret(ConstInt(1))], [Ret(ConstInt(0))]])
  }

  /** The function, instruction by instruction. */
  predicate IsF(fn: Function) {
    && fn.name == "f" && |fn.blocks| == 5
    && IsTestedCall(fn, 0, 1, "h", 1, 2) && IsReturn(fn, 1, -1)
    && IsTestedCall(fn, 2, 0, "f", 3, 4) && IsReturn(fn, 3, 1) && IsReturn(fn, 4, 0)
  }

  predicate IsTestedCall(fn: Function, b: nat, id: nat, name: string, then_: nat, else_: nat)
    requires b < |fn.blocks|
  {
    && |fn.blocks[b]| == 3
    && fn.blocks[b][0] == Call(Direct(id, name, id), [])
    && fn.blocks[b][1] == ICmp(Slt, Reg(b, 0), ConstInt(0))
    && fn.blocks[b][2] == CondBr(Reg(b, 1), then_, else_)
  }

  predicate IsReturn(fn: Function, b: nat, k: int)
    requires b < |fn.blocks|
  {
    |fn.blocks[b]| == 1 && fn.blocks[b][0] == Ret(ConstInt(k))
  }

  lemma FIsF()
    ensures IsF(F())
  {
  }

  lemma BlocksAreWellFormed(fn: Function)
    requires IsF(fn)
    ensures WellFormed(fn)
  {
    forall b: nat | b < 5
      ensures WellFormedBlock(fn, b)
    {
    }
  }

  lemma RegistersAreLocal(fn: Function)
    requires IsF(fn)
    ensures RegistersAreBlockLocal(fn)
  {
    forall b: nat, i: nat, v | b < 5 && i < |fn.blocks[b]| && v in Operands(fn.blocks[b][i]) && v.Reg?
      ensures v.block == b && v.index < i
    {
    }
  }

  lemma Edges(fn: Function, b: nat)
    requires IsF(fn) && WellFormed(fn) && b < 5
    ensures WellFormedBlock(fn, b)
    ensures Successors(fn, b) == if b == 0 then {1, 2} else if b == 2 then {3, 4} else {}
  {
  }

  lemma Sources(fn: Function, b: nat)
    requires IsF(fn) && WellFormed(fn) && b < 5
    ensures Predecessors(fn, b) == if b == 0 then {} else if b <= 2 then {0} else {2}
  {
    Edges(fn, 0);
    Edges(fn, 1);
    Edges(fn, 2);
    Edges(fn, 3);
    Edges(fn, 4);
  }

  // ----- The facts of the three passes -----

  function Returned(q: Point): RV.Fact {
    if q.block == 0 then {ConstInt(-1), ConstInt(1), ConstInt(0)}
    else if q.block == 2 then {ConstInt(1), ConstInt(0)}
    else if q.index > 0 then {}
    else if q.block == 1 then {ConstInt(-1)}
    else if q.block == 3 then {ConstInt(1)}
    else {ConstInt(0)}
  }

  function Result(b: nat): RP.Fact {
    map[Reg(b, 0) := {Reg(b, 0)}]
  }

  function Both(): RP.Fact {
    map[Reg(0, 0) := {Reg(0, 0)}, Reg(2, 0) := {Reg(2, 0)}]
  }

  function Held(q: Point): RP.Fact {
    if q == Point(0, 0) then map[]
    else if q.block <= 1 || q == Point(2, 0) then Result(0)
    else Both()
  }

  function Constraints(q: Point): RC.Fact {
    if q == Point(0, 0) then map[]
    else if q.block == 0 then map["h" := if q.index == 3 then Bottom else Top]
    else if q.block == 1 then map["h" := LessThanZero]
    else if q == Point(2, 0) then map["h" := GreaterThanEqualZero]
    else if q.block == 2 then map["h" := GreaterThanEqualZero, "f" := if q.index == 3 then Bottom else Top]
    else map["h" := GreaterThanEqualZero, "f" := if q.block == 3 then LessThanZero else GreaterThanEqualZero]
  }

  function ReturnedFacts(fn: Function): RV.Facts {
    map q | q in Points(fn) :: Returned(q)
  }

  function HeldFacts(fn: Function): RP.Facts {
    map q | q in Points(fn) :: Held(q)
  }

  function ConstraintFacts(fn: Function): RC.Facts {
    map q | q in Points(fn) :: Constraints(q)
  }

  // ----- They are the facts of the passes -----

  lemma ReturnedAgrees(fn: Function, b: nat, i: nat)
    requires IsF(fn) && RV.Domain(fn, ReturnedFacts(fn)) && IsInstruction(fn, b, i)
    ensures RV.AgreesAt(fn, ReturnedFacts(fn), b, i)
  {
    assert IsPoint(fn, Point(b, i)) && IsPoint(fn, Point(b, i + 1));
  }

  lemma ReturnedIsFixpoint(fn: Function)
    requires IsF(fn)
    ensures RV.IsFixpoint(fn, ReturnedFacts(fn))
  {
    BlocksAreWellFormed(fn);
    var facts := ReturnedFacts(fn);
    forall b: nat | b < |fn.blocks|
      ensures RV.InstructionsAgree(fn, facts, b, 0) && RV.EdgesCovered(fn, facts, b)
    {
      forall i: nat | 0 <= i && IsInstruction(fn, b, i)
        ensures RV.AgreesAt(fn, facts, b, i)
      {
        ReturnedAgrees(fn, b, i);
      }
      Edges(fn, b);
      assert IsPoint(fn, End(fn, b));
      forall t | t in Successors(fn, b)
        ensures facts[Point(t, 0)] <= facts[End(fn, b)]
      {
        assert IsPoint(fn, Point(t, 0));
      }
    }
  }

  /** A constant that is returned later is carried back through a block that does not
      return it. */
  lemma {:induction false} CarriedBack(fn: Function, b: nat, i: nat, v: Value)
    requires IsF(fn) && WellFormed(fn) && (b == 0 || b == 2) && i <= 3 && v.ConstInt?
    requires RV.Returnable(fn, Point(b, 3), v)
    ensures RV.Returnable(fn, Point(b, i), v)
    decreases 3 - i
  {
    if i < 3 {
      CarriedBack(fn, b, i + 1, v);
      RV.ReturnableExtends(fn, RV.Node(Point(b, i), v), RV.Node(Point(b, i + 1), v));
    }
  }

  lemma CarriedOverEdge(fn: Function, b: nat, t: nat, i: nat, v: Value)
    requires IsF(fn) && WellFormed(fn) && i <= 3 && v.ConstInt? && RV.Returnable(fn, Point(t, 0), v)
    requires (b == 0 && (t == 1 || t == 2)) || (b == 2 && (t == 3 || t == 4))
    ensures RV.Returnable(fn, Point(b, i), v)
  {
    Edges(fn, b);
    RV.ReturnableExtends(fn, RV.Node(Point(b, 3), v), RV.Node(Point(t, 0), v));
    CarriedBack(fn, b, i, v);
  }

  lemma ReturnedIsJustified(fn: Function, q: Point, v: Value)
    requires IsF(fn) && WellFormed(fn) && IsPoint(fn, q) && v in Returned(q)
    ensures RV.Returnable(fn, q, v)
  {
    RV.ReturnableAtReturn(fn, 1, 0, ConstInt(-1));
    RV.ReturnableAtReturn(fn, 3, 0, ConstInt(1));
    RV.ReturnableAtReturn(fn, 4, 0, ConstInt(0));
    assert q == Point(q.block, q.index);
    if q.block == 2 || (q.block == 0 && v != ConstInt(-1)) {
      CarriedOverEdge(fn, 2, if v == ConstInt(1) then 3 else 4, if q.block == 2 then q.index else 0, v);
    }
    if q.block == 0 {
      CarriedOverEdge(fn, 0, if v == ConstInt(-1) then 1 else 2, q.index, v);
    }
  }

  lemma ReturnedIsExact(fn: Function)
    requires IsF(fn)
    ensures RV.Exact(fn, ReturnedFacts(fn))
  {
    ReturnedIsFixpoint(fn);
    forall q, v | q in ReturnedFacts(fn) && v in ReturnedFacts(fn)[q]
      ensures RV.Returnable(fn, q, v)
    {
      ReturnedIsJustified(fn, q, v);
    }
    RV.FixpointIsExact(fn, ReturnedFacts(fn));
  }

  lemma CallAddsItself(b: nat, callee: Callee, in_: RP.Fact, out: RP.Fact)
    requires Reg(b, 0) !in in_ && out == in_ + Result(b)
    ensures RP.Transfer(Call(callee, []), Reg(b, 0), in_) == out
  {
    assert RP.Get(in_, Reg(b, 0)) + {Reg(b, 0)} == {Reg(b, 0)};
  }

  lemma HeldAgrees(fn: Function, b: nat, i: nat)
    requires IsF(fn) && IsInstruction(fn, b, i) && RP.Shape(fn, HeldFacts(fn))
    ensures RP.AgreesAt(fn, HeldFacts(fn), b, i)
  {
    assert IsPoint(fn, Point(b, i)) && IsPoint(fn, Point(b, i + 1));
    if i == 0 && (b == 0 || b == 2) {
      CallAddsItself(b, fn.blocks[b][0].callee, Held(Point(b, 0)), Held(Point(b, 1)));
    }
  }

  /** What an entry fact holds is just what the predecessor hands on. */
  lemma HeldOverEdges(fn: Function, b: nat)
    requires IsF(fn) && RP.Shape(fn, HeldFacts(fn)) && b < 5
    ensures RP.EdgesInto(fn, HeldFacts(fn), b, Predecessors(fn, b))
    ensures forall q | q in Predecessors(fn, b) :: q < 5 && Held(End(fn, q)) == Held(Point(b, 0))
    ensures Predecessors(fn, b) == {} ==> Held(Point(b, 0)) == map[]
  {
    Sources(fn, b);
    assert IsPoint(fn, Point(b, 0)) && IsPoint(fn, Point(0, 3)) && IsPoint(fn, Point(2, 3));
    assert End(fn, 0) == Point(0, 3) && End(fn, 2) == Point(2, 3);
  }

  lemma HeldIsPostFixpoint(fn: Function)
    requires IsF(fn)
    ensures RP.IsPostFixpoint(fn, HeldFacts(fn))
  {
    BlocksAreWellFormed(fn);
    var facts := HeldFacts(fn);
    forall b: nat | b < |fn.blocks|
      ensures RP.Settled(fn, facts, b)
    {
      forall i: nat | i < Length(fn, b) && IsInstruction(fn, b, i)
        ensures RP.AgreesAt(fn, facts, b, i)
      {
        HeldAgrees(fn, b, i);
      }
      HeldOverEdges(fn, b);
    }
  }

  function Passes(fn: Function): RC.Context {
    RC.Context(fn, HeldFacts(fn))
  }

  lemma PassesAreValid(fn: Function)
    requires IsF(fn)
    ensures Passes(fn).Valid() && RC.Shape(Passes(fn), ConstraintFacts(fn))
  {
    BlocksAreWellFormed(fn);
    RegistersAreLocal(fn);
  }

  function TestedName(b: nat): string {
    if b == 0 then "h" else "f"
  }

  lemma ResultIsHeld(fn: Function, b: nat)
    requires IsF(fn) && Passes(fn).Valid() && (b == 0 || b == 2)
    ensures Definition(fn, Reg(b, 0)).Some? && RC.HeldBy(Passes(fn), Reg(b, 0)) == {Reg(b, 0)}
  {
    assert IsPoint(fn, Point(b, 1));
  }

  lemma TestOf(fn: Function, b: nat)
    requires IsF(fn) && Passes(fn).Valid() && b < 5
    ensures WellFormedBlock(fn, b)
    ensures RC.Tested(Passes(fn), b) == if b == 0 || b == 2 then {TestedName(b)} else {}
  {
    if b == 0 || b == 2 {
      ResultIsHeld(fn, b);
      NamesOfOne(fn, Reg(b, 0), TestedName(b));
    }
  }

  lemma NamesOfOne(fn: Function, call: Value, name: string)
    requires RC.IsCallResult(fn, call) && RC.CalleeName(Definition(fn, call).value) == name
    ensures RC.NamesIn(fn, {call}) == {name}
  {
  }

  lemma CallStep(b: nat)
    requires b == 0 || b == 2
    ensures Constraints(Point(b, 0))[TestedName(b) := Top] == Constraints(Point(b, 1))
    ensures Constraints(Point(b, 2)) == Constraints(Point(b, 1))
  {
  }

  lemma TestStep(b: nat)
    requires b == 0 || b == 2
    ensures RC.Killed(Constraints(Point(b, 2)), {TestedName(b)}) == Constraints(Point(b, 3))
  {
  }

  lemma NothingKilled(x: RC.Fact)
    ensures RC.Killed(x, {}) == x
  {
  }

  lemma BranchStep(fn: Function, b: nat, i: nat)
    requires IsF(fn) && Passes(fn).Valid() && (b == 0 || b == 2) && i < 3
    ensures RC.Transfer(Passes(fn), b, i, Constraints(Point(b, i))) == Constraints(Point(b, i + 1))
  {
    TestOf(fn, b);
    if i < 2 {
      CallStep(b);
    } else {
      TestStep(b);
    }
  }

  lemma ConstraintsStep(fn: Function, b: nat, i: nat)
    requires IsF(fn) && IsInstruction(fn, b, i) && Passes(fn).Valid()
    ensures RC.Transfer(Passes(fn), b, i, Constraints(Point(b, i))) == Constraints(Point(b, i + 1))
  {
    if b == 0 || b == 2 {
      BranchStep(fn, b, i);
    } else {
      TestOf(fn, b);
      NothingKilled(Constraints(Point(b, 0)));
    }
  }

  lemma ConstraintAt(fn: Function, b: nat, i: nat)
    requires IsPoint(fn, Point(b, i))
    ensures Point(b, i) in ConstraintFacts(fn) && ConstraintFacts(fn)[Point(b, i)] == Constraints(Point(b, i))
  {
  }

  lemma ConstraintsAgree(fn: Function, b: nat, i: nat)
    requires IsF(fn) && IsInstruction(fn, b, i) && RC.Shape(Passes(fn), ConstraintFacts(fn))
    ensures IsPoint(fn, Point(b, 0))
    ensures RC.AgreesAt(Passes(fn), ConstraintFacts(fn), ConstraintFacts(fn)[Point(b, 0)], b, i)
  {
    ConstraintAt(fn, b, 0);
    ConstraintAt(fn, b, i);
    ConstraintAt(fn, b, i + 1);
    ConstraintsStep(fn, b, i);
  }

  lemma PushesOfOne(in_: RC.Fact, name: string, target: nat, test: Sign)
    requires name in in_ && in_[name] == Top
    ensures RC.PushesTo(in_, {name}, target, test) == {RC.Push(target, name, test)}
  {
    SameAtoms(Glb(test, Top), test);
    assert RC.Narrow(in_, name, test) == test;
  }

  lemma BranchOf(fn: Function, b: nat)
    requires IsF(fn) && (b == 0 || b == 2)
    ensures WellFormedBlock(fn, b) && Last(fn, b) == CondBr(Reg(b, 1), b + 1, b + 2)
    ensures Definition(fn, Reg(b, 1)) == Some(ICmp(Slt, Reg(b, 0), ConstInt(0)))
  {
  }

  lemma TestIsForNegative(b: nat)
    ensures AbstractICmp(Slt, Reg(b, 0), ConstInt(0)) == Elements(LessThanZero, GreaterThanEqualZero)
  {
  }

  lemma OneTestPushes(c: RC.Context, b: nat, in_: RC.Fact, icmp: Instr, name: string)
    requires c.Valid() && b < |c.fn.blocks| && WellFormedBlock(c.fn, b) && Last(c.fn, b).CondBr?
    requires Definition(c.fn, Last(c.fn, b).condition) == Some(icmp) && icmp.ICmp?
    requires AbstractICmp(icmp.predicate_, icmp.x, icmp.y) == Elements(LessThanZero, GreaterThanEqualZero)
    requires RC.Tested(c, b) == {name} && name in in_ && in_[name] == Top
    ensures RC.Pushes(c, b, in_) == {RC.Push(Last(c.fn, b).onTrue, name, LessThanZero),
                                     RC.Push(Last(c.fn, b).onFalse, name, GreaterThanEqualZero)}
  {
    RC.BranchPushes(c, b, in_, icmp);
    PushesOfOne(in_, name, Last(c.fn, b).onTrue, LessThanZero);
    PushesOfOne(in_, name, Last(c.fn, b).onFalse, GreaterThanEqualZero);
  }

  lemma ConstraintsPushed(fn: Function, b: nat, in_: RC.Fact)
    requires IsF(fn) && Passes(fn).Valid() && (b == 0 || b == 2)
    requires TestedName(b) in in_ && in_[TestedName(b)] == Top
    ensures WellFormedBlock(fn, b)
    ensures RC.Pushes(Passes(fn), b, in_) ==
            {RC.Push(b + 1, TestedName(b), LessThanZero), RC.Push(b + 2, TestedName(b), GreaterThanEqualZero)}
  {
    TestOf(fn, b);
    BranchOf(fn, b);
    TestIsForNegative(b);
    OneTestPushes(Passes(fn), b, in_, ICmp(Slt, Reg(b, 0), ConstInt(0)), TestedName(b));
  }

  lemma PushesAreThere(b: nat)
    requires b == 0 || b == 2
    ensures SF.Covers(Constraints(Point(b + 1, 0)), TestedName(b), LessThanZero)
    ensures SF.Covers(Constraints(Point(b + 2, 0)), TestedName(b), GreaterThanEqualZero)
  {
  }

  lemma TestIsKnown(b: nat)
    requires b == 0 || b == 2
    ensures TestedName(b) in Constraints(Point(b, 2)) && Constraints(Point(b, 2))[TestedName(b)] == Top
  {
  }

  lemma TwoPushesCovered(c: RC.Context, facts: RC.Facts, x: RC.Push, y: RC.Push)
    requires RC.Shape(c, facts) && x.target < |c.fn.blocks| && y.target < |c.fn.blocks|
    requires Point(x.target, 0) in facts && SF.Covers(facts[Point(x.target, 0)], x.name, x.sign)
    requires Point(y.target, 0) in facts && SF.Covers(facts[Point(y.target, 0)], y.name, y.sign)
    ensures RC.AllCovered(c, facts, {x, y})
  {
  }

  lemma LastInIs(fn: Function, b: nat)
    requires IsF(fn) && RC.Shape(Passes(fn), ConstraintFacts(fn)) && (b == 0 || b == 2)
    ensures RC.LastIn(Passes(fn), ConstraintFacts(fn), b) == Constraints(Point(b, 2))
  {
    BranchOf(fn, b);
    ConstraintAt(fn, b, 2);
  }

  lemma BranchAbsorbed(fn: Function, b: nat)
    requires IsF(fn) && RC.Shape(Passes(fn), ConstraintFacts(fn)) && (b == 0 || b == 2)
    ensures RC.Absorbed(Passes(fn), ConstraintFacts(fn), b)
  {
    var name := TestedName(b);
    LastInIs(fn, b);
    TestIsKnown(b);
    ConstraintsPushed(fn, b, Constraints(Point(b, 2)));
    PushesAreThere(b);
    ConstraintAt(fn, b + 1, 0);
    ConstraintAt(fn, b + 2, 0);
    TwoPushesCovered(Passes(fn), ConstraintFacts(fn), RC.Push(b + 1, name, LessThanZero), RC.Push(b + 2, name, GreaterThanEqualZero));
  }

  lemma ConstraintsAbsorbed(fn: Function, b: nat)
    requires IsF(fn) && RC.Shape(Passes(fn), ConstraintFacts(fn)) && b < 5
    ensures RC.Absorbed(Passes(fn), ConstraintFacts(fn), b)
  {
    if b == 0 || b == 2 {
      BranchAbsorbed(fn, b);
    } else {
      TestOf(fn, b);
      RC.PushesAreOfTested(Passes(fn), b, RC.LastIn(Passes(fn), ConstraintFacts(fn), b));
    }
  }

  lemma EntriesAreAbove()
    ensures SF.Below(Constraints(Point(0, 3)), Constraints(Point(1, 0)))
    ensures SF.Below(Constraints(Point(0, 3)), Constraints(Point(2, 0)))
  {
  }

  lemma LaterEntriesAreAbove()
    ensures SF.Below(Constraints(Point(2, 3)), Constraints(Point(3, 0)))
    ensures SF.Below(Constraints(Point(2, 3)), Constraints(Point(4, 0)))
  {
  }

  lemma ConstraintsOverEdges(fn: Function, b: nat)
    requires IsF(fn) && RC.Shape(Passes(fn), ConstraintFacts(fn)) && b < 5
    ensures RC.EdgesInto(Passes(fn), ConstraintFacts(fn), b, Predecessors(fn, b))
  {
    Sources(fn, b);
    EntriesAreAbove();
    LaterEntriesAreAbove();
    ConstraintAt(fn, b, 0);
    ConstraintAt(fn, 0, 3);
    ConstraintAt(fn, 2, 3);
  }

  lemma ConstraintsArePostFixpoint(fn: Function)
    requires IsF(fn)
    ensures RC.IsPostFixpoint(Passes(fn), ConstraintFacts(fn))
  {
    PassesAreValid(fn);
    var c, facts := Passes(fn), ConstraintFacts(fn);
    forall b: nat | b < |c.fn.blocks|
      ensures RC.Settled(c, facts, b)
    {
      assert IsPoint(fn, Point(b, 0));
      forall i: nat | i < Length(c.fn, b) && IsInstruction(c.fn, b, i)
        ensures RC.AgreesAt(c, facts, facts[Point(b, 0)], b, i)
      {
        ConstraintsAgree(fn, b, i);
      }
      ConstraintsOverEdges(fn, b);
      ConstraintsAbsorbed(fn, b);
    }
  }

  /** Any range that meets the equations of the return-range pass is that of all signs. */
  lemma RangeIsTop(c: RT.Context, facts: RT.Facts, seen: RI.Seen, ranges: RT.Ranges)
    requires RF.PostFixpoint(c, facts, seen, ranges) && IsF(c.Fn())
    ensures c.id in ranges && ranges[c.id] == Top
  {
    ReturnIsCovered(c, facts, seen, ranges, 1, -1);
    ReturnIsCovered(c, facts, seen, ranges, 3, 1);
    ReturnIsCovered(c, facts, seen, ranges, 4, 0);
  }

  lemma ReturnIsCovered(c: RT.Context, facts: RT.Facts, seen: RI.Seen, ranges: RT.Ranges, b: nat, k: int)
    requires RF.PostFixpoint(c, facts, seen, ranges) && IsF(c.Fn()) && b < 5 && IsReturn(c.Fn(), b, k)
    ensures SF.Covers(ranges, c.id, AbstractInteger(k))
  {
    assert RF.BlockFixed(c, facts, seen[b].entry, ranges, b);
    ConstantsAreNotTracked(c.Fn(), k);
    assert ConstInt(k) !in seen[b].entry;
  }

  lemma ConstantsAreNotTracked(fn: Function, k: int)
    requires IsF(fn)
    ensures !RT.IsTracked(fn, ConstInt(k))
  {
    forall b: nat, i: nat | b < 5 && i < |fn.blocks[b]|
      ensures RT.AddressOf(fn.blocks[b][i]) == None
    {
    }
  }

  // ----- The example is an input -----

  /** Nothing is in an entry fact but what the block's predecessor hands on or pushes. */
  ghost predicate EntriesAreHandedOn(fn: Function)
    requires IsF(fn) && WellFormed(fn)
  {
    && Held(Point(0, 0)) == map[] && Constraints(Point(0, 0)) == map[] && Predecessors(fn, 0) == {}
    && forall b: nat | 0 < b < 5 :: EntryIsHandedOn(fn, b)
  }

  ghost predicate EntryIsHandedOn(fn: Function, b: nat)
    requires IsF(fn) && WellFormed(fn) && 0 < b < 5
  {
    var from := if b <= 2 then 0 else 2;
    var test := if b == from + 1 then LessThanZero else GreaterThanEqualZero;
    && Predecessors(fn, b) == {from}
    && Held(Point(b, 0)) == Held(End(fn, from))
    && Constraints(Point(b, 0)) == SF.Joined(Constraints(End(fn, from)), map[TestedName(from) := test])
  }

  lemma PushReplacesBottom(x: RC.Fact, name: string, test: Sign)
    requires name in x && x[name] == Bottom
    ensures SF.Joined(x, map[name := test]) == x[name := test]
  {
    LubWithBottom(test);
  }

  lemma LastEntries()
    ensures Constraints(Point(3, 0)) == Constraints(Point(2, 3))["f" := LessThanZero]
    ensures Constraints(Point(4, 0)) == Constraints(Point(2, 3))["f" := GreaterThanEqualZero]
  {
  }

  lemma FirstEntries()
    ensures Constraints(Point(1, 0)) == Constraints(Point(0, 3))["h" := LessThanZero]
    ensures Constraints(Point(2, 0)) == Constraints(Point(0, 3))["h" := GreaterThanEqualZero]
  {
  }

  lemma EntryHandedOn(fn: Function, b: nat)
    requires IsF(fn) && WellFormed(fn) && 0 < b < 5
    ensures EntryIsHandedOn(fn, b)
  {
    var from := if b <= 2 then 0 else 2;
    Sources(fn, b);
    FirstEntries();
    LastEntries();
    PushReplacesBottom(Constraints(Point(from, 3)), TestedName(from), if b == from + 1 then LessThanZero else GreaterThanEqualZero);
    assert End(fn, from) == Point(from, 3);
  }

  lemma HandedOn(fn: Function)
    requires IsF(fn) && WellFormed(fn)
    ensures EntriesAreHandedOn(fn)
  {
    Sources(fn, 0);
    forall b: nat | 0 < b < 5
      ensures EntryIsHandedOn(fn, b)
    {
      EntryHandedOn(fn, b);
    }
  }

  /** The function calls itself, and the facts are those the three passes compute: the
      returned values are exact, the others meet the equations of their passes, with nothing
      added where blocks meet. Any range that the return-range pass can end with is that
      of all signs. */
  lemma ExampleIsAnInput()
    ensures WellFormed(F()) && RegistersAreBlockLocal(F()) && RC.Names(F()) == {"f", "h"}
    ensures RV.Exact(F(), ReturnedFacts(F()))
    ensures RP.IsPostFixpoint(F(), HeldFacts(F()))
    ensures RC.IsPostFixpoint(Passes(F()), ConstraintFacts(F()))
    ensures IsF(F()) && EntriesAreHandedOn(F())
    ensures forall c, facts, seen, ranges |
              RF.PostFixpoint(c, facts, seen, ranges) && c.Fn() == F() ::
              c.id in ranges && ranges[c.id] == Top
  {
    FIsF();
    BlocksAreWellFormed(F());
    RegistersAreLocal(F());
    NamesOfF(F());
    HandedOn(F());
    ReturnedIsExact(F());
    HeldIsPostFixpoint(F());
    ConstraintsArePostFixpoint(F());
    forall c, facts, seen, ranges | RF.PostFixpoint(c, facts, seen, ranges) && c.Fn() == F()
      ensures c.id in ranges && ranges[c.id] == Top
    {
      RangeIsTop(c, facts, seen, ranges);
    }
  }

  lemma NamesOfF(fn: Function)
    requires IsF(fn)
    ensures RC.Names(fn) == {"f", "h"}
  {
    forall b: nat, i: nat | b < |fn.blocks| && i < |fn.blocks[b]| && fn.blocks[b][i].Call?
      ensures RC.CalleeName(fn.blocks[b][i]) in {"f", "h"}
    {
    }
    assert RC.CalleeName(fn.blocks[0][0]) == "h" && RC.CalleeName(fn.blocks[2][0]) == "f";
  }
}
