/** Why the soundness of the return ranges has limits: a test must look at a value that is
    still in its slot, must not be unsigned, and must not order against null; and a result
    must not be truncated. Small functions beyond each limit meet every equation of the
    pass, and yet a run of each leaves its range. */
module TestLimits {
  import opened SignLattice
  import opened SignFacts
  import opened IR
  import opened ICmpAbstraction
  import opened Semantics
  import opened RangeTransfer
  import opened RangeInvariant
  import opened RangeFixpoint
  import RV = ReturnedValues

  // ----- The functions -----

  /** `int r = 0; if (x > 0) return r; return 1;` with `x` in a register, so that the
      comparison follows the store of the very constant it compares with. */
  function StoredConstant(): Function {
    Function("g", ReturnsInteger,
             [[Store(ConstInt(0), Slot(0)), ICmp(Sgt, Arg(0), ConstInt(0)), CondBr(Reg(0, 1), 1, 2)],
              [Load(Slot(0)), Ret(Reg(1, 0))], [Ret(ConstInt(1))]])
  }

  /** `int r = x; int old = r; r = 1; if (old < 0) return r; return -1;` */
  function StaleOperand(): Function {
    Function("g", ReturnsInteger,
             [[Store(Arg(0), Slot(0)), Load(Slot(0)), Store(ConstInt(1), Slot(0)),
               ICmp(Slt, Reg(0, 1), ConstInt(0)), CondBr(Reg(0, 3), 1, 2)],
              [Load(Slot(0)), Ret(Reg(1, 0))], [Ret(ConstInt(-1))]])
  }

  /** `int r = x; if ((unsigned) r > 0) return r; return 1;` */
  function UnsignedTest(): Function {
    Function("g", ReturnsInteger,
             [[Store(Arg(0), Slot(0)), ICmp(Ugt, Arg(0), ConstInt(0)), CondBr(Reg(0, 1), 1, 2)],
              [Load(Slot(0)), Ret(Reg(1, 0))], [Ret(ConstInt(1))]])
  }

  /** `void *r = p; if (r > NULL) return r; return NULL;` */
  function NullOrder(): Function {
    Function("g", ReturnsPointer,
             [[Store(Arg(0), Slot(0)), ICmp(Ugt, Arg(0), Null), CondBr(Reg(0, 1), 1, 2)],
              [Load(Slot(0)), Ret(Reg(1, 0))], [Ret(Null)]])
  }

  /** The common shape: instruction `n` of the first block stores a value of sign `held`,
      the test after it seems to look at that slot, and the taken branch returns what the
      slot holds. The pass ends with `range`. */
  datatype Layout = Layout(n: nat, sender: Value, held: Sign, other: Value, test: Sign, range: Sign) {
    /** The sign that reaches the taken branch. */
    function Pushed(): Sign {
      Glb(held, test)
    }
  }

  /** The sign of a constant, or of an argument, about which nothing is known. */
  function PlainSign(v: Value): Sign {
    match v
    case ConstInt(k) => AbstractInteger(k)
    case Null => Zero
    case _ => Top
  }

  predicate IsPlain(v: Value) {
    v.ConstInt? || v.Null? || v.Arg?
  }

  predicate IsEarly(inst: Instr) {
    inst == Store(Arg(0), Slot(0)) || inst == Load(Slot(0))
  }

  predicate Fits(fn: Function, s: Layout) {
    && !fn.returns_.ReturnsOther? && |fn.blocks| == 3 && |fn.blocks[0]| == s.n + 3
    && (forall i | 0 <= i < s.n :: IsEarly(fn.blocks[0][i]))
    && fn.blocks[0][s.n] == Store(s.sender, Slot(0))
    && fn.blocks[0][s.n + 1].ICmp?
    && fn.blocks[0][s.n + 2] == CondBr(Reg(0, s.n + 1), 1, 2)
    && |fn.blocks[1]| == 2 && fn.blocks[1][0] == Load(Slot(0)) && fn.blocks[1][1] == Ret(Reg(1, 0))
    && |fn.blocks[2]| == 1 && fn.blocks[2][0] == Ret(s.other)
    && IsPlain(s.sender) && s.held == PlainSign(s.sender) && IsPlain(s.other)
    && Leq(PointerSign(fn, s.Pushed()), s.range) && Leq(PointerSign(fn, PlainSign(s.other)), s.range)
  }

  /** The test narrows the slot to `s.test` where it holds. */
  predicate Narrows(fn: Function, s: Layout)
    requires Fits(fn, s)
  {
    TestIsLocal(fn, s) && TestsSlot(fn, s)
  }

  predicate TestIsLocal(fn: Function, s: Layout)
    requires Fits(fn, s)
  {
    forall v | v in Operands(fn.blocks[0][s.n + 1]) && v.Reg? :: v.block == 0 && v.index < s.n + 1
  }

  predicate TestsSlot(fn: Function, s: Layout)
    requires Fits(fn, s)
  {
    var icmp := fn.blocks[0][s.n + 1];
    && AbstractICmp(icmp.predicate_, icmp.x, icmp.y).onTrue == s.test
    && CheckedByBranch(fn, Reg(0, s.n + 1), {Slot(0), s.other}) == Some(Slot(0))
  }

  // ----- The facts of the two passes -----

  function Returnable(s: Layout, q: Point): RV.Fact {
    if q.block == 0 then
      if q.index <= s.n then {s.sender, s.other} else {Slot(0), s.other}
    else if q == Point(1, 0) then {Slot(0)}
    else if q == Point(1, 1) then {Reg(1, 0)}
    else if q == Point(2, 0) then {s.other}
    else {}
  }

  function SignsAt(s: Layout, q: Point): Fact {
    if q.block == 0 && s.n < q.index <= s.n + 2 then map[Slot(0) := s.held]
    else if q == Point(1, 0) then map[Slot(0) := s.Pushed()]
    else if q == Point(1, 1) then map[Reg(1, 0) := s.Pushed()]
    else map[]
  }

  function ReturnableFacts(fn: Function, s: Layout): RV.Facts {
    map q | q in Points(fn) :: Returnable(s, q)
  }

  function SignsFacts(fn: Function, s: Layout): Facts {
    map q | q in Points(fn) :: SignsAt(s, q)
  }

  function ContextOf(fn: Function, s: Layout): Context {
    Context([fn], 0, ReturnableFacts(fn, s))
  }

  function RangesOf(s: Layout): Ranges {
    map[0 := s.range]
  }

  function SeenOf(s: Layout): Seen {
    map[0 := Visit(map[], RangesOf(s)), 1 := Visit(SignsAt(s, Point(1, 0)), RangesOf(s)), 2 := Visit(map[], RangesOf(s))]
  }

  lemma BlocksAreWellFormed(fn: Function, s: Layout)
    requires Fits(fn, s)
    ensures WellFormed(fn)
  {
    forall b: nat | b < 3
      ensures WellFormedBlock(fn, b)
    {
    }
  }

  ghost predicate OperandsAreLocal(inst: Instr, b: nat, i: nat) {
    forall v | v in Operands(inst) && v.Reg? :: v.block == b && v.index < i
  }

  lemma EarlyIsLocal(inst: Instr, i: nat)
    requires IsEarly(inst)
    ensures OperandsAreLocal(inst, 0, i)
  {
  }

  lemma FirstIsLocal(fn: Function, s: Layout, i: nat)
    requires Fits(fn, s) && TestIsLocal(fn, s) && i < s.n + 3
    ensures OperandsAreLocal(fn.blocks[0][i], 0, i)
  {
    if i < s.n {
      EarlyIsLocal(fn.blocks[0][i], i);
    }
  }

  lemma OtherIsLocal(fn: Function, s: Layout, b: nat, i: nat)
    requires Fits(fn, s) && IsInstruction(fn, b, i) && 0 < b
    ensures OperandsAreLocal(fn.blocks[b][i], b, i)
  {
  }

  lemma RegistersAreLocal(fn: Function, s: Layout)
    requires Fits(fn, s) && TestIsLocal(fn, s)
    ensures RegistersAreBlockLocal(fn)
  {
    forall b: nat, i: nat | IsInstruction(fn, b, i)
      ensures OperandsAreLocal(fn.blocks[b][i], b, i)
    {
      if b == 0 {
        FirstIsLocal(fn, s, i);
      } else {
        OtherIsLocal(fn, s, b, i);
      }
    }
    LocalOperands(fn);
  }

  lemma LocalOperands(fn: Function)
    requires forall b: nat, i: nat | IsInstruction(fn, b, i) :: OperandsAreLocal(fn.blocks[b][i], b, i)
    ensures RegistersAreBlockLocal(fn)
  {
    forall b: nat, i: nat, v | b < |fn.blocks| && i < |fn.blocks[b]| && v in Operands(fn.blocks[b][i]) && v.Reg?
      ensures v.block == b && v.index < i
    {
      assert IsInstruction(fn, b, i) && OperandsAreLocal(fn.blocks[b][i], b, i);
    }
  }

  lemma ReturnsValue(fn: Function, s: Layout, b: nat)
    requires Fits(fn, s) && b < 3
    ensures HasNoVoidReturn(fn.blocks[b])
  {
    if b == 0 {
      assert forall i | 0 <= i < s.n :: IsEarly(fn.blocks[0][i]);
    }
  }

  lemma ContextIsValid(fn: Function, s: Layout)
    requires Fits(fn, s) && Narrows(fn, s)
    ensures ContextOf(fn, s).Valid() && Shape(ContextOf(fn, s), SignsFacts(fn, s))
  {
    BlocksAreWellFormed(fn, s);
    RegistersAreLocal(fn, s);
    forall b: nat | b < 3
      ensures HasNoVoidReturn(fn.blocks[b])
    {
      ReturnsValue(fn, s, b);
    }
  }

  lemma Edges(fn: Function, s: Layout, b: nat)
    requires Fits(fn, s) && WellFormed(fn) && b < 3
    ensures Successors(fn, b) == if b == 0 then {1, 2} else {}
  {
    assert WellFormedBlock(fn, b);
  }

  lemma Sources(fn: Function, s: Layout, b: nat)
    requires Fits(fn, s) && WellFormed(fn) && b < 3
    ensures Predecessors(fn, b) == if b == 0 then {} else {0}
  {
    Edges(fn, s, 0);
    Edges(fn, s, 1);
    Edges(fn, s, 2);
  }

  // ----- Returned values -----

  lemma ReturnableAgrees(fn: Function, s: Layout, b: nat, i: nat)
    requires Fits(fn, s) && RV.Domain(fn, ReturnableFacts(fn, s)) && IsInstruction(fn, b, i)
    ensures RV.AgreesAt(fn, ReturnableFacts(fn, s), b, i)
  {
    assert IsPoint(fn, Point(b, i)) && IsPoint(fn, Point(b, i + 1));
    if b == 0 && i < s.n {
      assert IsEarly(fn.blocks[0][i]);
    }
  }

  lemma ReturnableIsFixpoint(fn: Function, s: Layout)
    requires Fits(fn, s)
    ensures RV.IsFixpoint(fn, ReturnableFacts(fn, s))
  {
    BlocksAreWellFormed(fn, s);
    var facts := ReturnableFacts(fn, s);
    forall b: nat | b < |fn.blocks|
      ensures RV.InstructionsAgree(fn, facts, b, 0) && RV.EdgesCovered(fn, facts, b)
    {
      forall i: nat | 0 <= i && IsInstruction(fn, b, i)
        ensures RV.AgreesAt(fn, facts, b, i)
      {
        ReturnableAgrees(fn, s, b, i);
      }
      Edges(fn, s, b);
      assert IsPoint(fn, End(fn, b)) && IsPoint(fn, Point(1, 0)) && IsPoint(fn, Point(2, 0));
    }
  }

  // ----- Return ranges -----

  lemma ReturnableAt(fn: Function, s: Layout, b: nat, i: nat)
    requires IsPoint(fn, Point(b, i))
    ensures ContextOf(fn, s).returnable[Point(b, i)] == Returnable(s, Point(b, i))
  {
  }

  lemma EarlySigns(fn: Function, s: Layout, i: nat)
    requires Fits(fn, s) && ContextOf(fn, s).Valid() && i < s.n
    ensures Out(ContextOf(fn, s), RangesOf(s), 0, i, map[]) == map[]
  {
    ReturnableAt(fn, s, 0, i + 1);
    assert IsEarly(fn.blocks[0][i]);
  }

  lemma StoreSigns(fn: Function, s: Layout)
    requires Fits(fn, s) && ContextOf(fn, s).Valid()
    ensures Out(ContextOf(fn, s), RangesOf(s), 0, s.n, map[]) == map[Slot(0) := s.held]
  {
    ReturnableAt(fn, s, 0, s.n + 1);
  }

  lemma TestSigns(fn: Function, s: Layout, sign: Sign)
    requires Fits(fn, s) && ContextOf(fn, s).Valid()
    ensures Out(ContextOf(fn, s), RangesOf(s), 0, s.n + 1, map[Slot(0) := sign]) == map[Slot(0) := sign]
  {
    ReturnableAt(fn, s, 0, s.n + 2);
  }

  lemma LastOfFirst(fn: Function, s: Layout)
    requires Fits(fn, s) && WellFormed(fn)
    ensures IsPoint(fn, End(fn, 0)) && End(fn, 0) == Point(0, s.n + 3) && LastIndex(fn, 0) == s.n + 2
    ensures Last(fn, 0) == CondBr(Reg(0, s.n + 1), 1, 2)
    ensures Definition(fn, Reg(0, s.n + 1)) == Some(fn.blocks[0][s.n + 1])
  {
    assert WellFormedBlock(fn, 0);
  }

  lemma CheckedOfBranch(fn: Function, b: nat, after: RV.Fact)
    requires WellFormed(fn) && b < |fn.blocks| && Last(fn, b).CondBr?
    ensures Checked(fn, b, after) == CheckedByBranch(fn, Last(fn, b).condition, after)
  {
  }

  lemma ReturnableAtEnd(fn: Function, s: Layout)
    requires Fits(fn, s) && WellFormed(fn)
    ensures IsPoint(fn, End(fn, 0)) && End(fn, 0) == Point(0, s.n + 3)
    ensures ContextOf(fn, s).returnable[End(fn, 0)] == {Slot(0), s.other}
  {
    LastOfFirst(fn, s);
    ReturnableAt(fn, s, 0, s.n + 3);
  }

  lemma BranchChecks(fn: Function, s: Layout)
    requires Fits(fn, s) && TestsSlot(fn, s) && WellFormed(fn)
    ensures IsPoint(fn, End(fn, 0)) && End(fn, 0) == Point(0, s.n + 3)
    ensures Checked(fn, 0, ContextOf(fn, s).returnable[End(fn, 0)]) == Some(Slot(0))
  {
    LastOfFirst(fn, s);
    ReturnableAtEnd(fn, s);
    CheckedOfBranch(fn, 0, {Slot(0), s.other});
  }

  lemma OutOfBranch(c: Context, ranges: Ranges, b: nat, i: nat, fact: Fact, v: Value)
    requires c.Valid() && IsInstruction(c.Fn(), b, i) && c.Fn().blocks[b][i].CondBr?
    requires IsPoint(c.Fn(), Point(b, i + 1)) && Checked(c.Fn(), b, c.returnable[Point(b, i + 1)]) == Some(v)
    requires fact.Keys == {v}
    ensures Out(c, ranges, b, i, fact) == map[]
  {
  }

  lemma BranchSigns(fn: Function, s: Layout, sign: Sign)
    requires Fits(fn, s) && ContextOf(fn, s).Valid()
    requires IsPoint(fn, End(fn, 0)) && End(fn, 0) == Point(0, s.n + 3)
    requires Checked(fn, 0, ContextOf(fn, s).returnable[End(fn, 0)]) == Some(Slot(0))
    ensures Out(ContextOf(fn, s), RangesOf(s), 0, s.n + 2, map[Slot(0) := sign]) == map[]
  {
    OutOfBranch(ContextOf(fn, s), RangesOf(s), 0, s.n + 2, map[Slot(0) := sign], Slot(0));
  }

  lemma SignsOfFirst(s: Layout, i: nat)
    ensures SignsAt(s, Point(0, i)) ==
            if s.n < i <= s.n + 2 then map[Slot(0) := s.held] else map[]
  {
  }

  lemma FirstBlockSigns(fn: Function, s: Layout, i: nat)
    requires Fits(fn, s) && Narrows(fn, s) && ContextOf(fn, s).Valid() && i < s.n + 3
    ensures Out(ContextOf(fn, s), RangesOf(s), 0, i, SignsAt(s, Point(0, i))) == SignsAt(s, Point(0, i + 1))
  {
    SignsOfFirst(s, i);
    SignsOfFirst(s, i + 1);
    if i < s.n {
      EarlySigns(fn, s, i);
    } else if i == s.n {
      StoreSigns(fn, s);
    } else if i == s.n + 1 {
      TestSigns(fn, s, s.held);
    } else {
      BranchChecks(fn, s);
      BranchSigns(fn, s, s.held);
    }
  }

  lemma OtherBlockSigns(fn: Function, s: Layout, b: nat, i: nat)
    requires Fits(fn, s) && ContextOf(fn, s).Valid() && 0 < b && IsInstruction(fn, b, i)
    ensures Out(ContextOf(fn, s), RangesOf(s), b, i, SignsAt(s, Point(b, i))) == SignsAt(s, Point(b, i + 1))
  {
    assert IsPoint(fn, Point(b, i)) && IsPoint(fn, Point(b, i + 1));
  }

  lemma SignsStep(fn: Function, s: Layout, b: nat, i: nat)
    requires Fits(fn, s) && Narrows(fn, s) && ContextOf(fn, s).Valid() && IsInstruction(fn, b, i)
    ensures Out(ContextOf(fn, s), RangesOf(s), b, i, SignsAt(s, Point(b, i))) == SignsAt(s, Point(b, i + 1))
  {
    if b == 0 {
      FirstBlockSigns(fn, s, i);
    } else {
      OtherBlockSigns(fn, s, b, i);
    }
  }

  lemma SignsAgree(fn: Function, s: Layout, b: nat, i: nat)
    requires Fits(fn, s) && Narrows(fn, s) && Shape(ContextOf(fn, s), SignsFacts(fn, s)) && IsInstruction(fn, b, i)
    ensures AgreesAt(ContextOf(fn, s), SignsFacts(fn, s), Visit(SignsAt(s, Point(b, 0)), RangesOf(s)), b, i)
  {
    SignsAtPoint(fn, s, b, i);
    SignsAtPoint(fn, s, b, i + 1);
    SignsStep(fn, s, b, i);
  }

  lemma SlotIsTracked(fn: Function, s: Layout)
    requires Fits(fn, s)
    ensures IsTracked(fn, Slot(0)) && IsTracked(fn, Reg(1, 0))
  {
    assert AddressOf(fn.blocks[1][0]) == Some(Slot(0));
  }

  lemma SignsTrack(fn: Function, s: Layout)
    requires Fits(fn, s) && Shape(ContextOf(fn, s), SignsFacts(fn, s))
    ensures Tracks(ContextOf(fn, s), SignsFacts(fn, s))
  {
    SlotIsTracked(fn, s);
  }

  lemma Contributes(fn: Function, s: Layout, b: nat)
    requires Fits(fn, s) && Shape(ContextOf(fn, s), SignsFacts(fn, s)) && b < 3
    ensures Contributed(ContextOf(fn, s), SignsFacts(fn, s), Visit(SignsAt(s, Point(b, 0)), RangesOf(s)), RangesOf(s), b)
  {
    assert WellFormedBlock(fn, b);
    assert IsPoint(fn, Point(1, 1));
  }

  lemma NarrowedOnTrue(fn: Function, s: Layout)
    requires Fits(fn, s) && ContextOf(fn, s).Valid()
    ensures Narrowed(ContextOf(fn, s), map[Slot(0) := s.held], 1, Slot(0), s.test) == [Push(1, Slot(0), s.Pushed())]
  {
    assert IsPoint(fn, Point(1, 0));
    ReturnableAt(fn, s, 1, 0);
  }

  lemma NarrowedElsewhere(fn: Function, s: Layout, fact: Fact, test: Sign)
    requires Fits(fn, s) && ContextOf(fn, s).Valid()
    ensures Narrowed(ContextOf(fn, s), fact, 2, Slot(0), test) == []
  {
    assert IsPoint(fn, Point(2, 0));
    ReturnableAt(fn, s, 2, 0);
  }

  lemma PushesOfBranch(c: Context, b: nat, fact: Fact, v: Value, icmp: Instr)
    requires c.Valid() && b < |c.Fn().blocks| && Last(c.Fn(), b).CondBr? && icmp.ICmp?
    requires Checked(c.Fn(), b, c.returnable[End(c.Fn(), b)]) == Some(v)
    requires Definition(c.Fn(), Last(c.Fn(), b).condition) == Some(icmp)
    requires Last(c.Fn(), b).onTrue < |c.Fn().blocks| && Last(c.Fn(), b).onFalse < |c.Fn().blocks|
    ensures var test := AbstractICmp(icmp.predicate_, icmp.x, icmp.y);
            Pushes(c, b, fact) == Narrowed(c, fact, Last(c.Fn(), b).onTrue, v, test.onTrue)
                                + Narrowed(c, fact, Last(c.Fn(), b).onFalse, v, test.onFalse)
  {
  }

  lemma PushedFacts(fn: Function, s: Layout)
    requires Fits(fn, s) && TestsSlot(fn, s) && ContextOf(fn, s).Valid()
    ensures Pushes(ContextOf(fn, s), 0, map[Slot(0) := s.held]) == [Push(1, Slot(0), s.Pushed())]
  {
    var icmp, fact := fn.blocks[0][s.n + 1], map[Slot(0) := s.held];
    LastOfFirst(fn, s);
    BranchChecks(fn, s);
    PushesOfBranch(ContextOf(fn, s), 0, fact, Slot(0), icmp);
    NarrowedOnTrue(fn, s);
    NarrowedElsewhere(fn, s, fact, AbstractICmp(icmp.predicate_, icmp.x, icmp.y).onFalse);
  }

  lemma NothingElsePushed(fn: Function, s: Layout, b: nat, fact: Fact)
    requires Fits(fn, s) && ContextOf(fn, s).Valid() && 0 < b < 3
    ensures Pushes(ContextOf(fn, s), b, fact) == []
  {
    assert WellFormedBlock(fn, b);
  }

  lemma SignsAtPoint(fn: Function, s: Layout, b: nat, i: nat)
    requires IsPoint(fn, Point(b, i))
    ensures Point(b, i) in SignsFacts(fn, s) && SignsFacts(fn, s)[Point(b, i)] == SignsAt(s, Point(b, i))
  {
  }

  lemma ReachFromOne(c: Context, facts: Facts, seen: Seen, b: nat, p: Push)
    requires Shape(c, facts) && b < |c.Fn().blocks| && Pushes(c, b, LastIn(c, facts, b)) == [p]
    requires p.target in seen && Covers(seen[p.target].entry, p.key, p.sign)
    ensures PushesReach(c, facts, seen, b)
  {
  }

  lemma LastInIs(fn: Function, s: Layout)
    requires Fits(fn, s) && Shape(ContextOf(fn, s), SignsFacts(fn, s))
    ensures LastIn(ContextOf(fn, s), SignsFacts(fn, s), 0) == map[Slot(0) := s.held]
  {
    LastOfFirst(fn, s);
    SignsAtPoint(fn, s, 0, s.n + 2);
    SignsOfFirst(s, s.n + 2);
  }

  lemma FirstPushIsSeen(fn: Function, s: Layout)
    requires Fits(fn, s) && Narrows(fn, s) && Shape(ContextOf(fn, s), SignsFacts(fn, s))
    ensures PushesReach(ContextOf(fn, s), SignsFacts(fn, s), SeenOf(s), 0)
  {
    LastInIs(fn, s);
    PushedFacts(fn, s);
    ReachFromOne(ContextOf(fn, s), SignsFacts(fn, s), SeenOf(s), 0, Push(1, Slot(0), s.Pushed()));
  }

  lemma PushIsSeen(fn: Function, s: Layout, b: nat)
    requires Fits(fn, s) && Narrows(fn, s) && Shape(ContextOf(fn, s), SignsFacts(fn, s)) && b < 3
    ensures PushesReach(ContextOf(fn, s), SignsFacts(fn, s), SeenOf(s), b)
  {
    if b == 0 {
      FirstPushIsSeen(fn, s);
    } else {
      NothingElsePushed(fn, s, b, LastIn(ContextOf(fn, s), SignsFacts(fn, s), b));
    }
  }

  lemma EdgesAreCovered(fn: Function, s: Layout, b: nat)
    requires Fits(fn, s) && Shape(ContextOf(fn, s), SignsFacts(fn, s)) && b < 3
    ensures EdgesInto(ContextOf(fn, s), SignsFacts(fn, s), SeenOf(s)[b].entry, b)
  {
    Sources(fn, s, b);
    assert IsPoint(fn, End(fn, 0));
  }

  lemma SeenIs(s: Layout, b: nat)
    requires b < 3
    ensures b in SeenOf(s) && SeenOf(s)[b] == Visit(SignsAt(s, Point(b, 0)), RangesOf(s))
  {
  }

  lemma BlockIsConsistent(fn: Function, s: Layout, b: nat)
    requires Fits(fn, s) && Narrows(fn, s) && Shape(ContextOf(fn, s), SignsFacts(fn, s)) && b < 3
    ensures Consistent(ContextOf(fn, s), SignsFacts(fn, s), Visit(SignsAt(s, Point(b, 0)), RangesOf(s)), b)
  {
    forall i: nat | IsInstruction(fn, b, i)
      ensures AgreesAt(ContextOf(fn, s), SignsFacts(fn, s), Visit(SignsAt(s, Point(b, 0)), RangesOf(s)), b, i)
    {
      SignsAgree(fn, s, b, i);
    }
  }

  /** All equations of one block. */
  ghost predicate IsSolved(c: Context, facts: Facts, seen: Seen, ranges: Ranges, b: nat)
    requires Shape(c, facts) && b < |c.Fn().blocks|
  {
    && b in seen && BlockFixed(c, facts, seen[b].entry, ranges, b)
    && EdgesInto(c, facts, seen[b].entry, b) && PushesReach(c, facts, seen, b)
  }

  lemma BlockIsSolved(fn: Function, s: Layout, b: nat)
    requires Fits(fn, s) && Narrows(fn, s) && Shape(ContextOf(fn, s), SignsFacts(fn, s)) && b < 3
    requires Tracks(ContextOf(fn, s), SignsFacts(fn, s))
    ensures IsSolved(ContextOf(fn, s), SignsFacts(fn, s), SeenOf(s), RangesOf(s), b)
  {
    SeenIs(s, b);
    SignsAtPoint(fn, s, b, 0);
    BlockIsConsistent(fn, s, b);
    Contributes(fn, s, b);
    EdgesAreCovered(fn, s, b);
    PushIsSeen(fn, s, b);
  }

  lemma SolvedBlocks(c: Context, facts: Facts, seen: Seen, ranges: Ranges)
    requires Shape(c, facts) && Tracks(c, facts)
    requires forall b: nat | b < |c.Fn().blocks| :: IsSolved(c, facts, seen, ranges, b)
    ensures PostFixpoint(c, facts, seen, ranges)
  {
    forall b: nat | b < |c.Fn().blocks|
      ensures b in seen && BlockFixed(c, facts, seen[b].entry, ranges, b)
      ensures EdgesInto(c, facts, seen[b].entry, b) && PushesReach(c, facts, seen, b)
    {
      assert IsSolved(c, facts, seen, ranges, b);
    }
  }

  lemma SignsArePostFixpoint(fn: Function, s: Layout)
    requires Fits(fn, s) && Narrows(fn, s)
    ensures PostFixpoint(ContextOf(fn, s), SignsFacts(fn, s), SeenOf(s), RangesOf(s))
  {
    ContextIsValid(fn, s);
    SignsTrack(fn, s);
    forall b: nat | b < 3
      ensures IsSolved(ContextOf(fn, s), SignsFacts(fn, s), SeenOf(s), RangesOf(s), b)
    {
      BlockIsSolved(fn, s, b);
    }
    SolvedBlocks(ContextOf(fn, s), SignsFacts(fn, s), SeenOf(s), RangesOf(s));
  }

  // ----- The runs -----

  /** Enough steps for a run, with every choice 0. */
  function Steps(n: nat): Script {
    if n == 0 then Stop else Step(0, Stop, Steps(n - 1))
  }

  /** From the branch on, the taken side returns the content of the slot. */
  lemma ReturnsSlot(fn: Function, s: Layout, st: State, x: int)
    requires Fits(fn, s) && AllWellFormed([fn]) && 0 in st.slots && st.slots[0] == x
    requires Eval(0, st, Reg(0, s.n + 1)).Some? && Eval(0, st, Reg(0, s.n + 1)).value != 0
    ensures Exec([fn], 0, 0, s.n + 2, st, Steps(3)) == Some(x)
  {
    var entered := st.(registers := map[]);
    var loaded := Define(entered, 0, x);
    assert Steps(1) == Step(0, Stop, Steps(0));
    assert Exec([fn], 0, 1, 1, loaded, Steps(1)) == Some(x);
    assert Steps(2) == Step(0, Stop, Steps(1));
    assert Exec([fn], 0, 1, 0, entered, Steps(2)) == Some(x);
    assert Steps(3) == Step(0, Stop, Steps(2));
  }

  /** A value is stored and then compared, and the test holds. */
  lemma StoredThenTested(fn: Function, s: Layout, arg: int, x: int)
    requires Fits(fn, s) && s.n == 0 && AllWellFormed([fn])
    requires var start := State(map[], map[], [Some(arg)]);
             && Eval(0, start, s.sender) == Some(x)
             && Defined(0, fn.blocks[0][1], start.(slots := map[0 := x]), 0) == Some(-1)
    ensures Run([fn], 0, [Some(arg)], Steps(5)) == Some(x)
  {
    var start := State(map[], map[], [Some(arg)]);
    var stored := start.(slots := map[0 := x]);
    var tested := Define(stored, 1, -1);
    ReturnsSlot(fn, s, tested, x);
    assert Steps(4) == Step(0, Stop, Steps(3));
    assert Exec([fn], 0, 0, 1, stored, Steps(4)) == Some(x);
    assert Steps(5) == Step(0, Stop, Steps(4));
    assert start.slots[0 := x] == map[0 := x];
    assert Exec([fn], 0, 0, 0, start, Steps(5)) == Some(x);
  }

  const CONSTANT := Layout(0, ConstInt(0), Zero, ConstInt(1), GreaterThanZero, GreaterThanZero)
  const STALE := Layout(2, ConstInt(1), GreaterThanZero, ConstInt(-1), LessThanZero, LessThanZero)
  const UNSIGNED := Layout(0, Arg(0), Top, ConstInt(1), GreaterThanZero, GreaterThanZero)
  const ORDERED := Layout(0, Arg(0), Top, Null, Bottom, Zero)

  lemma StoredConstantFits()
    ensures Fits(StoredConstant(), CONSTANT)
  {
  }

  lemma StoredConstantNarrows()
    requires Fits(StoredConstant(), CONSTANT)
    ensures Narrows(StoredConstant(), CONSTANT)
  {
  }

  lemma StaleOperandFits()
    ensures Fits(StaleOperand(), STALE)
  {
  }

  lemma StaleOperandNarrows()
    requires Fits(StaleOperand(), STALE)
    ensures Narrows(StaleOperand(), STALE)
  {
  }

  lemma UnsignedTestFits()
    ensures Fits(UnsignedTest(), UNSIGNED)
  {
  }

  lemma UnsignedTestNarrows()
    requires Fits(UnsignedTest(), UNSIGNED)
    ensures Narrows(UnsignedTest(), UNSIGNED)
  {
  }

  lemma NullOrderFits()
    ensures Fits(NullOrder(), ORDERED)
  {
  }

  lemma NullOrderNarrows()
    requires Fits(NullOrder(), ORDERED)
    ensures Narrows(NullOrder(), ORDERED)
  {
  }

  /** With a negative argument the second function returns 1. */
  lemma StaleOperandReturns(fn: Function)
    requires fn == StaleOperand() && Fits(fn, STALE) && AllWellFormed([fn])
    ensures Run([fn], 0, [Some(-1)], Steps(7)) == Some(1)
  {
    var start := State(map[], map[], [Some(-1)]);
    var stored := start.(slots := start.slots[0 := -1]);
    var loaded := Define(stored, 1, -1);
    var replaced := loaded.(slots := loaded.slots[0 := 1]);
    var tested := Define(replaced, 3, -1);
    ReturnsSlot(fn, STALE, tested, 1);
    assert Steps(4) == Step(0, Stop, Steps(3));
    assert Exec([fn], 0, 0, 3, replaced, Steps(4)) == Some(1);
    assert Steps(5) == Step(0, Stop, Steps(4));
    assert Exec([fn], 0, 0, 2, loaded, Steps(5)) == Some(1);
    assert Steps(6) == Step(0, Stop, Steps(5));
    assert Exec([fn], 0, 0, 1, stored, Steps(6)) == Some(1);
    assert Steps(7) == Step(0, Stop, Steps(6));
    assert Exec([fn], 0, 0, 0, start, Steps(7)) == Some(1);
  }

  /** Equations solved in both passes, and a run that leaves the range. */
  ghost predicate Escapes(fn: Function, returnable: RV.Facts, facts: Facts, seen: Seen, ranges: Ranges,
                          args: seq<Option<int>>, script: Script) {
    && AllWellFormed([fn])
    && RV.IsFixpoint(fn, returnable)
    && PostFixpoint(Context([fn], 0, returnable), facts, seen, ranges)
    && Run([fn], 0, args, script).Some? && 0 in ranges
    && !In(Run([fn], 0, args, script).value, ranges[0])
  }

  ghost predicate LayoutEscapes(fn: Function, s: Layout, args: seq<Option<int>>, script: Script) {
    Escapes(fn, ReturnableFacts(fn, s), SignsFacts(fn, s), SeenOf(s), RangesOf(s), args, script)
  }

  lemma RunEscapes(fn: Function, s: Layout, args: seq<Option<int>>, script: Script)
    requires Fits(fn, s) && Narrows(fn, s) && AllWellFormed([fn])
    requires Run([fn], 0, args, script).Some? && !In(Run([fn], 0, args, script).value, s.range)
    ensures LayoutEscapes(fn, s, args, script)
  {
    ReturnableIsFixpoint(fn, s);
    SignsArePostFixpoint(fn, s);
  }

  /** A constant that has just been stored is taken for the tested value: with a positive
      argument the function returns 0. */
  lemma StoredConstantEscapes()
    ensures LayoutEscapes(StoredConstant(), CONSTANT, [Some(1)], Steps(5))
  {
    StoredConstantFits();
    StoredConstantNarrows();
    BlocksAreWellFormed(StoredConstant(), CONSTANT);
    StoredThenTested(StoredConstant(), CONSTANT, 1, 0);
    RunEscapes(StoredConstant(), CONSTANT, [Some(1)], Steps(5));
  }

  /** A value is tested that its slot no longer holds: with a negative argument the function
      returns 1. */
  lemma StaleOperandEscapes()
    ensures LayoutEscapes(StaleOperand(), STALE, [Some(-1)], Steps(7))
  {
    StaleOperandFits();
    StaleOperandNarrows();
    BlocksAreWellFormed(StaleOperand(), STALE);
    StaleOperandReturns(StaleOperand());
    RunEscapes(StaleOperand(), STALE, [Some(-1)], Steps(7));
  }

  /** An unsigned test claims its operand positive: with a negative argument the function
      returns that argument. */
  lemma UnsignedTestEscapes()
    ensures LayoutEscapes(UnsignedTest(), UNSIGNED, [Some(-1)], Steps(5))
  {
    UnsignedTestFits();
    UnsignedTestNarrows();
    BlocksAreWellFormed(UnsignedTest(), UNSIGNED);
    StoredThenTested(UnsignedTest(), UNSIGNED, -1, -1);
    RunEscapes(UnsignedTest(), UNSIGNED, [Some(-1)], Steps(5));
  }

  /** An order test against null claims that no pointer passes it: any pointer but null is
      returned. */
  lemma NullOrderEscapes()
    ensures LayoutEscapes(NullOrder(), ORDERED, [Some(5)], Steps(5))
  {
    NullOrderFits();
    NullOrderNarrows();
    BlocksAreWellFormed(NullOrder(), ORDERED);
    StoredThenTested(NullOrder(), ORDERED, 5, 5);
    RunEscapes(NullOrder(), ORDERED, [Some(5)], Steps(5));
  }

  // ----- Truncation -----

  /** `signed char g(unsigned char x) { return (int) x; }` */
  function Truncation(): Function {
    Function("g", ReturnsInteger, [[ZExt(Arg(0)), Cast(Trunc, Reg(0, 0)), Ret(Reg(0, 1))]])
  }

  predicate IsTruncation(fn: Function) {
    && fn.returns_.ReturnsInteger? && |fn.blocks| == 1 && |fn.blocks[0]| == 3
    && fn.blocks[0][0] == ZExt(Arg(0)) && fn.blocks[0][1] == Cast(Trunc, Reg(0, 0)) && fn.blocks[0][2] == Ret(Reg(0, 1))
  }

  function TruncatedReturnable(i: nat): RV.Fact {
    if i <= 1 then {Reg(0, 0)} else if i == 2 then {Reg(0, 1)} else {}
  }

  function TruncatedSigns(i: nat): Fact {
    if i == 2 then map[Reg(0, 1) := GreaterThanEqualZero] else map[]
  }

  function TruncatedReturnableFacts(fn: Function): RV.Facts {
    map q | q in Points(fn) :: TruncatedReturnable(q.index)
  }

  function TruncatedSignsFacts(fn: Function): Facts {
    map q | q in Points(fn) :: TruncatedSigns(q.index)
  }

  const NON_NEGATIVE: Ranges := map[0 := GreaterThanEqualZero]

  function TruncatedSeen(): Seen {
    map[0 := Visit(map[], NON_NEGATIVE)]
  }

  lemma TruncationIsFixpoint(fn: Function)
    requires IsTruncation(fn)
    ensures RV.IsFixpoint(fn, TruncatedReturnableFacts(fn))
  {
    var facts := TruncatedReturnableFacts(fn);
    assert WellFormedBlock(fn, 0);
    forall i: nat | IsInstruction(fn, 0, i)
      ensures RV.AgreesAt(fn, facts, 0, i)
    {
      assert IsPoint(fn, Point(0, i)) && IsPoint(fn, Point(0, i + 1));
    }
  }

  lemma TruncationShape(fn: Function)
    requires IsTruncation(fn)
    ensures Shape(Context([fn], 0, TruncatedReturnableFacts(fn)), TruncatedSignsFacts(fn))
    ensures Predecessors(fn, 0) == {}
  {
    assert WellFormedBlock(fn, 0);
    forall b: nat, i: nat | IsInstruction(fn, b, i)
      ensures OperandsAreLocal(fn.blocks[b][i], b, i)
    {
    }
    LocalOperands(fn);
  }

  lemma TruncationAgrees(fn: Function, i: nat)
    requires IsTruncation(fn) && i < 3
    requires Shape(Context([fn], 0, TruncatedReturnableFacts(fn)), TruncatedSignsFacts(fn))
    ensures AgreesAt(Context([fn], 0, TruncatedReturnableFacts(fn)), TruncatedSignsFacts(fn), TruncatedSeen()[0], 0, i)
  {
    assert IsPoint(fn, Point(0, i)) && IsPoint(fn, Point(0, i + 1));
  }

  lemma TruncationIsSolved(fn: Function)
    requires IsTruncation(fn)
    requires Shape(Context([fn], 0, TruncatedReturnableFacts(fn)), TruncatedSignsFacts(fn))
    requires Predecessors(fn, 0) == {}
    ensures IsSolved(Context([fn], 0, TruncatedReturnableFacts(fn)), TruncatedSignsFacts(fn), TruncatedSeen(), NON_NEGATIVE, 0)
  {
    var c, facts := Context([fn], 0, TruncatedReturnableFacts(fn)), TruncatedSignsFacts(fn);
    forall i: nat | IsInstruction(fn, 0, i)
      ensures AgreesAt(c, facts, TruncatedSeen()[0], 0, i)
    {
      TruncationAgrees(fn, i);
    }
    assert IsPoint(fn, Point(0, 0)) && IsPoint(fn, Point(0, 2));
    assert Last(fn, 0) == Ret(Reg(0, 1));
  }

  lemma TruncationIsPostFixpoint(fn: Function)
    requires IsTruncation(fn)
    ensures PostFixpoint(Context([fn], 0, TruncatedReturnableFacts(fn)), TruncatedSignsFacts(fn), TruncatedSeen(), NON_NEGATIVE)
  {
    TruncationShape(fn);
    TruncationIsSolved(fn);
    SolvedBlocks(Context([fn], 0, TruncatedReturnableFacts(fn)), TruncatedSignsFacts(fn), TruncatedSeen(), NON_NEGATIVE);
  }

  lemma TruncationReturns(fn: Function)
    requires IsTruncation(fn) && AllWellFormed([fn])
    ensures Run([fn], 0, [Some(255)], Step(255, Stop, Step(-1, Stop, Steps(1)))) == Some(-1)
  {
    var start := State(map[], map[], [Some(255)]);
    var one := Define(start, 0, 255);
    assert Steps(1) == Step(0, Stop, Steps(0));
    assert Exec([fn], 0, 0, 2, Define(one, 1, -1), Steps(1)) == Some(-1);
    assert Exec([fn], 0, 0, 1, one, Step(-1, Stop, Steps(1))) == Some(-1);
    assert Exec([fn], 0, 0, 0, start, Step(255, Stop, Step(-1, Stop, Steps(1)))) == Some(-1);
  }

  /** A truncation copies the sign of its operand: 255, zero-extended and truncated to a
      signed byte, is -1. */
  lemma TruncationEscapes()
    ensures var fn := Truncation();
            Escapes(fn, TruncatedReturnableFacts(fn), TruncatedSignsFacts(fn), TruncatedSeen(), NON_NEGATIVE,
                    [Some(255)], Step(255, Stop, Step(-1, Stop, Steps(1))))
  {
    var fn := Truncation();
    assert IsTruncation(fn);
    TruncationIsFixpoint(fn);
    TruncationIsPostFixpoint(fn);
    TruncationReturns(fn);
  }
}
