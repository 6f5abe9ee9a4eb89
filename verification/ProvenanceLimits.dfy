/** Where return propagation loses a call: two functions of one block whose result is that
    of a call, and for which the pass ends with an entry that does not list it. */
module ProvenanceLimits {
  import opened IR
  import opened Semantics
  import opened Provenance
  import opened RP = ReturnPropagation

  /** `int **p = malloc(8); *p = g(); return p;` */
  function StoreThroughRegister(): Function {
    Function("f", ReturnsPointer,
             [[Call(Direct(1, "malloc", 1), [ConstInt(8)]), Call(Direct(2, "g", 2), []),
               Store(Reg(0, 1), Reg(0, 0)), Ret(Reg(0, 0))]])
  }

  /** `long f(void) { return g(); }` with `int g(void)`. */
  function SignExtension(): Function {
    Function("f", ReturnsInteger, [[Call(Direct(1, "g", 1), []), Cast(SExt, Reg(0, 0)), Ret(Reg(0, 1))]])
  }

  // ----- Functions of one block -----

  predicate IsStraight(fn: Function) {
    && |fn.blocks| == 1 && |fn.blocks[0]| >= 1 && Targets(fn.blocks[0][|fn.blocks[0]| - 1]) == {}
    && forall i | 0 <= i < |fn.blocks[0]| :: IsTerminator(fn.blocks[0][i]) <==> i == |fn.blocks[0]| - 1
  }

  lemma StraightIsWellFormed(fn: Function)
    requires IsStraight(fn)
    ensures WellFormed(fn) && Predecessors(fn, 0) == {}
  {
    assert WellFormedBlock(fn, 0);
  }

  /** Where the pass must end: its equations hold, and nothing comes from nowhere. */
  ghost predicate IsOutcome(fn: Function, facts: Facts) {
    IsPostFixpoint(fn, facts) && StartsEmpty(fn, facts)
  }

  /** The one fact that can be at a point of the only block. */
  function FactAt(fn: Function, i: nat): Fact
    requires |fn.blocks| == 1 && i <= |fn.blocks[0]|
  {
    if i == 0 then map[] else Transfer(fn.blocks[0][i - 1], Reg(0, i - 1), FactAt(fn, i - 1))
  }

  lemma {:induction false} OutcomeIs(fn: Function, facts: Facts, i: nat)
    requires IsStraight(fn) && IsOutcome(fn, facts) && i <= |fn.blocks[0]|
    ensures Point(0, i) in facts && facts[Point(0, i)] == FactAt(fn, i)
  {
    assert IsPoint(fn, Point(0, i));
    if i == 0 {
      StraightIsWellFormed(fn);
    } else {
      OutcomeIs(fn, facts, i - 1);
      NextFact(fn, facts, Point(0, i - 1));
    }
  }

  function PathTo(i: nat): (path: seq<Point>)
    ensures |path| == i + 1
  {
    seq(i + 1, k requires 0 <= k <= i => Point(0, k))
  }

  lemma PathIsPath(fn: Function, i: nat)
    requires IsStraight(fn) && WellFormed(fn) && i <= |fn.blocks[0]|
    ensures IsPath(fn, PathTo(i))
  {
  }

  /** What is held at a point of the only block. */
  function HeldAt(fn: Function, i: nat): Held
    requires |fn.blocks| == 1 && i <= |fn.blocks[0]|
  {
    if i == 0 then map[] else Execute(fn.blocks[0][i - 1], Reg(0, i - 1), HeldAt(fn, i - 1))
  }

  lemma {:induction false} HeldIs(fn: Function, i: nat)
    requires IsStraight(fn) && WellFormed(fn) && i <= |fn.blocks[0]|
    ensures IsPath(fn, PathTo(i)) && HeldAfter(fn, PathTo(i)) == HeldAt(fn, i)
  {
    PathIsPath(fn, i);
    if i > 0 {
      HeldIs(fn, i - 1);
      assert PathTo(i)[..i] == PathTo(i - 1);
    }
  }

  // ----- The two outcomes -----

  /** The results of the calls, in order, and nothing else to choose. */
  function Choices(results: seq<int>): Script {
    if results == [] then Stop else Step(results[0], Stop, Choices(results[1..]))
  }

  lemma CallAdds(inst: Instr, self: Value, x: Fact, held: Held)
    requires inst.Call? && self !in x
    ensures Transfer(inst, self, x) == x[self := {self}] && Execute(inst, self, held) == held[self := self]
  {
    assert {} + {self} == {self};
  }

  lemma Next(fn: Function, i: nat)
    requires |fn.blocks| == 1 && i < |fn.blocks[0]|
    ensures FactAt(fn, i + 1) == Transfer(fn.blocks[0][i], Reg(0, i), FactAt(fn, i))
    ensures HeldAt(fn, i + 1) == Execute(fn.blocks[0][i], Reg(0, i), HeldAt(fn, i))
  {
  }

  lemma StoreFacts(fn: Function)
    requires fn == StoreThroughRegister()
    ensures FactAt(fn, 2) == map[Reg(0, 0) := {Reg(0, 0)}, Reg(0, 1) := {Reg(0, 1)}]
    ensures FactAt(fn, 3) == map[Reg(0, 0) := {Reg(0, 1)}, Reg(0, 1) := {Reg(0, 1)}]
    ensures HeldAt(fn, 2) == map[Reg(0, 0) := Reg(0, 0), Reg(0, 1) := Reg(0, 1)] && HeldAt(fn, 3) == HeldAt(fn, 2)
  {
    Next(fn, 0);
    CallAdds(fn.blocks[0][0], Reg(0, 0), map[], map[]);
    Next(fn, 1);
    CallAdds(fn.blocks[0][1], Reg(0, 1), FactAt(fn, 1), HeldAt(fn, 1));
    Next(fn, 2);
  }

  lemma StoreRuns(fn: Function)
    requires fn == StoreThroughRegister() && AllWellFormed([fn])
    ensures Run([fn], 0, [], Choices([7, 3, 0, 0])) == Some(7)
  {
    var start := State(map[], map[], []);
    var one := Define(start, 0, 7);
    var two := Define(one, 1, 3);
    assert Choices([0]) == Step(0, Stop, Stop);
    assert [0, 0][1..] == [0] && [3, 0, 0][1..] == [0, 0] && [7, 3, 0, 0][1..] == [3, 0, 0];
    assert Exec([fn], 0, 0, 3, two, Choices([0])) == Some(7);
    assert Exec([fn], 0, 0, 2, two, Choices([0, 0])) == Some(7);
    assert Exec([fn], 0, 0, 1, one, Choices([3, 0, 0])) == Some(7);
    assert Exec([fn], 0, 0, 0, start, Choices([7, 3, 0, 0])) == Some(7);
  }

  /** The function returns what `malloc` returned, and wherever the pass ends, the entry of
      the returned register lists the call to `g` only. Nothing is sign-extended; the
      store overwrites what its register holds. */
  lemma StoreLosesCall(facts: Facts)
    requires IsOutcome(StoreThroughRegister(), facts)
    ensures var fn := StoreThroughRegister();
            && AllWellFormed([fn]) && Run([fn], 0, [], Choices([7, 3, 0, 0])) == Some(7)
            && IntegersAreNotAddresses(fn) && NeverDropsHeld(fn)
            && IsPath(fn, PathTo(2)) && OverwritesHeld(fn, facts, PathTo(2)) && !IsSound(fn, facts)
            && Point(0, 3) in facts && Get(facts[Point(0, 3)], Reg(0, 0)) == {Reg(0, 1)}
  {
    var fn := StoreThroughRegister();
    StraightIsWellFormed(fn);
    StoreFacts(fn);
    StoreRuns(fn);
    OutcomeIs(fn, facts, 2);
    OutcomeIs(fn, facts, 3);
    HeldIs(fn, 2);
    assert forall i | 0 <= i < 4 :: !DropsEntry(fn.blocks[0][i]);
    OverwriteIsUnsound(fn, facts, PathTo(2));
  }

  lemma ExtensionFacts(fn: Function)
    requires fn == SignExtension()
    ensures FactAt(fn, 1) == map[Reg(0, 0) := {Reg(0, 0)}] && FactAt(fn, 2) == FactAt(fn, 1)
    ensures HeldAt(fn, 1) == map[Reg(0, 0) := Reg(0, 0)]
  {
    Next(fn, 0);
    CallAdds(fn.blocks[0][0], Reg(0, 0), map[], map[]);
    Next(fn, 1);
  }

  lemma ExtensionRuns(fn: Function)
    requires fn == SignExtension() && AllWellFormed([fn])
    ensures Run([fn], 0, [], Choices([7, 0, 0])) == Some(7)
  {
    var start := State(map[], map[], []);
    var one := Define(start, 0, 7);
    assert [0, 0][1..] == [0] && [7, 0, 0][1..] == [0, 0];
    assert Exec([fn], 0, 0, 2, Define(one, 1, 7), Choices([0])) == Some(7);
    assert Exec([fn], 0, 0, 1, one, Choices([0, 0])) == Some(7);
    assert Exec([fn], 0, 0, 0, start, Choices([7, 0, 0])) == Some(7);
  }

  /** The function returns what `g` returned, and wherever the pass ends, the returned
      register has no entry. */
  lemma ExtensionLosesCall(facts: Facts)
    requires IsOutcome(SignExtension(), facts)
    ensures var fn := SignExtension();
            && AllWellFormed([fn]) && Run([fn], 0, [], Choices([7, 0, 0])) == Some(7)
            && IntegersAreNotAddresses(fn) && NeverOverwritesHeld(fn, facts)
            && IsPath(fn, PathTo(1)) && DropsHeld(fn, PathTo(1)) && !IsSound(fn, facts)
            && Point(0, 2) in facts && Reg(0, 1) !in facts[Point(0, 2)]
  {
    var fn := SignExtension();
    StraightIsWellFormed(fn);
    ExtensionFacts(fn);
    ExtensionRuns(fn);
    OutcomeIs(fn, facts, 1);
    OutcomeIs(fn, facts, 2);
    HeldIs(fn, 1);
    HeldIs(fn, 2);
    assert forall i | 0 <= i < 3 :: !fn.blocks[0][i].Store?;
    assert Reg(0, 1) in HeldAfter(fn, PathTo(2)) && !IsSoundAt(fn, facts, PathTo(2));
  }

  /** The pass does end there. */
  method RunBoth() returns (stored: Facts, extended: Facts)
    ensures IsOutcome(StoreThroughRegister(), stored) && !IsSound(StoreThroughRegister(), stored)
    ensures IsOutcome(SignExtension(), extended) && !IsSound(SignExtension(), extended)
  {
    StraightIsWellFormed(StoreThroughRegister());
    StraightIsWellFormed(SignExtension());
    var pass := new ReturnPropagationPass(StoreThroughRegister());
    var sweeps := pass.Run();
    stored := pass.facts;
    StoreLosesCall(stored);
    pass := new ReturnPropagationPass(SignExtension());
    sweeps := pass.Run();
    extended := pass.facts;
    ExtensionLosesCall(extended);
  }
}
