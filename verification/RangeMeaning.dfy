/** What the transfer functions of the return-range pass mean, said of single integers
    and by kinds of operands and instructions. Nothing here is defined by the transfer
    functions: each lemma ties one of them to a relation that stands on its own. */
module RangeMeaning {
  import opened SignLattice
  import opened SignFacts
  import opened IR
  import opened ICmpAbstraction
  import opened BranchTests
  import opened RangeTransfer
  import opened RangeInvariant
  import RV = ReturnedValues

  // ----- Operands -----

  /** What is known of the result of an instruction that no fact tracks: a call of an
      analysed function returns what the range of that function has so far, a
      zero-extension is not negative, anything else is any integer. */
  ghost predicate ResultMayBe(functions: seq<Function>, ranges: Ranges, inst: Instr, x: int) {
    && (inst.Call? && inst.callee.Direct? && inst.callee.id < |functions| && functions[inst.callee.id].blocks != [] ==>
          inst.callee.id in ranges && In(x, ranges[inst.callee.id]))
    && (inst.ZExt? ==> x >= 0)
  }

  ghost predicate MayBe(functions: seq<Function>, fn: Function, ranges: Ranges, v: Value, x: int) {
    && (v.ConstInt? ==> SameSign(x, v.k))
    && (v.ConstBool? ==> (v.p <==> x != 0))
    && (v.Null? ==> x == 0)
    && (v.StringLiteral? ==> x != 0)
    && (v.Reg? && Definition(fn, v).Some? ==> ResultMayBe(functions, ranges, Definition(fn, v).value, x))
  }

  lemma AbstractValueMeans(functions: seq<Function>, fn: Function, ranges: Ranges, v: Value, x: int)
    ensures In(x, AbstractValue(functions, fn, ranges, v)) <==> MayBe(functions, fn, ranges, v, x)
  {
  }

  /** A tracked sign takes the place of what the operand itself tells. */
  ghost predicate OperandMayBe(c: Context, ranges: Ranges, fact: Fact, v: Value, x: int)
    requires c.Valid()
  {
    if v in fact then In(x, fact[v]) else MayBe(c.functions, c.Fn(), ranges, v, x)
  }

  lemma OperandSignMeans(c: Context, ranges: Ranges, fact: Fact, v: Value, x: int)
    requires c.Valid()
    ensures In(x, OperandSign(c, ranges, fact, v)) <==> OperandMayBe(c, ranges, fact, v, x)
  {
    AbstractValueMeans(c.functions, c.Fn(), ranges, v, x);
  }

  // ----- Returns -----

  /** A return may return what its operand may be; a pointer that may be other than null
      may be anything other than null. */
  ghost predicate MayReturn(c: Context, ranges: Ranges, fact: Fact, result: Value, x: int)
    requires c.Valid()
  {
    || OperandMayBe(c, ranges, fact, result, x)
    || (c.Fn().returns_.ReturnsPointer? && x != 0 && exists y :: y != 0 && OperandMayBe(c, ranges, fact, result, y))
  }

  lemma ContributionMeans(c: Context, ranges: Ranges, fact: Fact, result: Value, x: int)
    requires c.Valid()
    ensures In(x, Contribution(c, ranges, fact, result)) <==> MayReturn(c, ranges, fact, result, x)
  {
    var s := OperandSign(c, ranges, fact, result);
    IntersectsIsOverlap(s, NotZero);
    InByAtoms(x, s);
    InByAtoms(x, Lub(s, NotZero));
    forall y
      ensures In(y, s) <==> OperandMayBe(c, ranges, fact, result, y)
    {
      OperandSignMeans(c, ranges, fact, result, y);
    }
  }

  // ----- Tests -----

  /** Comparison `i` of block `b`, applied to the operand, looks at the content of a
      returnable address: the operand is a load from it, or is no load and was stored to
      it by the instruction before. */
  ghost predicate LooksAt(fn: Function, b: nat, i: nat, v: Value, returnable: RV.Fact, address: Value)
    requires IsInstruction(fn, b, i)
  {
    && address in returnable
    && if IsLoad(fn, v) then Definition(fn, v).value.address == address
       else i > 0 && fn.blocks[b][i - 1] == Store(v, address)
  }

  predicate IsLoad(fn: Function, v: Value) {
    Definition(fn, v).Some? && Definition(fn, v).value.Load?
  }

  lemma CheckedReturnValueMeans(fn: Function, b: nat, i: nat, v: Value, returnable: RV.Fact, address: Value)
    requires IsInstruction(fn, b, i)
    ensures CheckedReturnValue(fn, b, i, v, returnable) == Some(address) <==> LooksAt(fn, b, i, v, returnable, address)
  {
  }

  /** The last instruction of a block tests the content of an address: the condition of a
      switch looks at it, or the first operand of a comparison does, or the second does
      and the first looks at nothing. */
  ghost predicate Tests(fn: Function, b: nat, returnable: RV.Fact, address: Value)
    requires WellFormed(fn) && b < |fn.blocks|
  {
    match Last(fn, b)
    case Switch(condition, _, _) => LooksAt(fn, b, LastIndex(fn, b), condition, returnable, address)
    case CondBr(condition, _, _) =>
      (match Definition(fn, condition)
       case Some(ICmp(_, x, y)) =>
         || LooksAt(fn, condition.block, condition.index, x, returnable, address)
         || (&& LooksAt(fn, condition.block, condition.index, y, returnable, address)
             && forall a :: !LooksAt(fn, condition.block, condition.index, x, returnable, a))
       case _ => false)
    case _ => false
  }

  lemma CheckedMeans(fn: Function, b: nat, returnable: RV.Fact, address: Value)
    requires WellFormed(fn) && b < |fn.blocks|
    ensures Checked(fn, b, returnable) == Some(address) <==> Tests(fn, b, returnable, address)
  {
    match Last(fn, b)
    case Switch(condition, _, _) => CheckedReturnValueMeans(fn, b, LastIndex(fn, b), condition, returnable, address);
    case CondBr(condition, _, _) =>
      if Definition(fn, condition).Some? && Definition(fn, condition).value.ICmp? {
        var icmp := Definition(fn, condition).value;
        forall a
          ensures CheckedReturnValue(fn, condition.block, condition.index, icmp.x, returnable) == Some(a) <==>
                  LooksAt(fn, condition.block, condition.index, icmp.x, returnable, a)
        {
          CheckedReturnValueMeans(fn, condition.block, condition.index, icmp.x, returnable, a);
        }
        CheckedReturnValueMeans(fn, condition.block, condition.index, icmp.y, returnable, address);
      }
    case _ =>
  }

  // ----- Output facts -----

  /** The operand whose sign an instruction gives to a key. */
  function CopiedTo(fn: Function, b: nat, i: nat, key: Value): Option<Value>
    requires IsInstruction(fn, b, i)
  {
    match fn.blocks[b][i]
    case Store(sender, receiver) => if key == receiver then Some(sender) else None
    case Load(address) => if key == Reg(b, i) then Some(address) else None
    case Cast(_, source) => if key == Reg(b, i) then Some(source) else None
    case _ => None
  }

  /** The entry of a key passes an instruction that does not test its content. */
  ghost predicate Passes(c: Context, b: nat, i: nat, fact: Fact, key: Value)
    requires c.Valid() && IsInstruction(c.Fn(), b, i)
  {
    && key in fact && !c.Fn().blocks[b][i].Ret?
    && !(i == LastIndex(c.Fn(), b) && Tests(c.Fn(), b, c.returnable[End(c.Fn(), b)], key))
  }

  /** The key has an entry after the instruction. */
  ghost predicate HasEntryAfter(c: Context, b: nat, i: nat, fact: Fact, key: Value)
    requires c.Valid() && IsInstruction(c.Fn(), b, i)
  {
    key in c.returnable[Point(b, i + 1)] && (CopiedTo(c.Fn(), b, i, key).Some? || Passes(c, b, i, fact, key))
  }

  /** The integers that entry has. */
  ghost predicate MayBeAfter(c: Context, ranges: Ranges, b: nat, i: nat, fact: Fact, key: Value, x: int)
    requires c.Valid() && IsInstruction(c.Fn(), b, i) && HasEntryAfter(c, b, i, fact, key)
  {
    var copied := CopiedTo(c.Fn(), b, i, key);
    if copied.Some? then OperandMayBe(c, ranges, fact, copied.value, x) else In(x, fact[key])
  }

  lemma OutMeans(c: Context, ranges: Ranges, b: nat, i: nat, fact: Fact, key: Value)
    requires c.Valid() && IsInstruction(c.Fn(), b, i)
    ensures key in Out(c, ranges, b, i, fact) <==> HasEntryAfter(c, b, i, fact, key)
    ensures key in Out(c, ranges, b, i, fact) ==>
              forall x :: In(x, Out(c, ranges, b, i, fact)[key]) <==> MayBeAfter(c, ranges, b, i, fact, key, x)
  {
    var fn := c.Fn();
    assert WellFormedBlock(fn, b);
    if i == LastIndex(fn, b) {
      CheckedMeans(fn, b, c.returnable[End(fn, b)], key);
    }
    OutEntry(c, ranges, b, i, fact, key);
    var copied := CopiedTo(fn, b, i, key);
    if copied.Some? {
      forall x
        ensures In(x, OperandSign(c, ranges, fact, copied.value)) <==> OperandMayBe(c, ranges, fact, copied.value, x)
      {
        OperandSignMeans(c, ranges, fact, copied.value, x);
      }
    }
  }

  lemma OutEntry(c: Context, ranges: Ranges, b: nat, i: nat, fact: Fact, key: Value)
    requires c.Valid() && IsInstruction(c.Fn(), b, i) && WellFormedBlock(c.Fn(), b)
    ensures var fn := c.Fn();
            var copied := CopiedTo(fn, b, i, key);
            var out := Out(c, ranges, b, i, fact);
            var tested := i == LastIndex(fn, b) && Checked(fn, b, c.returnable[End(fn, b)]) == Some(key);
            && (key in out <==> key in c.returnable[Point(b, i + 1)] &&
                                (copied.Some? || (key in fact && !fn.blocks[b][i].Ret? && !tested)))
            && (key in out ==>
                  out[key] == if copied.Some? then OperandSign(c, ranges, fact, copied.value) else fact[key])
  {
  }

  // ----- Pushed facts -----

  /** A successor hears of the tested content what the test lets through and the fact
      before the test does not exclude; the default successor of a switch hears what that
      fact says, if it says anything. */
  ghost predicate Hears(c: Context, b: nat, fact: Fact, target: nat, key: Value, x: int)
    requires c.Valid() && b < |c.Fn().blocks|
  {
    var last := Last(c.Fn(), b);
    && HearsOf(c, b, fact, target, key)
    && (|| (LetsThrough(c.Fn(), last, target, x) && (key in fact ==> In(x, fact[key])))
        || (last.Switch? && target == last.default_ && key in fact && In(x, fact[key])))
  }

  /** A successor hears of the tested content at all, if that is returnable there. */
  ghost predicate HearsOf(c: Context, b: nat, fact: Fact, target: nat, key: Value)
    requires c.Valid() && b < |c.Fn().blocks|
  {
    var last := Last(c.Fn(), b);
    && Tests(c.Fn(), b, c.returnable[End(c.Fn(), b)], key)
    && target in Successors(c.Fn(), b)
    && key in c.returnable[Point(target, 0)]
    && (last.Switch? && target == last.default_ ==> key in fact || target in CaseTargets(last.cases))
  }

  ghost predicate PushTo(pushes: seq<Push>, target: nat, key: Value) {
    exists p :: p in pushes && p.target == target && p.key == key
  }

  ghost predicate PushOf(pushes: seq<Push>, target: nat, key: Value, x: int) {
    exists p :: p in pushes && p.target == target && p.key == key && In(x, p.sign)
  }

  lemma PushConcat(xs: seq<Push>, ys: seq<Push>, target: nat, key: Value, x: int)
    ensures PushTo(xs + ys, target, key) <==> PushTo(xs, target, key) || PushTo(ys, target, key)
    ensures PushOf(xs + ys, target, key, x) <==> PushOf(xs, target, key, x) || PushOf(ys, target, key, x)
  {
    assert forall p :: p in xs + ys <==> p in xs || p in ys;
  }

  lemma NarrowedMeans(c: Context, fact: Fact, successor: nat, tested: Value, test: Sign, target: nat, key: Value, x: int)
    requires c.Valid() && successor < |c.Fn().blocks|
    ensures PushTo(Narrowed(c, fact, successor, tested, test), target, key) <==>
              target == successor && key == tested && key in c.returnable[Point(successor, 0)]
    ensures PushOf(Narrowed(c, fact, successor, tested, test), target, key, x) <==>
              && target == successor && key == tested && key in c.returnable[Point(successor, 0)]
              && In(x, test) && (key in fact ==> In(x, fact[key]))
  {
    var pushes := Narrowed(c, fact, successor, tested, test);
    if tested in c.returnable[Point(successor, 0)] {
      if tested in fact {
        InGlb(x, fact[tested], test);
      }
      assert pushes == [pushes[0]] && pushes[0] in pushes;
    }
  }

  lemma DefaultPushMeans(c: Context, fact: Fact, successor: nat, tested: Value, target: nat, key: Value, x: int)
    requires c.Valid() && successor < |c.Fn().blocks|
    ensures PushTo(DefaultPush(c, fact, successor, tested), target, key) <==>
              target == successor && key == tested && key in c.returnable[Point(successor, 0)] && key in fact
    ensures PushOf(DefaultPush(c, fact, successor, tested), target, key, x) <==>
              && target == successor && key == tested && key in c.returnable[Point(successor, 0)]
              && key in fact && In(x, fact[key])
  {
    var pushes := DefaultPush(c, fact, successor, tested);
    if pushes != [] {
      assert pushes == [pushes[0]] && pushes[0] in pushes;
    }
  }

  lemma {:induction false} CasePushesMean(c: Context, fact: Fact, tested: Value, cases: seq<Case>,
                                          target: nat, key: Value, x: int)
    requires c.Valid() && forall t :: t in CaseTargets(cases) ==> t < |c.Fn().blocks|
    ensures PushTo(CasePushes(c, fact, tested, cases), target, key) <==>
              target in CaseTargets(cases) && key == tested && key in c.returnable[Point(target, 0)]
    ensures PushOf(CasePushes(c, fact, tested, cases), target, key, x) <==>
              && (exists k :: 0 <= k < |cases| && IsCaseOf(cases[k], target, x))
              && key == tested && target in CaseTargets(cases) && key in c.returnable[Point(target, 0)]
              && (key in fact ==> In(x, fact[key]))
    decreases |cases|
  {
    if cases != [] {
      var first, rest := cases[0], cases[1..];
      assert first in cases && first.target in CaseTargets(cases);
      assert CaseTargets(cases) == {first.target} + CaseTargets(rest);
      CasePushesMean(c, fact, tested, rest, target, key, x);
      NarrowedMeans(c, fact, first.target, tested, AbstractInteger(first.value), target, key, x);
      AbstractIntegerMeans(x, first.value);
      PushConcat(Narrowed(c, fact, first.target, tested, AbstractInteger(first.value)),
                 CasePushes(c, fact, tested, rest), target, key, x);
      CasesOfRest(cases, target, x);
    }
  }

  lemma CasesOfRest(cases: seq<Case>, target: nat, x: int)
    requires cases != []
    ensures (exists k :: 0 <= k < |cases| && IsCaseOf(cases[k], target, x)) <==>
              || IsCaseOf(cases[0], target, x)
              || exists k :: 0 <= k < |cases[1..]| && IsCaseOf(cases[1..][k], target, x)
    ensures (exists k :: 0 <= k < |cases| && IsCaseOf(cases[k], target, x)) ==> target in CaseTargets(cases)
  {
    if k :| 0 <= k < |cases| && IsCaseOf(cases[k], target, x) {
      assert cases[k] in cases;
      if k > 0 {
        assert cases[1..][k - 1] == cases[k];
      }
    }
    if k :| 0 <= k < |cases[1..]| && IsCaseOf(cases[1..][k], target, x) {
      assert cases[k + 1] == cases[1..][k];
    }
  }

  /** The pushes of a block, by meaning. */
  lemma PushesMean(c: Context, b: nat, fact: Fact, target: nat, key: Value, x: int)
    requires c.Valid() && b < |c.Fn().blocks|
    ensures PushTo(Pushes(c, b, fact), target, key) <==> HearsOf(c, b, fact, target, key)
    ensures PushOf(Pushes(c, b, fact), target, key, x) <==> Hears(c, b, fact, target, key, x)
  {
    var fn := c.Fn();
    var returnable := c.returnable[End(fn, b)];
    var checked := Checked(fn, b, returnable);
    CheckedMeans(fn, b, returnable, key);
    if checked.Some? {
      var tested := checked.value;
      match Last(fn, b)
      case CondBr(condition, onTrue, onFalse) =>
        assert onTrue in Successors(fn, b) && onFalse in Successors(fn, b);
        var icmp := Definition(fn, condition).value;
        var test := AbstractICmp(icmp.predicate_, icmp.x, icmp.y);
        NarrowedMeans(c, fact, onTrue, tested, test.onTrue, target, key, x);
        NarrowedMeans(c, fact, onFalse, tested, test.onFalse, target, key, x);
        PushConcat(Narrowed(c, fact, onTrue, tested, test.onTrue), Narrowed(c, fact, onFalse, tested, test.onFalse),
                   target, key, x);
      case Switch(_, cases, default_) =>
        assert default_ in Successors(fn, b) && CaseTargets(cases) <= Successors(fn, b);
        CasePushesMean(c, fact, tested, cases, target, key, x);
        DefaultPushMeans(c, fact, default_, tested, target, key, x);
        PushConcat(CasePushes(c, fact, tested, cases), DefaultPush(c, fact, default_, tested), target, key, x);
        if k :| 0 <= k < |cases| && IsCaseOf(cases[k], target, x) {
          assert cases[k] in cases && target in CaseTargets(cases);
        }
    }
  }

  // ----- One visit of an instruction -----

  lemma ApplyPushMeans(facts: Facts, p: Push, target: nat, key: Value, x: int)
    requires Point(p.target, 0) in facts && Point(target, 0) in facts
    ensures var now, then_ := facts[Point(target, 0)], ApplyPush(facts, p)[Point(target, 0)];
            && (key in then_ <==> key in now || (p.target == target && p.key == key))
            && (key in then_ ==>
                  (In(x, then_[key]) <==> (key in now && In(x, now[key])) ||
                                          (p.target == target && p.key == key && In(x, p.sign))))
  {
    var now := facts[Point(target, 0)];
    if p.target == target && p.key == key && key in now {
      InByAtoms(x, now[key]);
      InByAtoms(x, p.sign);
      InByAtoms(x, Lub(now[key], p.sign));
    }
  }

  lemma {:induction false} ApplyPushesMean(facts: Facts, pushes: seq<Push>, target: nat, key: Value, x: int)
    requires Point(target, 0) in facts && forall p :: p in pushes ==> Point(p.target, 0) in facts
    ensures var now, then_ := facts[Point(target, 0)], ApplyPushes(facts, pushes)[Point(target, 0)];
            && (key in then_ <==> key in now || PushTo(pushes, target, key))
            && (key in then_ ==>
                  (In(x, then_[key]) <==> (key in now && In(x, now[key])) || PushOf(pushes, target, key, x)))
    decreases |pushes|
  {
    if pushes != [] {
      var first, rest := pushes[0], pushes[1..];
      assert first in pushes;
      ApplyPushMeans(facts, first, target, key, x);
      ApplyPushesMean(ApplyPush(facts, first), rest, target, key, x);
      assert pushes == [first] + rest;
      PushConcat([first], rest, target, key, x);
      assert first in [first];
    }
  }

  lemma {:induction false} PushesReachEntriesOnly(facts: Facts, pushes: seq<Push>, p: Point)
    requires p in facts && p.index > 0
    ensures ApplyPushes(facts, pushes)[p] == facts[p]
    decreases |pushes|
  {
    if pushes != [] {
      PushesReachEntriesOnly(ApplyPush(facts, pushes[0]), pushes[1..], p);
    }
  }

  /** The entry of a key at the start of a block, after instruction `i` of block `b` was
      visited: what it was before, and what the block has heard. */
  ghost predicate EntryMeans(c: Context, before: Facts, b: nat, i: nat, after: Facts, target: nat, key: Value)
    requires Shape(c, before) && Shape(c, after) && IsInstruction(c.Fn(), b, i) && target < |c.Fn().blocks|
  {
    assert IsPoint(c.Fn(), Point(b, i)) && IsPoint(c.Fn(), Point(target, 0)) && WellFormedBlock(c.Fn(), b);
    var fact, now, then_ := before[Point(b, i)], before[Point(target, 0)], after[Point(target, 0)];
    var isLast := i == LastIndex(c.Fn(), b);
    && (key in then_ <==> key in now || (isLast && HearsOf(c, b, fact, target, key)))
    && (key in then_ ==> forall x ::
          In(x, then_[key]) <==> (key in now && In(x, now[key])) || (isLast && Hears(c, b, fact, target, key, x)))
  }

  /** The output fact of instruction `i` of block `b`, after that was visited. */
  ghost predicate OutputMeans(c: Context, ranges: Ranges, before: Facts, b: nat, i: nat, after: Facts, key: Value)
    requires Shape(c, before) && Shape(c, after) && IsInstruction(c.Fn(), b, i)
  {
    assert IsPoint(c.Fn(), Point(b, i)) && IsPoint(c.Fn(), Point(b, i + 1));
    var fact, out := before[Point(b, i)], after[Point(b, i + 1)];
    && (key in out <==> HasEntryAfter(c, b, i, fact, key))
    && (key in out ==> forall x :: In(x, out[key]) <==> MayBeAfter(c, ranges, b, i, fact, key, x))
  }

  /** Everything one visit of an instruction does to the facts of its function. */
  ghost predicate Visits(c: Context, ranges: Ranges, before: Facts, b: nat, i: nat, after: Facts)
    requires Shape(c, before) && Shape(c, after) && IsInstruction(c.Fn(), b, i)
  {
    && (forall p | p in before && p.index > 0 && p != Point(b, i + 1) :: after[p] == before[p])
    && (forall key :: OutputMeans(c, ranges, before, b, i, after, key))
    && (forall target: nat, key | target < |c.Fn().blocks| :: EntryMeans(c, before, b, i, after, target, key))
  }

  lemma EntryIsAsHeard(c: Context, ranges: Ranges, facts: Facts, b: nat, i: nat, target: nat, key: Value)
    requires Shape(c, facts) && IsInstruction(c.Fn(), b, i) && target < |c.Fn().blocks|
    ensures EntryMeans(c, facts, b, i, AfterInstruction(c, ranges, facts, b, i), target, key)
  {
    var fn := c.Fn();
    assert WellFormedBlock(fn, b) && IsPoint(fn, Point(b, i)) && IsPoint(fn, Point(b, i + 1)) && IsPoint(fn, Point(target, 0));
    if i == LastIndex(fn, b) {
      var fact := facts[Point(b, i)];
      var pushes := Pushes(c, b, fact);
      var stepped := Stepped(c, ranges, facts, b, i);
      PushesAllowed(c, b, fact);
      forall p | p in pushes
        ensures Point(p.target, 0) in stepped
      {
        PushAllowedIsPoint(c, facts, p);
      }
      forall x
        ensures PushTo(pushes, target, key) <==> HearsOf(c, b, fact, target, key)
        ensures PushOf(pushes, target, key, x) <==> Hears(c, b, fact, target, key, x)
        ensures var now, then_ := stepped[Point(target, 0)], ApplyPushes(stepped, pushes)[Point(target, 0)];
                && (key in then_ <==> key in now || PushTo(pushes, target, key))
                && (key in then_ ==>
                      (In(x, then_[key]) <==> (key in now && In(x, now[key])) || PushOf(pushes, target, key, x)))
      {
        PushesMean(c, b, fact, target, key, x);
        ApplyPushesMean(stepped, pushes, target, key, x);
      }
      PushesMean(c, b, fact, target, key, 0);
      ApplyPushesMean(stepped, pushes, target, key, 0);
    }
  }

  lemma AfterInstructionMeans(c: Context, ranges: Ranges, facts: Facts, b: nat, i: nat)
    requires Shape(c, facts) && IsInstruction(c.Fn(), b, i)
    ensures Visits(c, ranges, facts, b, i, AfterInstruction(c, ranges, facts, b, i))
  {
    var fn := c.Fn();
    var after := AfterInstruction(c, ranges, facts, b, i);
    assert WellFormedBlock(fn, b) && IsPoint(fn, Point(b, i)) && IsPoint(fn, Point(b, i + 1));
    var stepped := Stepped(c, ranges, facts, b, i);
    forall p | p in facts && p.index > 0
      ensures after[p] == stepped[p]
    {
      if i == LastIndex(fn, b) {
        PushesReachEntriesOnly(stepped, Pushes(c, b, facts[Point(b, i)]), p);
      }
    }
    forall key
      ensures OutputMeans(c, ranges, facts, b, i, after, key)
    {
      OutMeans(c, ranges, b, i, facts[Point(b, i)], key);
    }
    forall target: nat, key | target < |fn.blocks|
      ensures EntryMeans(c, facts, b, i, after, target, key)
    {
      EntryIsAsHeard(c, ranges, facts, b, i, target, key);
    }
  }

  /** What one visit of an instruction does to the ranges: a return adds what it may
      return to the range of its function. */
  ghost predicate Widens(c: Context, ranges: Ranges, fact: Fact, inst: Instr, after: Ranges)
    requires c.Valid()
  {
    forall g: nat ::
      && (g in after <==> g in ranges || (g == c.id && inst.Ret?))
      && (g in after ==> forall x ::
            In(x, after[g]) <==> (g in ranges && In(x, ranges[g])) ||
                                 (g == c.id && inst.Ret? && MayReturn(c, ranges, fact, inst.result, x)))
  }

  lemma RangesAfterMeans(c: Context, ranges: Ranges, b: nat, fact: Fact)
    requires c.Valid() && b < |c.Fn().blocks|
    ensures Widens(c, ranges, fact, Last(c.Fn(), b), RangesAfter(c, ranges, b, fact))
  {
    var last := Last(c.Fn(), b);
    if last.Ret? {
      var s := Contribution(c, ranges, fact, last.result);
      forall x
        ensures In(x, s) <==> MayReturn(c, ranges, fact, last.result, x)
        ensures c.id in ranges ==> (In(x, Lub(ranges[c.id], s)) <==> In(x, ranges[c.id]) || In(x, s))
      {
        ContributionMeans(c, ranges, fact, last.result, x);
        InByAtoms(x, s);
        if c.id in ranges {
          InByAtoms(x, ranges[c.id]);
          InByAtoms(x, Lub(ranges[c.id], s));
        }
      }
    }
  }
}
