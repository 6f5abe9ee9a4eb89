/** Soundness of the return ranges: whatever a terminating run of a function returns
    lies in the range the analysis ends with, through calls, loops and mutual
    recursion. */
module RangeSoundness {
  import opened SignLattice
  import opened SignFacts
  import opened IR
  import opened ICmpAbstraction
  import opened Semantics
  import opened RangeTransfer
  import opened RangeInvariant
  import opened RangeFixpoint
  import RV = ReturnedValues

  // ----- The programs the claim is about -----

  /** Operands an instruction uses as data, rather than as an address to access. */
  function DataOperands(inst: Instr): seq<Value> {
    match inst
    case Load(_) => []
    case Store(sender, _) => [sender]
    case _ => Operands(inst)
  }

  /** Slot addresses are not data, and string literals have an address. */
  predicate PlainOperands(inst: Instr) {
    forall v :: v in DataOperands(inst) ==> !v.Slot? && (v.StringLiteral? ==> v.address != 0)
  }

  ghost predicate NeverReturnable(c: Context, v: Value) {
    forall p | p in c.returnable :: v !in c.returnable[p]
  }

  /** A memory access that can matter to the result goes to a slot, and a truncation does
      not matter to it. */
  ghost predicate PlainInstruction(c: Context, b: nat, i: nat)
    requires c.Valid() && IsInstruction(c.Fn(), b, i)
  {
    var inst := c.Fn().blocks[b][i];
    && PlainOperands(inst)
    && (AddressOf(inst).Some? ==> AddressOf(inst).value.Slot? || NeverReturnable(c, AddressOf(inst).value))
    && (inst.Cast? && inst.kind.Trunc? ==> Reg(b, i) !in c.returnable[Point(b, i + 1)])
  }

  /** No store to the address at instructions `from` up to `to` of the block. */
  predicate NoStore(fn: Function, b: nat, from: int, to: int, address: Value)
    requires b < |fn.blocks|
  {
    forall k: nat | from <= k < to && k < |fn.blocks[b]| ::
      !(fn.blocks[b][k].Store? && fn.blocks[b][k].receiver == address)
  }

  /** A tested operand still has the content of its slot when the block ends: it was
      loaded, or stored just before the test, and not overwritten since. An operand
      that was just stored must not be a constant. */
  predicate FreshOperand(fn: Function, b: nat, i: nat, v: Value)
    requires WellFormed(fn) && IsInstruction(fn, b, i) && WellFormedBlock(fn, b)
  {
    match Definition(fn, v)
    case Some(Load(address)) => NoStore(fn, b, v.index + 1, LastIndex(fn, b), address)
    case _ =>
      i > 0 && fn.blocks[b][i - 1].Store? && fn.blocks[b][i - 1].sender == v ==>
        !IsTestConstant(v) && NoStore(fn, b, i, LastIndex(fn, b), fn.blocks[b][i - 1].receiver)
  }

  /** Comparisons that narrow a range are signed or for equality, do not order against
      null, and look at a fresh operand. */
  predicate FaithfulTest(fn: Function, b: nat, after: RV.Fact)
    requires WellFormed(fn) && b < |fn.blocks| && WellFormedBlock(fn, b)
  {
    match Last(fn, b)
    case CondBr(condition, _, _) =>
      (match Definition(fn, condition)
       case Some(ICmp(p, x, y)) =>
         && !IsUnsigned(p) && !IsOrderedNullTest(p, x, y)
         && condition.block == b
         && FreshOperand(fn, b, condition.index,
                         if CheckedReturnValue(fn, b, condition.index, x, after).Some? then x else y)
       case _ => true)
    case Switch(condition, _, _) => FreshOperand(fn, b, LastIndex(fn, b), condition)
    case _ => true
  }

  ghost predicate InFragment(c: Context) {
    && c.Valid()
    && (forall b: nat, i: nat | IsInstruction(c.Fn(), b, i) :: PlainInstruction(c, b, i))
    && forall b: nat | b < |c.Fn().blocks| && Checked(c.Fn(), b, c.returnable[End(c.Fn(), b)]).Some? ::
         FaithfulTest(c.Fn(), b, c.returnable[End(c.Fn(), b)])
  }

  /** Functions that call no analysed function but each other. */
  ghost predicate IsClosed(functions: seq<Function>, scope: set<nat>) {
    forall f | f in scope && f < |functions| && !ShouldIgnore(functions[f]) ::
      CallsWithin(functions, scope, functions[f])
  }

  ghost predicate CallsWithin(functions: seq<Function>, scope: set<nat>, fn: Function) {
    forall g | g in Callees(fn) && g < |functions| :: g in scope
  }

  // ----- The results of the analysis -----

  datatype Analysis = Analysis(
    functions: seq<Function>, returnable: seq<RV.Facts>, facts: seq<Facts>, seen: seq<Seen>, ranges: Ranges,
    scope: set<nat>)
  {
    ghost predicate Shaped() {
      |returnable| == |functions| == |facts| == |seen| && AllWellFormed(functions)
    }

    function Ctx(f: nat): Context
      requires f < |functions| == |returnable|
    {
      Context(functions, f, returnable[f])
    }

    /** One analysed function: in the fragment, with solved equations in both passes. */
    ghost predicate Solved(f: nat)
      requires Shaped() && f < |functions|
    {
      && InFragment(Ctx(f))
      && RV.IsFixpoint(functions[f], returnable[f])
      && PostFixpoint(Ctx(f), facts[f], seen[f], ranges)
    }

    /** The functions in the scope, among which all calls stay, are analysed and solved. */
    ghost predicate Valid() {
      && Shaped() && IsClosed(functions, scope)
      && forall f: nat | f in scope && f < |functions| && !ShouldIgnore(functions[f]) :: Solved(f)
    }

    predicate Covers(f: nat) {
      f in scope && f < |functions| && !ShouldIgnore(functions[f])
    }

    /** The fact in force before instruction `i` of block `b`. */
    function FactAt(f: nat, b: nat, i: nat): Fact
      requires f < |facts| == |seen| && b in seen[f] && (i > 0 ==> Point(b, i) in facts[f])
    {
      InAt(facts[f], seen[f][b].entry, b, i)
    }
  }

  // ----- A state agrees with the facts -----

  /** Every returnable slot that has been stored to is tracked, soundly. */
  ghost predicate SlotsOk(c: Context, fact: Fact, p: Point, st: State)
    requires c.Valid() && p in c.returnable
  {
    forall n | n in st.slots && Slot(n) in c.returnable[p] ::
      Slot(n) in fact && In(st.slots[n], fact[Slot(n)])
  }

  ghost predicate RegisterOk(c: Context, ranges: Ranges, fact: Fact, b: nat, j: nat, v: int)
    requires c.Valid()
  {
    && In(v, AbstractValue(c.functions, c.Fn(), ranges, Reg(b, j)))
    && (Reg(b, j) in fact ==> In(v, fact[Reg(b, j)]))
  }

  ghost predicate RegistersOk(c: Context, ranges: Ranges, fact: Fact, b: nat, i: nat, st: State)
    requires c.Valid()
  {
    forall j | j in st.registers :: j < i && RegisterOk(c, ranges, fact, b, j, st.registers[j])
  }

  /** What instruction `k` left behind still holds at instruction `i`. */
  ghost predicate Remembers(fn: Function, b: nat, k: nat, i: nat, st: State)
    requires IsInstruction(fn, b, k)
  {
    match fn.blocks[b][k]
    case Load(Slot(n)) =>
      k in st.registers && NoStore(fn, b, k + 1, i, Slot(n)) ==>
        n in st.slots && st.slots[n] == st.registers[k]
    case Store(v, Slot(n)) =>
      NoStore(fn, b, k + 1, i, Slot(n)) ==> n in st.slots && Eval(b, st, v) == Some(st.slots[n])
    case ICmp(p, x, y) =>
      k in st.registers ==>
        && Eval(b, st, x).Some? && Eval(b, st, y).Some?
        && st.registers[k] == if Holds(p, Eval(b, st, x).value, Eval(b, st, y).value) then -1 else 0
    case _ => true
  }

  ghost predicate RemembersAll(fn: Function, b: nat, i: nat, st: State)
    requires b < |fn.blocks|
  {
    forall k: nat | k < i && IsInstruction(fn, b, k) :: Remembers(fn, b, k, i, st)
  }

  ghost predicate StateOk(c: Context, ranges: Ranges, fact: Fact, b: nat, i: nat, st: State)
    requires c.Valid() && Point(b, i) in c.returnable && b < |c.Fn().blocks|
  {
    && SlotsOk(c, fact, Point(b, i), st)
    && RegistersOk(c, ranges, fact, b, i, st)
    && RemembersAll(c.Fn(), b, i, st)
  }

  // ----- Operands -----

  lemma AddressIsSlot(c: Context, v: Value, p: Point)
    requires InFragment(c) && IsAddress(c.Fn(), v) && p in c.returnable && v in c.returnable[p]
    ensures v.Slot?
  {
    var d: nat, i: nat :| d < |c.Fn().blocks| && i < |c.Fn().blocks[d]| && AddressOf(c.Fn().blocks[d][i]) == Some(v);
    assert PlainInstruction(c, d, i);
  }

  lemma TrackedOperandIsRegister(c: Context, b: nat, st: State, v: Value, p: Point)
    requires InFragment(c) && IsTracked(c.Fn(), v) && p in c.returnable && v in c.returnable[p]
    requires Eval(b, st, v).Some?
    ensures v.Reg? && Definition(c.Fn(), v).Some?
    ensures Definition(c.Fn(), v).value.Load? || Definition(c.Fn(), v).value.Cast?
  {
    if IsAddress(c.Fn(), v) {
      AddressIsSlot(c, v, p);
    }
  }

  /** An operand's value lies in its tracked sign, or in its abstraction. */
  lemma OperandOk(c: Context, ranges: Ranges, fact: Fact, b: nat, i: nat, st: State, v: Value)
    requires InFragment(c) && IsInstruction(c.Fn(), b, i)
    requires TracksOnly(c.Fn(), c.returnable[Point(b, i)], fact)
    requires RegistersOk(c, ranges, fact, b, i, st)
    requires Eval(b, st, v).Some? && (v.StringLiteral? ==> v.address != 0)
    ensures In(Eval(b, st, v).value, OperandSign(c, ranges, fact, v))
  {
    if v in fact {
      TrackedOperandIsRegister(c, b, st, v, Point(b, i));
      assert RegisterOk(c, ranges, fact, b, v.index, st.registers[v.index]);
    } else if v.Reg? {
      assert RegisterOk(c, ranges, fact, b, v.index, st.registers[v.index]);
    }
  }

  // ----- One instruction -----

  /** A slot that is returnable after an instruction that does not store to it was
      returnable before. */
  lemma SlotStaysReturnable(c: Context, b: nat, i: nat, n: nat)
    requires InFragment(c) && RV.IsFixpoint(c.Fn(), c.returnable) && IsInstruction(c.Fn(), b, i)
    requires var inst := c.Fn().blocks[b][i]; !IsTerminator(inst) && !(inst.Store? && inst.receiver == Slot(n))
    requires Slot(n) in c.returnable[Point(b, i + 1)]
    ensures Slot(n) in c.returnable[Point(b, i)]
  {
    assert RV.InstructionsAgree(c.Fn(), c.returnable, b, 0);
    assert RV.AgreesAt(c.Fn(), c.returnable, b, i);
  }

  lemma LoadMakesReturnable(c: Context, b: nat, i: nat)
    requires InFragment(c) && RV.IsFixpoint(c.Fn(), c.returnable) && IsInstruction(c.Fn(), b, i)
    requires c.Fn().blocks[b][i].Load? && Reg(b, i) in c.returnable[Point(b, i + 1)]
    ensures c.Fn().blocks[b][i].address in c.returnable[Point(b, i)]
  {
    assert RV.InstructionsAgree(c.Fn(), c.returnable, b, 0);
    assert RV.AgreesAt(c.Fn(), c.returnable, b, i);
  }

  lemma StoreKeepsSlots(c: Context, ranges: Ranges, fact: Fact, b: nat, i: nat, st: State, x: int)
    requires InFragment(c) && RV.IsFixpoint(c.Fn(), c.returnable) && IsInstruction(c.Fn(), b, i)
    requires TracksOnly(c.Fn(), c.returnable[Point(b, i)], fact)
    requires StateOk(c, ranges, fact, b, i, st)
    requires c.Fn().blocks[b][i].Store? && Eval(b, st, c.Fn().blocks[b][i].sender) == Some(x)
    requires c.Fn().blocks[b][i].receiver.Slot?
    ensures var n := c.Fn().blocks[b][i].receiver;
            SlotsOk(c, Out(c, ranges, b, i, fact), Point(b, i + 1), st.(slots := st.slots[n.number := x]))
  {
    var inst := c.Fn().blocks[b][i];
    assert PlainInstruction(c, b, i) && inst.sender in DataOperands(inst);
    OperandOk(c, ranges, fact, b, i, st, inst.sender);
    forall n | n in st.slots && Slot(n) in c.returnable[Point(b, i + 1)] && Slot(n) != inst.receiver
      ensures Slot(n) in c.returnable[Point(b, i)]
    {
      SlotStaysReturnable(c, b, i, n);
    }
  }

  lemma DefineKeepsSlots(c: Context, ranges: Ranges, fact: Fact, b: nat, i: nat, st: State)
    requires InFragment(c) && RV.IsFixpoint(c.Fn(), c.returnable) && IsInstruction(c.Fn(), b, i)
    requires SlotsOk(c, fact, Point(b, i), st)
    requires var inst := c.Fn().blocks[b][i]; !IsTerminator(inst) && (inst.Store? ==> !inst.receiver.Slot?)
    ensures SlotsOk(c, Out(c, ranges, b, i, fact), Point(b, i + 1), st)
  {
    forall n | n in st.slots && Slot(n) in c.returnable[Point(b, i + 1)]
      ensures Slot(n) in c.returnable[Point(b, i)]
    {
      SlotStaysReturnable(c, b, i, n);
    }
  }

  lemma OldRegistersKept(c: Context, ranges: Ranges, fact: Fact, b: nat, i: nat, st: State)
    requires InFragment(c) && IsInstruction(c.Fn(), b, i)
    requires RegistersOk(c, ranges, fact, b, i, st)
    requires !IsTerminator(c.Fn().blocks[b][i])
    ensures RegistersOk(c, ranges, Out(c, ranges, b, i, fact), b, i + 1, st)
  {
    var out := Out(c, ranges, b, i, fact);
    assert PlainInstruction(c, b, i) && IsPoint(c.Fn(), Point(b, i + 1));
    forall j | j in st.registers
      ensures j < i + 1 && RegisterOk(c, ranges, out, b, j, st.registers[j])
    {
      assert RegisterOk(c, ranges, fact, b, j, st.registers[j]);
      assert Reg(b, j) in out ==> Reg(b, j) in fact && out[Reg(b, j)] == fact[Reg(b, j)];
    }
  }

  lemma DefineKeepsRegisters(c: Context, ranges: Ranges, fact: Fact, b: nat, i: nat, st: State, x: int)
    requires InFragment(c) && IsInstruction(c.Fn(), b, i)
    requires RegistersOk(c, ranges, fact, b, i, st)
    requires !IsTerminator(c.Fn().blocks[b][i]) && !c.Fn().blocks[b][i].Store?
    requires RegisterOk(c, ranges, Out(c, ranges, b, i, fact), b, i, x)
    ensures RegistersOk(c, ranges, Out(c, ranges, b, i, fact), b, i + 1, Define(st, i, x))
  {
    OldRegistersKept(c, ranges, fact, b, i, st);
  }

  /** A register that is not the result of a load or a cast is not tracked. */
  lemma UntrackedRegister(c: Context, ranges: Ranges, fact: Fact, b: nat, i: nat)
    requires InFragment(c) && IsInstruction(c.Fn(), b, i)
    requires TracksOnly(c.Fn(), c.returnable[Point(b, i)], fact)
    requires !c.Fn().blocks[b][i].Load? && !c.Fn().blocks[b][i].Cast?
    ensures Reg(b, i) !in Out(c, ranges, b, i, fact)
  {
    OutTracksOnly(c, ranges, b, i, fact);
    if Reg(b, i) in c.returnable[Point(b, i + 1)] && IsAddress(c.Fn(), Reg(b, i)) {
      AddressIsSlot(c, Reg(b, i), Point(b, i + 1));
    }
  }

  /** What an uninterpreted instruction, a load, a cast, a comparison or a zero
      extension defines is covered by the output fact. */
  lemma DefinedIsOk(c: Context, ranges: Ranges, fact: Fact, b: nat, i: nat, st: State, choice: int)
    requires InFragment(c) && RV.IsFixpoint(c.Fn(), c.returnable) && IsInstruction(c.Fn(), b, i)
    requires TracksOnly(c.Fn(), c.returnable[Point(b, i)], fact)
    requires StateOk(c, ranges, fact, b, i, st)
    requires var inst := c.Fn().blocks[b][i]; !IsTerminator(inst) && !inst.Store? && !inst.Call?
    requires Defined(b, c.Fn().blocks[b][i], st, choice).Some?
    ensures RegisterOk(c, ranges, Out(c, ranges, b, i, fact), b, i, Defined(b, c.Fn().blocks[b][i], st, choice).value)
  {
    var inst := c.Fn().blocks[b][i];
    assert Definition(c.Fn(), Reg(b, i)) == Some(inst);
    assert PlainInstruction(c, b, i) && IsPoint(c.Fn(), Point(b, i)) && IsPoint(c.Fn(), Point(b, i + 1));
    OutTracksOnly(c, ranges, b, i, fact);
    match inst
    case Load(address) =>
      if Reg(b, i) in c.returnable[Point(b, i + 1)] {
        LoadMakesReturnable(c, b, i);
        assert address in c.returnable[Point(b, i)];
      }
    case Cast(kind, source) =>
      if !kind.Trunc? {
        assert source in DataOperands(inst);
        OperandOk(c, ranges, fact, b, i, st, source);
      }
    case _ =>
      UntrackedRegister(c, ranges, fact, b, i);
  }

  // ----- Coherence within a block -----

  lemma NoStoreShrinks(fn: Function, b: nat, from: int, to: int, address: Value)
    requires b < |fn.blocks|
    ensures NoStore(fn, b, from, to + 1, address) ==> NoStore(fn, b, from, to, address)
  {
  }

  lemma DefineRemembers(fn: Function, b: nat, i: nat, st: State, x: int)
    requires IsInstruction(fn, b, i) && RemembersAll(fn, b, i, st)
    requires forall j | j in st.registers :: j < i
    requires !fn.blocks[b][i].Store?
    requires Remembers(fn, b, i, i + 1, Define(st, i, x))
    ensures RemembersAll(fn, b, i + 1, Define(st, i, x))
  {
    forall k: nat | k < i + 1 && IsInstruction(fn, b, k)
      ensures Remembers(fn, b, k, i + 1, Define(st, i, x))
    {
      if k < i {
        assert Remembers(fn, b, k, i, st);
        match fn.blocks[b][k]
        case Load(address) => NoStoreShrinks(fn, b, k + 1, i, address);
        case Store(_, receiver) => NoStoreShrinks(fn, b, k + 1, i, receiver);
        case _ =>
      }
    }
  }

  lemma SkipRemembers(fn: Function, b: nat, i: nat, st: State)
    requires IsInstruction(fn, b, i) && RemembersAll(fn, b, i, st)
    requires forall j | j in st.registers :: j < i
    requires fn.blocks[b][i].Call? || (fn.blocks[b][i].Store? && !fn.blocks[b][i].receiver.Slot?)
    ensures RemembersAll(fn, b, i + 1, st)
  {
    forall k: nat | k < i + 1 && IsInstruction(fn, b, k)
      ensures Remembers(fn, b, k, i + 1, st)
    {
      if k < i {
        assert Remembers(fn, b, k, i, st);
        match fn.blocks[b][k]
        case Load(address) => NoStoreShrinks(fn, b, k + 1, i, address);
        case Store(_, receiver) => NoStoreShrinks(fn, b, k + 1, i, receiver);
        case _ =>
      }
    }
  }

  lemma StoreRemembers(fn: Function, b: nat, i: nat, st: State, n: nat, x: int)
    requires IsInstruction(fn, b, i) && RemembersAll(fn, b, i, st)
    requires fn.blocks[b][i].Store? && fn.blocks[b][i].receiver == Slot(n)
    requires Eval(b, st, fn.blocks[b][i].sender) == Some(x)
    ensures RemembersAll(fn, b, i + 1, st.(slots := st.slots[n := x]))
  {
    var after := st.(slots := st.slots[n := x]);
    forall v
      ensures Eval(b, after, v) == Eval(b, st, v)
    {
    }
    forall k: nat | k < i + 1 && IsInstruction(fn, b, k)
      ensures Remembers(fn, b, k, i + 1, after)
    {
      if k < i {
        assert Remembers(fn, b, k, i, st);
        match fn.blocks[b][k]
        case Load(address) => NoStoreShrinks(fn, b, k + 1, i, address);
        case Store(_, receiver) => NoStoreShrinks(fn, b, k + 1, i, receiver);
        case _ =>
      }
    }
  }

  // ----- Leaving a block -----

  /** The operand a test looks at has the value its slot still has. */
  lemma CheckedOperandIsFresh(c: Context, b: nat, i: nat, v: Value, st: State, n: nat, after: RV.Fact)
    requires InFragment(c) && IsInstruction(c.Fn(), b, i) && WellFormedBlock(c.Fn(), b)
    requires v in Operands(c.Fn().blocks[b][i])
    requires FreshOperand(c.Fn(), b, i, v)
    requires CheckedReturnValue(c.Fn(), b, i, v, after) == Some(Slot(n))
    requires RemembersAll(c.Fn(), b, LastIndex(c.Fn(), b), st)
    requires Eval(b, st, v).Some?
    ensures n in st.slots && Eval(b, st, v) == Some(st.slots[n])
    ensures !IsTestConstant(v)
  {
    var fn := c.Fn();
    var last := LastIndex(fn, b);
    if Definition(fn, v).Some? && Definition(fn, v).value.Load? {
      assert Remembers(fn, b, v.index, last, st);
    } else {
      assert Remembers(fn, b, i - 1, last, st);
    }
  }

  /** Where the branch goes, the tested slot lies in the element for that outcome. */
  lemma BranchNarrows(c: Context, b: nat, st: State, n: nat)
    requires InFragment(c) && b < |c.Fn().blocks| && WellFormedBlock(c.Fn(), b)
    requires Last(c.Fn(), b).CondBr?
    requires Checked(c.Fn(), b, c.returnable[End(c.Fn(), b)]) == Some(Slot(n))
    requires RemembersAll(c.Fn(), b, LastIndex(c.Fn(), b), st)
    requires Eval(b, st, Last(c.Fn(), b).condition).Some?
    ensures var condition := Last(c.Fn(), b).condition;
            var icmp := Definition(c.Fn(), condition);
            && icmp.Some? && icmp.value.ICmp? && n in st.slots
            && var taken := Eval(b, st, condition).value != 0;
               In(st.slots[n], Outcome(AbstractICmp(icmp.value.predicate_, icmp.value.x, icmp.value.y), taken))
  {
    var fn := c.Fn();
    var after := c.returnable[End(fn, b)];
    var last := LastIndex(fn, b);
    var condition := Last(fn, b).condition;
    assert FaithfulTest(fn, b, after);
    assert condition in Operands(fn.blocks[b][last]);
    var ICmp(p, x, y) := Definition(fn, condition).value;
    var j := condition.index;
    assert fn.blocks[b][j] == ICmp(p, x, y);
    assert Remembers(fn, b, j, last, st);
    var xv, yv := Eval(b, st, x).value, Eval(b, st, y).value;
    AbstractICmpIsSound(p, x, y, xv, yv);
    if CheckedReturnValue(fn, b, j, x, after).Some? {
      CheckedOperandIsFresh(c, b, j, x, st, n, after);
    } else {
      CheckedOperandIsFresh(c, b, j, y, st, n, after);
    }
  }

  lemma CasePushesContain(c: Context, fact: Fact, key: Value, cases: seq<Case>, default_: nat, v: int)
    requires c.Valid() && forall t :: t in CaseTargets(cases) ==> t < |c.Fn().blocks|
    requires default_ < |c.Fn().blocks|
    requires key in fact && In(v, fact[key])
    requires var t := CaseTarget(cases, default_, v); t < |c.Fn().blocks| && key in c.returnable[Point(t, 0)]
    ensures exists p :: p in CasePushes(c, fact, key, cases) + DefaultPush(c, fact, default_, key) &&
                        p.target == CaseTarget(cases, default_, v) && p.key == key && In(v, p.sign)
    decreases |cases|
  {
    if cases == [] {
      assert Push(default_, key, fact[key]) in DefaultPush(c, fact, default_, key);
    } else {
      assert cases[0].target in CaseTargets(cases);
      assert CaseTargets(cases[1..]) <= CaseTargets(cases);
      if cases[0].value == v {
        var s := Glb(fact[key], AbstractInteger(v));
        InGlb(v, fact[key], AbstractInteger(v));
        assert Push(cases[0].target, key, s) in Narrowed(c, fact, cases[0].target, key, AbstractInteger(v));
      } else {
        CasePushesContain(c, fact, key, cases[1..], default_, v);
      }
    }
  }

  /** A tested slot that is returnable in the chosen successor is pushed there with a
      sign that contains its value. */
  lemma TestedSlotIsPushed(c: Context, fact: Fact, b: nat, st: State, n: nat, t: nat)
    requires InFragment(c) && b < |c.Fn().blocks| && WellFormedBlock(c.Fn(), b)
    requires Checked(c.Fn(), b, c.returnable[End(c.Fn(), b)]) == Some(Slot(n))
    requires RemembersAll(c.Fn(), b, LastIndex(c.Fn(), b), st)
    requires Target(b, Last(c.Fn(), b), st) == Some(t) && t < |c.Fn().blocks|
    requires Slot(n) in c.returnable[Point(t, 0)]
    requires n in st.slots && Slot(n) in fact && In(st.slots[n], fact[Slot(n)])
    ensures exists p :: p in Pushes(c, b, fact) && p.target == t && p.key == Slot(n) && In(st.slots[n], p.sign)
  {
    var fn := c.Fn();
    var v := st.slots[n];
    var key := Slot(n);
    match Last(fn, b)
    case CondBr(condition, onTrue, onFalse) =>
      BranchNarrows(c, b, st, n);
      var icmp := Definition(fn, condition).value;
      var test := AbstractICmp(icmp.predicate_, icmp.x, icmp.y);
      assert onTrue in Successors(fn, b) && onFalse in Successors(fn, b);
      if Eval(b, st, condition).value != 0 {
        InGlb(v, fact[key], test.onTrue);
        assert Push(onTrue, key, Glb(fact[key], test.onTrue)) in Narrowed(c, fact, onTrue, key, test.onTrue);
      } else {
        InGlb(v, fact[key], test.onFalse);
        assert Push(onFalse, key, Glb(fact[key], test.onFalse)) in Narrowed(c, fact, onFalse, key, test.onFalse);
      }
    case Switch(condition, cases, default_) =>
      var last := LastIndex(fn, b);
      assert FaithfulTest(fn, b, c.returnable[End(fn, b)]) && condition in Operands(fn.blocks[b][last]);
      CheckedOperandIsFresh(c, b, last, condition, st, n, c.returnable[End(fn, b)]);
      assert CaseTargets(cases) <= Successors(fn, b) && default_ in Successors(fn, b);
      CasePushesContain(c, fact, key, cases, default_, v);
  }

  /** The state on entry to the next block agrees with the entry fact it has. */
  lemma EdgeKeepsSlots(a: Analysis, f: nat, b: nat, st: State, t: nat)
    requires a.Valid() && a.Covers(f)
    requires b < |a.functions[f].blocks| && WellFormedBlock(a.functions[f], b)
    requires Target(b, Last(a.functions[f], b), st) == Some(t) && t in Successors(a.functions[f], b)
    requires b in a.seen[f] && t in a.seen[f]
    requires StateOk(a.Ctx(f), a.ranges, a.FactAt(f, b, LastIndex(a.functions[f], b)), b, LastIndex(a.functions[f], b), st)
    ensures SlotsOk(a.Ctx(f), a.seen[f][t].entry, Point(t, 0), st)
  {
    var c := a.Ctx(f);
    var fn := c.Fn();
    var last := LastIndex(fn, b);
    var fact := a.FactAt(f, b, last);
    assert a.Solved(f);
    forall n | n in st.slots && Slot(n) in c.returnable[Point(t, 0)]
      ensures Slot(n) in a.seen[f][t].entry && In(st.slots[n], a.seen[f][t].entry[Slot(n)])
    {
      SlotCrossesEdge(a, f, b, st, t, n);
    }
  }

  lemma ReturnableCrossesEdge(c: Context, b: nat, t: nat, v: Value)
    requires c.Valid() && RV.IsFixpoint(c.Fn(), c.returnable) && b < |c.Fn().blocks| && t in Successors(c.Fn(), b)
    requires v in c.returnable[Point(t, 0)]
    ensures v in c.returnable[End(c.Fn(), b)]
    ensures v in c.returnable[Point(b, LastIndex(c.Fn(), b))]
  {
    var fn := c.Fn();
    assert RV.EdgesCovered(fn, c.returnable, b) && RV.InstructionsAgree(fn, c.returnable, b, 0);
    assert RV.AgreesAt(fn, c.returnable, b, LastIndex(fn, b));
  }

  /** What holds when control passes from block `b` to block `t`. */
  ghost predicate Crosses(a: Analysis, f: nat, b: nat, st: State, t: nat) {
    && a.Shaped() && f < |a.functions| && a.Solved(f)
    && b < |a.functions[f].blocks| && WellFormedBlock(a.functions[f], b)
    && Target(b, Last(a.functions[f], b), st) == Some(t) && t in Successors(a.functions[f], b)
    && b in a.seen[f] && t in a.seen[f]
    && StateOk(a.Ctx(f), a.ranges, a.FactAt(f, b, LastIndex(a.functions[f], b)), b, LastIndex(a.functions[f], b), st)
  }

  /** The tested slot gets to the successor by a push. */
  lemma TestedSlotCrosses(a: Analysis, f: nat, b: nat, st: State, t: nat, n: nat)
    requires Crosses(a, f, b, st, t) && n in st.slots && Slot(n) in a.returnable[f][Point(t, 0)]
    requires var fact := a.FactAt(f, b, LastIndex(a.functions[f], b));
             Slot(n) in fact && In(st.slots[n], fact[Slot(n)])
    requires Checked(a.functions[f], b, a.returnable[f][End(a.functions[f], b)]) == Some(Slot(n))
    ensures Slot(n) in a.seen[f][t].entry && In(st.slots[n], a.seen[f][t].entry[Slot(n)])
  {
    var c := a.Ctx(f);
    var fact := a.FactAt(f, b, LastIndex(c.Fn(), b));
    TestIsNotFirst(c, b);
    TestedSlotIsPushed(c, fact, b, st, n, t);
    var p :| p in Pushes(c, b, fact) && p.target == t && p.key == Slot(n) && In(st.slots[n], p.sign);
    assert PushesReach(c, a.facts[f], a.seen[f], b);
    assert p.key in LastIn(c, a.facts[f], b);
    LeqIsInclusion(p.sign, a.seen[f][t].entry[Slot(n)]);
  }

  lemma UntestedSlotStays(a: Analysis, f: nat, b: nat, st: State, t: nat, n: nat)
    requires Crosses(a, f, b, st, t) && Slot(n) in a.FactAt(f, b, LastIndex(a.functions[f], b))
    requires Slot(n) in a.returnable[f][End(a.functions[f], b)]
    requires Checked(a.functions[f], b, a.returnable[f][End(a.functions[f], b)]) != Some(Slot(n))
    ensures var out := a.facts[f][End(a.functions[f], b)];
            Slot(n) in out && out[Slot(n)] == a.FactAt(f, b, LastIndex(a.functions[f], b))[Slot(n)]
  {
    var c := a.Ctx(f);
    assert BlockFixed(c, a.facts[f], a.seen[f][b].entry, a.ranges, b);
    assert AgreesAt(c, a.facts[f], Visit(a.seen[f][b].entry, a.ranges), b, LastIndex(c.Fn(), b));
  }

  /** Any other slot gets there by the join over the predecessors. */
  lemma UntestedSlotCrosses(a: Analysis, f: nat, b: nat, st: State, t: nat, n: nat)
    requires Crosses(a, f, b, st, t) && n in st.slots && Slot(n) in a.returnable[f][Point(t, 0)]
    requires var fact := a.FactAt(f, b, LastIndex(a.functions[f], b));
             Slot(n) in fact && In(st.slots[n], fact[Slot(n)])
    requires Slot(n) in a.returnable[f][End(a.functions[f], b)]
    requires Checked(a.functions[f], b, a.returnable[f][End(a.functions[f], b)]) != Some(Slot(n))
    ensures Slot(n) in a.seen[f][t].entry && In(st.slots[n], a.seen[f][t].entry[Slot(n)])
  {
    var c := a.Ctx(f);
    var fn := c.Fn();
    UntestedSlotStays(a, f, b, st, t, n);
    var out := a.facts[f][End(fn, b)];
    var entry := a.seen[f][t].entry;
    assert b in Predecessors(fn, t) && EdgesInto(c, a.facts[f], entry, t);
    assert Slot(n) in Filtered(out, c.returnable[Point(t, 0)]);
    LeqIsInclusion(out[Slot(n)], entry[Slot(n)]);
  }

  lemma SlotCrossesEdge(a: Analysis, f: nat, b: nat, st: State, t: nat, n: nat)
    requires Crosses(a, f, b, st, t) && n in st.slots && Slot(n) in a.returnable[f][Point(t, 0)]
    ensures Slot(n) in a.seen[f][t].entry && In(st.slots[n], a.seen[f][t].entry[Slot(n)])
  {
    var c := a.Ctx(f);
    var fact := a.FactAt(f, b, LastIndex(c.Fn(), b));
    ReturnableCrossesEdge(c, b, t, Slot(n));
    assert Slot(n) in fact && In(st.slots[n], fact[Slot(n)]);
    if Checked(c.Fn(), b, c.returnable[End(c.Fn(), b)]) == Some(Slot(n)) {
      TestedSlotCrosses(a, f, b, st, t, n);
    } else {
      UntestedSlotCrosses(a, f, b, st, t, n);
    }
  }

  // ----- Runs -----

  /** Everything a run needs to know at instruction `i` of block `b` of function `f`. */
  ghost predicate Here(a: Analysis, f: nat, b: nat, i: nat, st: State) {
    && a.Valid() && a.Covers(f)
    && IsInstruction(a.functions[f], b, i)
    && b in a.seen[f] && Point(b, i) in a.facts[f] && Point(b, i) in a.returnable[f]
    && a.Solved(f)
    && StateOk(a.Ctx(f), a.ranges, a.FactAt(f, b, i), b, i, st)
  }

  lemma HereFacts(a: Analysis, f: nat, b: nat, i: nat, st: State)
    requires Here(a, f, b, i, st)
    ensures TracksOnly(a.functions[f], a.returnable[f][Point(b, i)], a.FactAt(f, b, i))
    ensures IsPoint(a.functions[f], Point(b, i + 1))
    ensures a.facts[f][Point(b, i + 1)] == Out(a.Ctx(f), a.ranges, b, i, a.FactAt(f, b, i))
  {
    var c := a.Ctx(f);
    assert IsPoint(a.functions[f], Point(b, i + 1));
    assert BlockFixed(c, a.facts[f], a.seen[f][b].entry, a.ranges, b);
    assert AgreesAt(c, a.facts[f], Visit(a.seen[f][b].entry, a.ranges), b, i);
  }

  /** An instruction that defines its register leads to the next point. */
  lemma DefineIsHere(a: Analysis, f: nat, b: nat, i: nat, st: State, x: int)
    requires Here(a, f, b, i, st)
    requires !IsTerminator(a.functions[f].blocks[b][i]) && !a.functions[f].blocks[b][i].Store?
    requires RegisterOk(a.Ctx(f), a.ranges, Out(a.Ctx(f), a.ranges, b, i, a.FactAt(f, b, i)), b, i, x)
    requires Remembers(a.functions[f], b, i, i + 1, Define(st, i, x))
    ensures IsInstruction(a.functions[f], b, i + 1) && Here(a, f, b, i + 1, Define(st, i, x))
  {
    var c := a.Ctx(f);
    HereFacts(a, f, b, i, st);
    assert WellFormedBlock(c.Fn(), b);
    DefineKeepsSlots(c, a.ranges, a.FactAt(f, b, i), b, i, st);
    DefineKeepsRegisters(c, a.ranges, a.FactAt(f, b, i), b, i, st, x);
    DefineRemembers(c.Fn(), b, i, st, x);
  }

  lemma DefinedRegisterIsOk(a: Analysis, f: nat, b: nat, i: nat, st: State, choice: int)
    requires Here(a, f, b, i, st)
    requires var inst := a.functions[f].blocks[b][i];
             && !IsTerminator(inst) && !inst.Store? && !inst.Call?
             && Defined(b, inst, st, choice).Some?
    ensures RegisterOk(a.Ctx(f), a.ranges, Out(a.Ctx(f), a.ranges, b, i, a.FactAt(f, b, i)), b, i,
                       Defined(b, a.functions[f].blocks[b][i], st, choice).value)
  {
    HereFacts(a, f, b, i, st);
    DefinedIsOk(a.Ctx(f), a.ranges, a.FactAt(f, b, i), b, i, st, choice);
  }

  lemma DefinedRemembers(fn: Function, b: nat, i: nat, st: State, choice: int)
    requires IsInstruction(fn, b, i) && RegistersAreBlockLocal(fn)
    requires !fn.blocks[b][i].Store? && Defined(b, fn.blocks[b][i], st, choice).Some?
    ensures Remembers(fn, b, i, i + 1, Define(st, i, Defined(b, fn.blocks[b][i], st, choice).value))
  {
    if fn.blocks[b][i].ICmp? {
      assert fn.blocks[b][i].x in Operands(fn.blocks[b][i]) && fn.blocks[b][i].y in Operands(fn.blocks[b][i]);
    }
  }

  lemma DefinedIsHere(a: Analysis, f: nat, b: nat, i: nat, st: State, choice: int)
    requires Here(a, f, b, i, st)
    requires var inst := a.functions[f].blocks[b][i];
             && !IsTerminator(inst) && !inst.Store? && !inst.Call?
             && Defined(b, inst, st, choice).Some?
    ensures var x := Defined(b, a.functions[f].blocks[b][i], st, choice).value;
            IsInstruction(a.functions[f], b, i + 1) && Here(a, f, b, i + 1, Define(st, i, x))
  {
    DefinedRegisterIsOk(a, f, b, i, st, choice);
    DefinedRemembers(a.functions[f], b, i, st, choice);
    DefineIsHere(a, f, b, i, st, Defined(b, a.functions[f].blocks[b][i], st, choice).value);
  }

  lemma SkipIsHere(a: Analysis, f: nat, b: nat, i: nat, st: State)
    requires Here(a, f, b, i, st)
    requires var inst := a.functions[f].blocks[b][i]; inst.Call? || (inst.Store? && !inst.receiver.Slot?)
    ensures IsInstruction(a.functions[f], b, i + 1) && Here(a, f, b, i + 1, st)
  {
    var c := a.Ctx(f);
    HereFacts(a, f, b, i, st);
    assert WellFormedBlock(c.Fn(), b);
    DefineKeepsSlots(c, a.ranges, a.FactAt(f, b, i), b, i, st);
    OldRegistersKept(c, a.ranges, a.FactAt(f, b, i), b, i, st);
    SkipRemembers(c.Fn(), b, i, st);
  }

  lemma StoreIsHere(a: Analysis, f: nat, b: nat, i: nat, st: State, n: nat, x: int)
    requires Here(a, f, b, i, st)
    requires a.functions[f].blocks[b][i].Store? && a.functions[f].blocks[b][i].receiver == Slot(n)
    requires Eval(b, st, a.functions[f].blocks[b][i].sender) == Some(x)
    ensures IsInstruction(a.functions[f], b, i + 1) && Here(a, f, b, i + 1, st.(slots := st.slots[n := x]))
  {
    var c := a.Ctx(f);
    HereFacts(a, f, b, i, st);
    assert WellFormedBlock(c.Fn(), b);
    StoreKeepsSlots(c, a.ranges, a.FactAt(f, b, i), b, i, st, x);
    OldRegistersKept(c, a.ranges, a.FactAt(f, b, i), b, i, st);
    StoreRemembers(c.Fn(), b, i, st, n, x);
  }

  lemma EnterIsHere(a: Analysis, f: nat, t: nat, st: State)
    requires a.Valid() && a.Covers(f) && a.Solved(f)
    requires t < |a.functions[f].blocks| && t in a.seen[f] && Point(t, 0) in a.returnable[f]
    requires SlotsOk(a.Ctx(f), a.seen[f][t].entry, Point(t, 0), st)
    ensures IsInstruction(a.functions[f], t, 0) && Here(a, f, t, 0, st.(registers := map[]))
  {
    assert WellFormedBlock(a.functions[f], t) && IsPoint(a.functions[f], Point(t, 0));
  }

  lemma TargetIsHere(a: Analysis, f: nat, b: nat, i: nat, st: State)
    requires Here(a, f, b, i, st) && IsTerminator(a.functions[f].blocks[b][i])
    requires Target(b, a.functions[f].blocks[b][i], st).Some?
    ensures var t := Target(b, a.functions[f].blocks[b][i], st).value;
            IsInstruction(a.functions[f], t, 0) && Here(a, f, t, 0, st.(registers := map[]))
  {
    var fn := a.functions[f];
    assert WellFormedBlock(fn, b);
    var t := Target(b, fn.blocks[b][i], st).value;
    TargetIsSuccessor(fn, b, st);
    assert IsPoint(fn, Point(t, 0));
    EdgeKeepsSlots(a, f, b, st, t);
    EnterIsHere(a, f, t, st);
  }

  /** The value at a return lies in the range of the function. */
  lemma ReturnInRange(a: Analysis, f: nat, b: nat, i: nat, st: State)
    requires Here(a, f, b, i, st) && a.functions[f].blocks[b][i].Ret?
    requires Eval(b, st, a.functions[f].blocks[b][i].result).Some?
    ensures f in a.ranges && In(Eval(b, st, a.functions[f].blocks[b][i].result).value, a.ranges[f])
  {
    var c := a.Ctx(f);
    var inst := c.Fn().blocks[b][i];
    var v := Eval(b, st, inst.result).value;
    var fact := a.FactAt(f, b, i);
    HereFacts(a, f, b, i, st);
    assert WellFormedBlock(c.Fn(), b) && i == LastIndex(c.Fn(), b);
    assert PlainInstruction(c, b, i) && inst.result in DataOperands(inst);
    OperandOk(c, a.ranges, fact, b, i, st, inst.result);
    var s := OperandSign(c, a.ranges, fact, inst.result);
    var bumped := Contribution(c, a.ranges, fact, inst.result);
    assert Leq(s, bumped);
    LeqIsInclusion(s, bumped);
    LeqIsInclusion(bumped, a.ranges[f]);
  }

  lemma CalledRegisterIsOk(a: Analysis, f: nat, b: nat, i: nat, st: State, x: int)
    requires Here(a, f, b, i, st) && a.functions[f].blocks[b][i].Call?
    requires var callee := a.functions[f].blocks[b][i].callee;
             IsExternal(a.functions, callee) || (callee.id in a.ranges && In(x, a.ranges[callee.id]))
    ensures RegisterOk(a.Ctx(f), a.ranges, Out(a.Ctx(f), a.ranges, b, i, a.FactAt(f, b, i)), b, i, x)
  {
    HereFacts(a, f, b, i, st);
    UntrackedRegister(a.Ctx(f), a.ranges, a.FactAt(f, b, i), b, i);
    assert Definition(a.functions[f], Reg(b, i)) == Some(a.functions[f].blocks[b][i]);
  }

  lemma {:induction false} GotoSound(a: Analysis, f: nat, b: nat, i: nat, st: State, script: Script)
    requires Here(a, f, b, i, st)
    requires IsTerminator(a.functions[f].blocks[b][i]) && !a.functions[f].blocks[b][i].Ret?
    requires Exec(a.functions, f, b, i, st, script).Some?
    ensures f in a.ranges && In(Exec(a.functions, f, b, i, st, script).value, a.ranges[f])
    decreases script, 0
  {
    TargetIsHere(a, f, b, i, st);
    var t := Target(b, a.functions[f].blocks[b][i], st).value;
    ExecSound(a, f, t, 0, st.(registers := map[]), script.rest);
  }

  /** A value that an analysed callee returns lies in its range. */
  lemma {:induction false} CallResultSound(a: Analysis, callee: Callee, args: seq<Option<int>>, choice: int, script: Script)
    requires a.Valid() && CallResult(a.functions, callee, args, choice, script).Some?
    requires IsExternal(a.functions, callee) || callee.id in a.scope
    requires CallResult(a.functions, callee, args, choice, script).value.Some?
    ensures IsExternal(a.functions, callee) ||
            (callee.id in a.ranges &&
             In(CallResult(a.functions, callee, args, choice, script).value.value, a.ranges[callee.id]))
    decreases script, 3
  {
    if !IsExternal(a.functions, callee) {
      RunSound(a, callee.id, args, script);
    }
  }

  lemma CalleeIsCovered(a: Analysis, f: nat, b: nat, i: nat)
    requires a.Valid() && a.Covers(f) && IsInstruction(a.functions[f], b, i) && a.functions[f].blocks[b][i].Call?
    ensures var callee := a.functions[f].blocks[b][i].callee; IsExternal(a.functions, callee) || callee.id in a.scope
  {
    assert CallsWithin(a.functions, a.scope, a.functions[f]);
  }

  /** A call that returns leads to the next point, with or without a result. */
  lemma {:induction false} CallIsHere(a: Analysis, f: nat, b: nat, i: nat, st: State, script: Script, result: Option<int>)
    requires Here(a, f, b, i, st) && a.functions[f].blocks[b][i].Call? && script.Step?
    requires var inst := a.functions[f].blocks[b][i];
             CallResult(a.functions, inst.callee, EvalArgs(b, st, inst.args), script.choice, script.callee) == Some(result)
    ensures IsInstruction(a.functions[f], b, i + 1)
    ensures Here(a, f, b, i + 1, if result.Some? then Define(st, i, result.value) else st)
    decreases script, 0, 0
  {
    var inst := a.functions[f].blocks[b][i];
    if result.None? {
      SkipIsHere(a, f, b, i, st);
    } else {
      CalleeIsCovered(a, f, b, i);
      CallResultSound(a, inst.callee, EvalArgs(b, st, inst.args), script.choice, script.callee);
      CalledRegisterIsOk(a, f, b, i, st, result.value);
      DefineIsHere(a, f, b, i, st, result.value);
    }
  }

  lemma {:induction false} CallSound(a: Analysis, f: nat, b: nat, i: nat, st: State, script: Script)
    requires Here(a, f, b, i, st) && a.functions[f].blocks[b][i].Call?
    requires Exec(a.functions, f, b, i, st, script).Some?
    ensures f in a.ranges && In(Exec(a.functions, f, b, i, st, script).value, a.ranges[f])
    decreases script, 0, 1
  {
    var inst := a.functions[f].blocks[b][i];
    var result := CallResult(a.functions, inst.callee, EvalArgs(b, st, inst.args), script.choice, script.callee).value;
    CallIsHere(a, f, b, i, st, script, result);
    ExecSound(a, f, b, i + 1, if result.Some? then Define(st, i, result.value) else st, script.rest);
  }

  lemma {:induction false} DefineSound(a: Analysis, f: nat, b: nat, i: nat, st: State, script: Script)
    requires Here(a, f, b, i, st)
    requires var inst := a.functions[f].blocks[b][i]; !IsTerminator(inst) && !inst.Store? && !inst.Call?
    requires Exec(a.functions, f, b, i, st, script).Some?
    ensures f in a.ranges && In(Exec(a.functions, f, b, i, st, script).value, a.ranges[f])
    decreases script, 0
  {
    var x := Defined(b, a.functions[f].blocks[b][i], st, script.choice).value;
    DefinedIsHere(a, f, b, i, st, script.choice);
    ExecSound(a, f, b, i + 1, Define(st, i, x), script.rest);
  }

  lemma {:induction false} SlotStoreSound(a: Analysis, f: nat, b: nat, i: nat, st: State, script: Script, n: nat)
    requires Here(a, f, b, i, st)
    requires a.functions[f].blocks[b][i].Store? && a.functions[f].blocks[b][i].receiver == Slot(n)
    requires Exec(a.functions, f, b, i, st, script).Some?
    ensures f in a.ranges && In(Exec(a.functions, f, b, i, st, script).value, a.ranges[f])
    decreases script, 0
  {
    var x := Eval(b, st, a.functions[f].blocks[b][i].sender).value;
    StoreIsHere(a, f, b, i, st, n, x);
    ExecSound(a, f, b, i + 1, st.(slots := st.slots[n := x]), script.rest);
  }

  lemma {:induction false} OtherStoreSound(a: Analysis, f: nat, b: nat, i: nat, st: State, script: Script)
    requires Here(a, f, b, i, st)
    requires a.functions[f].blocks[b][i].Store? && !a.functions[f].blocks[b][i].receiver.Slot?
    requires Exec(a.functions, f, b, i, st, script).Some?
    ensures f in a.ranges && In(Exec(a.functions, f, b, i, st, script).value, a.ranges[f])
    decreases script, 0
  {
    SkipIsHere(a, f, b, i, st);
    ExecSound(a, f, b, i + 1, st, script.rest);
  }

  /** From any point, with a state the facts agree with. */
  lemma {:induction false} ExecSound(a: Analysis, f: nat, b: nat, i: nat, st: State, script: Script)
    requires Here(a, f, b, i, st)
    requires Exec(a.functions, f, b, i, st, script).Some?
    ensures f in a.ranges && In(Exec(a.functions, f, b, i, st, script).value, a.ranges[f])
    decreases script, 1
  {
    var inst := a.functions[f].blocks[b][i];
    if inst.Ret? {
      ReturnInRange(a, f, b, i, st);
    } else if IsTerminator(inst) {
      GotoSound(a, f, b, i, st, script);
    } else if inst.Store? {
      if inst.receiver.Slot? {
        SlotStoreSound(a, f, b, i, st, script, inst.receiver.number);
      } else {
        OtherStoreSound(a, f, b, i, st, script);
      }
    } else if inst.Call? {
      CallSound(a, f, b, i, st, script);
    } else {
      DefineSound(a, f, b, i, st, script);
    }
  }

  /** Interprocedural soundness: every value that a terminating run of an analysed
      function returns, on any arguments, lies in the function's return range, if that
      function and those it can reach are in the fragment. */
  lemma {:induction false} RunSound(a: Analysis, f: nat, args: seq<Option<int>>, script: Script)
    requires a.Valid() && a.Covers(f)
    requires Run(a.functions, f, args, script).Some?
    ensures f in a.ranges && In(Run(a.functions, f, args, script).value, a.ranges[f])
    decreases script, 2
  {
    assert a.Solved(f);
    assert WellFormedBlock(a.functions[f], 0) && IsPoint(a.functions[f], Point(0, 0));
    EnterIsHere(a, f, 0, State(map[], map[], args));
    ExecSound(a, f, 0, 0, State(map[], map[], args), script);
  }
}
