/** The transfer functions of the return-range pass: what one instruction does to the
    fact before it, which narrowed facts a tested branch pushes into its successors,
    and what a return adds to the range of its function. */
module RangeTransfer {
  import opened SignLattice
  import opened SignFacts
  import opened IR
  import opened ICmpAbstraction
  import RV = ReturnedValues

  type Fact = map<Value, Sign>
  type Facts = map<Point, Fact>
  type Ranges = map<nat, Sign>

  /** A module, one of its functions, and what is returnable where in it. */
  datatype Context = Context(functions: seq<Function>, id: nat, returnable: RV.Facts) {
    function Fn(): Function
      requires id < |functions|
    {
      functions[id]
    }

    ghost predicate Valid() {
      && id < |functions|
      && WellFormed(Fn())
      && RegistersAreBlockLocal(Fn())
      && IsAnalysed(Fn())
      && returnable.Keys == Points(Fn())
    }
  }

  /** Functions with a body that return an integer or a pointer. Such a function has
      no `ret void`. */
  predicate ShouldIgnore(fn: Function) {
    fn.blocks == [] || fn.returns_.ReturnsOther?
  }

  ghost predicate IsAnalysed(fn: Function) {
    && !ShouldIgnore(fn)
    && forall b: nat | b < |fn.blocks| :: HasNoVoidReturn(fn.blocks[b])
  }

  ghost predicate HasNoVoidReturn(block: seq<Instr>) {
    forall inst :: inst in block ==> !inst.RetVoid?
  }

  // ----- Abstraction of operands -----

  function AbstractCall(functions: seq<Function>, ranges: Ranges, callee: Callee): Sign {
    if IsExternal(functions, callee) then Top
    else if callee.id in ranges then ranges[callee.id]
    else Bottom
  }

  function AbstractValue(functions: seq<Function>, fn: Function, ranges: Ranges, v: Value): Sign {
    match v
    case ConstBool(p) => if p then NotZero else Zero
    case ConstInt(k) => AbstractInteger(k)
    case Null => Zero
    case StringLiteral(_) => NotZero
    case Reg(_, _) =>
      (match Definition(fn, v)
       case Some(Call(callee, _)) => AbstractCall(functions, ranges, callee)
       case Some(ZExt(_)) => GreaterThanEqualZero
       case _ => Top)
    case _ => Top
  }

  /** The tracked sign of an operand, or else its abstraction. */
  function OperandSign(c: Context, ranges: Ranges, fact: Fact, v: Value): Sign
    requires c.Valid()
  {
    if v in fact then fact[v] else AbstractValue(c.functions, c.Fn(), ranges, v)
  }

  // ----- Tested values -----

  /** The address whose content a comparison looks at, if that is returnable: the
      operand was loaded from it, or was stored to it just before. */
  function CheckedReturnValue(fn: Function, b: nat, i: nat, v: Value, returnable: RV.Fact): Option<Value>
    requires IsInstruction(fn, b, i)
  {
    match Definition(fn, v)
    case Some(Load(address)) => if address in returnable then Some(address) else None
    case _ =>
      if i > 0 && fn.blocks[b][i - 1].Store? && fn.blocks[b][i - 1].sender == v &&
         fn.blocks[b][i - 1].receiver in returnable
      then Some(fn.blocks[b][i - 1].receiver)
      else None
  }

  /** The value a conditional branch tests: the first operand of its comparison that
      is checked, or else the second. */
  function CheckedByBranch(fn: Function, condition: Value, returnable: RV.Fact): Option<Value> {
    match Definition(fn, condition)
    case Some(ICmp(_, x, y)) =>
      var first := CheckedReturnValue(fn, condition.block, condition.index, x, returnable);
      if first.Some? then first
      else CheckedReturnValue(fn, condition.block, condition.index, y, returnable)
    case _ => None
  }

  /** The value the last instruction of a block tests. */
  function Checked(fn: Function, b: nat, returnable: RV.Fact): Option<Value>
    requires WellFormed(fn) && b < |fn.blocks|
  {
    match Last(fn, b)
    case CondBr(condition, _, _) => CheckedByBranch(fn, condition, returnable)
    case Switch(condition, _, _) => CheckedReturnValue(fn, b, Length(fn, b) - 1, condition, returnable)
    case _ => None
  }

  // ----- Output facts -----

  /** The output fact of instruction `i` of block `b`. A return leaves its output
      fact alone, so it stays empty. */
  function Out(c: Context, ranges: Ranges, b: nat, i: nat, fact: Fact): Fact
    requires c.Valid() && IsInstruction(c.Fn(), b, i)
  {
    var fn := c.Fn();
    var after := c.returnable[Point(b, i + 1)];
    var kept := Filtered(fact, after);
    match fn.blocks[b][i]
    case Store(sender, receiver) =>
      if receiver in after then kept[receiver := OperandSign(c, ranges, fact, sender)] else kept
    case Load(address) =>
      if Reg(b, i) in after then kept[Reg(b, i) := OperandSign(c, ranges, fact, address)] else kept
    case Cast(_, source) =>
      if Reg(b, i) in after then kept[Reg(b, i) := OperandSign(c, ranges, fact, source)] else kept
    case CondBr(_, _, _) =>
      (match Checked(fn, b, after)
       case Some(v) => Filtered(kept, kept.Keys - {v})
       case None => kept)
    case Switch(_, _, _) =>
      (match Checked(fn, b, after)
       case Some(v) => Filtered(kept, kept.Keys - {v})
       case None => kept)
    case Ret(_) => map[]
    case _ => kept
  }

  // ----- Facts pushed into successors -----

  datatype Push = Push(target: nat, key: Value, sign: Sign)

  /** The narrowed entry for one successor, if the key is returnable there. */
  function Narrowed(c: Context, fact: Fact, target: nat, key: Value, test: Sign): seq<Push>
    requires c.Valid() && target < |c.Fn().blocks|
  {
    if key in c.returnable[Point(target, 0)]
    then [Push(target, key, if key in fact then Glb(fact[key], test) else test)]
    else []
  }

  function CasePushes(c: Context, fact: Fact, key: Value, cases: seq<Case>): seq<Push>
    requires c.Valid() && forall t :: t in CaseTargets(cases) ==> t < |c.Fn().blocks|
    decreases |cases|
  {
    if cases == [] then []
    else
      assert cases[0].target in CaseTargets(cases);
      assert CaseTargets(cases[1..]) <= CaseTargets(cases);
      Narrowed(c, fact, cases[0].target, key, AbstractInteger(cases[0].value)) +
      CasePushes(c, fact, key, cases[1..])
  }

  /** The default successor keeps the sign the key has, if it has one. */
  function DefaultPush(c: Context, fact: Fact, target: nat, key: Value): seq<Push>
    requires c.Valid() && target < |c.Fn().blocks|
  {
    if key in c.returnable[Point(target, 0)] && key in fact then [Push(target, key, fact[key])] else []
  }

  /** What the last instruction of a block pushes, given the fact before it. */
  function Pushes(c: Context, b: nat, fact: Fact): seq<Push>
    requires c.Valid() && b < |c.Fn().blocks|
  {
    var fn := c.Fn();
    var checked := Checked(fn, b, c.returnable[End(fn, b)]);
    if checked.None? then []
    else
      match Last(fn, b)
      case CondBr(condition, onTrue, onFalse) =>
        assert onTrue in Successors(fn, b) && onFalse in Successors(fn, b);
        var icmp := Definition(fn, condition).value;
        var test := AbstractICmp(icmp.predicate_, icmp.x, icmp.y);
        Narrowed(c, fact, onTrue, checked.value, test.onTrue) +
        Narrowed(c, fact, onFalse, checked.value, test.onFalse)
      case Switch(_, cases, default_) =>
        assert default_ in Successors(fn, b);
        assert CaseTargets(cases) <= Successors(fn, b);
        CasePushes(c, fact, checked.value, cases) + DefaultPush(c, fact, default_, checked.value)
      case _ => []
  }

  /** A block that pushes has an instruction before its last one. */
  lemma TestIsNotFirst(c: Context, b: nat)
    requires c.Valid() && b < |c.Fn().blocks|
    requires Checked(c.Fn(), b, c.returnable[End(c.Fn(), b)]).Some?
    ensures Length(c.Fn(), b) >= 2
  {
    var fn := c.Fn();
    var last := Last(fn, b);
    assert last.CondBr? || last.Switch?;
    assert last.condition in Operands(last);
    assert last == fn.blocks[b][Length(fn, b) - 1];
  }

  // ----- Returns -----

  /** A pointer is never just positive or just negative. */
  function PointerSign(fn: Function, s: Sign): Sign {
    if fn.returns_.ReturnsPointer? && Intersects(s, NotZero) then Lub(s, NotZero) else s
  }

  function Contribution(c: Context, ranges: Ranges, fact: Fact, result: Value): Sign
    requires c.Valid()
  {
    PointerSign(c.Fn(), OperandSign(c, ranges, fact, result))
  }

  // ----- Which keys a fact can have -----

  /** Keys are the addresses of loads and stores, and the results of loads and casts. */
  predicate IsTracked(fn: Function, v: Value) {
    || IsAddress(fn, v)
    || (Definition(fn, v).Some? && (Definition(fn, v).value.Load? || Definition(fn, v).value.Cast?))
  }

  predicate IsAddress(fn: Function, v: Value) {
    exists b: nat, i: nat | b < |fn.blocks| && i < |fn.blocks[b]| :: AddressOf(fn.blocks[b][i]) == Some(v)
  }

  function AddressOf(inst: Instr): Option<Value> {
    match inst
    case Load(a) => Some(a)
    case Store(_, r) => Some(r)
    case _ => None
  }

  ghost predicate TracksOnly(fn: Function, returnable: RV.Fact, fact: Fact) {
    forall k :: k in fact ==> k in returnable && IsTracked(fn, k)
  }

  lemma CheckedIsAddress(fn: Function, b: nat, i: nat, v: Value, returnable: RV.Fact)
    requires IsInstruction(fn, b, i)
    requires CheckedReturnValue(fn, b, i, v, returnable).Some?
    ensures var a := CheckedReturnValue(fn, b, i, v, returnable).value;
            a in returnable && IsTracked(fn, a)
  {
    match Definition(fn, v)
    case Some(Load(address)) =>
      assert AddressOf(fn.blocks[v.block][v.index]) == Some(address);
    case _ =>
      assert AddressOf(fn.blocks[b][i - 1]) == Some(fn.blocks[b][i - 1].receiver);
  }

  lemma OutTracksOnly(c: Context, ranges: Ranges, b: nat, i: nat, fact: Fact)
    requires c.Valid() && IsInstruction(c.Fn(), b, i)
    requires TracksOnly(c.Fn(), c.returnable[Point(b, i)], fact)
    ensures TracksOnly(c.Fn(), c.returnable[Point(b, i + 1)], Out(c, ranges, b, i, fact))
  {
    var inst := c.Fn().blocks[b][i];
    if inst.Store? {
      assert AddressOf(inst) == Some(inst.receiver);
    }
  }
}
