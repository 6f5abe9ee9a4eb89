/** A small LLVM-like intermediate representation in the form the bitcode has
    after register demotion: no PHI nodes, and every register is used only in the
    block that defines it.

    Dataflow facts live at program points.  Point `(b, i)` lies before instruction
    `i` of block `b`; the point after instruction `i` is the point before
    instruction `i + 1`, so the two facts of neighbouring instructions are one and
    the same object, as they are in the passes. */
module IR {
  datatype Option<T> = None | Some(value: T)

  datatype Value =
    | Slot(number: nat)            // the address of a stack slot (an alloca)
    | Reg(block: nat, index: nat)  // the result of an instruction
    | Arg(position: nat)           // a formal parameter
    | ConstInt(k: int)
    | ConstBool(p: bool)           // an i1 constant; read as signed, `true` is -1
    | Null
    | StringLiteral(address: int)
    | GlobalAddress(address: int)  // of a function or a global variable

  datatype Callee = Indirect(pointer: Value) | Direct(id: nat, name: string, address: int)

  datatype Predicate = Eq | Ne | Slt | Sle | Sgt | Sge | Ult | Ule | Ugt | Uge

  datatype CastKind = BitCast | PtrToInt | SExt | Trunc

  datatype Case = Case(value: int, target: nat)

  datatype Instr =
    | Load(address: Value)
    | Store(sender: Value, receiver: Value)
    | Call(callee: Callee, args: seq<Value>)
    | ICmp(predicate_: Predicate, x: Value, y: Value)
    | Cast(kind: CastKind, source: Value)
    | ZExt(source: Value)
    | BinaryOp(x: Value, y: Value)
    | Other                        // any other instruction that defines a register
    | Br(target: nat)
    | CondBr(condition: Value, onTrue: nat, onFalse: nat)
    | Switch(condition: Value, cases: seq<Case>, default_: nat)
    | Ret(result: Value)
    | RetVoid
    | Unreachable

  datatype ReturnKind = ReturnsInteger | ReturnsPointer | ReturnsOther

  datatype Function = Function(name: string, returns_: ReturnKind, blocks: seq<seq<Instr>>)

  datatype Point = Point(block: nat, index: nat)

  // ----- Shape of a function -----

  predicate IsTerminator(inst: Instr) {
    inst.Br? || inst.CondBr? || inst.Switch? || inst.Ret? || inst.RetVoid? || inst.Unreachable?
  }

  function CaseTargets(cases: seq<Case>): set<nat> {
    set c | c in cases :: c.target
  }

  function Targets(inst: Instr): set<nat> {
    match inst
    case Br(t) => {t}
    case CondBr(_, t, f) => {t, f}
    case Switch(_, cases, d) => CaseTargets(cases) + {d}
    case _ => {}
  }

  /** Blocks are non-empty, a terminator ends each block and stands nowhere else,
      and every branch goes to a block of the function. */
  predicate WellFormed(fn: Function) {
    forall b :: 0 <= b < |fn.blocks| ==> WellFormedBlock(fn, b)
  }

  predicate WellFormedBlock(fn: Function, b: nat)
    requires b < |fn.blocks|
  {
    var block := fn.blocks[b];
    && block != []
    && (forall i :: 0 <= i < |block| ==> (IsTerminator(block[i]) <==> i == |block| - 1))
    && var targets := Targets(block[|block| - 1]);
       forall t :: t in targets ==> t < |fn.blocks|
  }

  function Length(fn: Function, b: nat): nat
    requires b < |fn.blocks|
  {
    |fn.blocks[b]|
  }

  function LastIndex(fn: Function, b: nat): nat
    requires b < |fn.blocks| && WellFormedBlock(fn, b)
  {
    |fn.blocks[b]| - 1
  }

  function Last(fn: Function, b: nat): Instr
    requires b < |fn.blocks| && WellFormedBlock(fn, b)
  {
    fn.blocks[b][LastIndex(fn, b)]
  }

  function Successors(fn: Function, b: nat): (ts: set<nat>)
    requires b < |fn.blocks| && WellFormedBlock(fn, b)
    ensures forall t :: t in ts ==> t < |fn.blocks|
  {
    Targets(Last(fn, b))
  }

  function Predecessors(fn: Function, b: nat): set<nat>
    requires WellFormed(fn)
  {
    set p | 0 <= p < |fn.blocks| && b in Successors(fn, p)
  }

  predicate IsPoint(fn: Function, p: Point) {
    p.block < |fn.blocks| && p.index <= |fn.blocks[p.block]|
  }

  function Points(fn: Function): (ps: set<Point>)
    ensures forall p :: p in ps <==> IsPoint(fn, p)
  {
    set b: nat, i: nat | b < |fn.blocks| && i <= |fn.blocks[b]| :: Point(b, i)
  }

  /** The point after the last instruction of a block. */
  function End(fn: Function, b: nat): Point
    requires b < |fn.blocks|
  {
    Point(b, |fn.blocks[b]|)
  }

  /** The instruction a register stands for, if the register is one of the function's. */
  function Definition(fn: Function, v: Value): Option<Instr> {
    if v.Reg? && v.block < |fn.blocks| && v.index < |fn.blocks[v.block]|
    then Some(fn.blocks[v.block][v.index])
    else None
  }

  predicate IsInstruction(fn: Function, b: nat, i: nat) {
    b < |fn.blocks| && i < |fn.blocks[b]|
  }

  /** The callee is not resolved, or has no body. */
  predicate IsExternal(functions: seq<Function>, callee: Callee) {
    callee.Indirect? || callee.id >= |functions| || functions[callee.id].blocks == []
  }

  // ----- Operands -----

  /** Operands in the order the instruction lists them. A call lists its arguments,
      then the function it calls. */
  function Operands(inst: Instr): seq<Value> {
    match inst
    case Load(a) => [a]
    case Store(s, r) => [s, r]
    case Call(callee, args) => args + [if callee.Direct? then GlobalAddress(callee.address) else callee.pointer]
    case ICmp(_, x, y) => [x, y]
    case Cast(_, s) => [s]
    case ZExt(s) => [s]
    case BinaryOp(x, y) => [x, y]
    case CondBr(c, _, _) => [c]
    case Switch(c, _, _) => [c]
    case Ret(v) => [v]
    case _ => []
  }

  /** Every value an instruction of the function names or defines. */
  function Values(fn: Function): set<Value>
  {
    (set b: nat, i: nat | b < |fn.blocks| && i < |fn.blocks[b]| :: Reg(b, i)) +
    (set b: nat, i: nat, v | b < |fn.blocks| && i < |fn.blocks[b]| && v in Operands(fn.blocks[b][i]) :: v)
  }

  lemma OperandsAreValues(fn: Function, b: nat, i: nat)
    requires IsInstruction(fn, b, i)
    ensures Reg(b, i) in Values(fn)
    ensures forall v | v in Operands(fn.blocks[b][i]) :: v in Values(fn)
  {
  }

  /** Register demotion: a register operand is defined earlier in the same block. */
  predicate RegistersAreBlockLocal(fn: Function) {
    forall b: nat, i: nat, v |
      b < |fn.blocks| && i < |fn.blocks[b]| && v in Operands(fn.blocks[b][i]) && v.Reg? ::
      v.block == b && v.index < i
  }
}
