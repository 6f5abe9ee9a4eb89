/** What a program of the intermediate representation does when it runs.

    A run is driven by a script, which supplies every choice the program leaves open:
    the results of external calls and of instructions that are not interpreted, and
    the script of each callee. Quantifying over scripts quantifies over all
    terminating runs. A run that reads a slot before storing to it, or that uses the
    address of a slot as data, has no result. */
module Semantics {
  import opened IR
  import opened ICmpAbstraction

  datatype Script = Stop | Step(choice: int, callee: Script, rest: Script)

  /** Slots live as long as the activation; registers only as long as a block. */
  datatype State = State(slots: map<nat, int>, registers: map<nat, int>, args: seq<Option<int>>)

  predicate AllWellFormed(functions: seq<Function>) {
    forall f :: 0 <= f < |functions| ==> WellFormed(functions[f])
  }

  /** The value of an operand in block `b`. */
  function Eval(b: nat, st: State, v: Value): Option<int> {
    match v
    case Slot(_) => None
    case Reg(d, j) => if d == b && j in st.registers then Some(st.registers[j]) else None
    case Arg(n) => if n < |st.args| then st.args[n] else None
    case GlobalAddress(k) => Some(k)
    case _ => ConstantValue(v)
  }

  function EvalArgs(b: nat, st: State, args: seq<Value>): seq<Option<int>> {
    seq(|args|, k requires 0 <= k < |args| => Eval(b, st, args[k]))
  }

  /** The result of a call: `None` if it does not return, otherwise the value it
      defines, if it defines one. */
  function CallResult(functions: seq<Function>, callee: Callee, args: seq<Option<int>>, choice: int, script: Script): Option<Option<int>>
    requires AllWellFormed(functions)
    decreases script, 2
  {
    if IsExternal(functions, callee) then Some(Some(choice))
    else if functions[callee.id].returns_.ReturnsOther? then Some(None)
    else
      match Run(functions, callee.id, args, script)
      case Some(w) => Some(Some(w))
      case None => None
  }

  /** The result of running a function on some arguments. */
  function Run(functions: seq<Function>, f: nat, args: seq<Option<int>>, script: Script): Option<int>
    requires AllWellFormed(functions) && f < |functions|
    decreases script, 1
  {
    if functions[f].blocks == [] then None
    else
      assert WellFormedBlock(functions[f], 0);
      Exec(functions, f, 0, 0, State(map[], map[], args), script)
  }

  /** The register an instruction other than a terminator defines: `None` if the
      instruction is stuck. */
  function Defined(b: nat, inst: Instr, st: State, choice: int): Option<int> {
    match inst
    case Load(Slot(n)) => if n in st.slots then Some(st.slots[n]) else None
    case ICmp(p, x, y) =>
      (match (Eval(b, st, x), Eval(b, st, y))
       case (Some(v), Some(k)) => Some(if Holds(p, v, k) then -1 else 0)
       case _ => None)
    case Cast(kind, source) => if kind.Trunc? then Some(choice) else Eval(b, st, source)
    case ZExt(_) => if choice >= 0 then Some(choice) else None
    case _ => Some(choice)
  }

  /** Where a terminator goes. */
  function CaseTarget(cases: seq<Case>, default_: nat, v: int): nat {
    if cases == [] then default_
    else if cases[0].value == v then cases[0].target
    else CaseTarget(cases[1..], default_, v)
  }

  function Target(b: nat, inst: Instr, st: State): Option<nat> {
    match inst
    case Br(t) => Some(t)
    case CondBr(condition, onTrue, onFalse) =>
      (match Eval(b, st, condition)
       case Some(v) => Some(if v != 0 then onTrue else onFalse)
       case None => None)
    case Switch(condition, cases, default_) =>
      (match Eval(b, st, condition)
       case Some(v) => Some(CaseTarget(cases, default_, v))
       case None => None)
    case _ => None
  }

  lemma CaseTargetIsTarget(cases: seq<Case>, default_: nat, v: int)
    ensures CaseTarget(cases, default_, v) in CaseTargets(cases) + {default_}
  {
    if cases != [] {
      if cases[0].value == v {
        assert cases[0] in cases;
      } else {
        CaseTargetIsTarget(cases[1..], default_, v);
        assert CaseTargets(cases[1..]) <= CaseTargets(cases);
      }
    }
  }

  lemma TargetIsSuccessor(fn: Function, b: nat, st: State)
    requires WellFormed(fn) && b < |fn.blocks| && WellFormedBlock(fn, b)
    requires Target(b, Last(fn, b), st).Some?
    ensures Target(b, Last(fn, b), st).value in Successors(fn, b)
  {
    var inst := Last(fn, b);
    if inst.Switch? {
      CaseTargetIsTarget(inst.cases, inst.default_, Eval(b, st, inst.condition).value);
    }
  }

  function Define(st: State, i: nat, v: int): State {
    st.(registers := st.registers[i := v])
  }

  /** The result of running on from instruction `i` of block `b`. */
  function Exec(functions: seq<Function>, f: nat, b: nat, i: nat, st: State, script: Script): Option<int>
    requires AllWellFormed(functions) && f < |functions| && IsInstruction(functions[f], b, i)
    decreases script, 0
  {
    var fn := functions[f];
    var inst := fn.blocks[b][i];
    assert WellFormedBlock(fn, b);
    if script.Stop? then None
    else if inst.Ret? then
      Eval(b, st, inst.result)
    else if IsTerminator(inst) then
      match Target(b, inst, st)
      case Some(t) =>
        TargetIsSuccessor(fn, b, st);
        assert WellFormedBlock(fn, t);
        Exec(functions, f, t, 0, st.(registers := map[]), script.rest)
      case None => None
    else if inst.Store? then
      if inst.receiver.Slot? then
        match Eval(b, st, inst.sender)
        case Some(v) =>
          Exec(functions, f, b, i + 1, st.(slots := st.slots[inst.receiver.number := v]), script.rest)
        case None => None
      else
        Exec(functions, f, b, i + 1, st, script.rest)
    else if inst.Call? then
      match CallResult(functions, inst.callee, EvalArgs(b, st, inst.args), script.choice, script.callee)
      case Some(Some(w)) => Exec(functions, f, b, i + 1, Define(st, i, w), script.rest)
      case Some(None) => Exec(functions, f, b, i + 1, st, script.rest)
      case None => None
    else
      match Defined(b, inst, st, script.choice)
      case Some(v) => Exec(functions, f, b, i + 1, Define(st, i, v), script.rest)
      case None => None
  }
}
