/** Which call or stored constant the content of a slot or register comes from, step by
    step along the paths of a function. An origin moves exactly where the semantics copies
    a value: through loads from slots, stores to slots, and casts that keep the value. */
module Provenance {
  import opened IR
  import opened Semantics

  /** The origin of what a slot or register holds: the register of a call, or a stored
      constant. Values of other origin are absent. */
  type Held = map<Value, Value>

  predicate IsConstantInt(v: Value) {
    v.ConstInt? || v.ConstBool?
  }

  /** The slot or operand whose content becomes the result of an instruction. */
  function CarriedFrom(inst: Instr): Option<Value> {
    match inst
    case Load(address) => if address.Slot? then Some(address) else None
    case Cast(kind, source) => if kind.Trunc? || source.Slot? then None else Some(source)
    case _ => None
  }

  function OriginOf(held: Held, v: Value): Option<Value> {
    if IsConstantInt(v) then Some(v) else if v in held then Some(held[v]) else None
  }

  function WithOrigin(held: Held, v: Value, origin: Option<Value>): Held {
    if origin.Some? then held[v := origin.value] else held - {v}
  }

  /** How executing one instruction moves origins about. A store through a pointer changes
      no slot and no register, and the address of a slot is not its content. */
  function Execute(inst: Instr, self: Value, held: Held): Held {
    match inst
    case Call(_, _) => held[self := self]
    case Store(sender, receiver) =>
      if receiver.Slot? then WithOrigin(held, receiver, if sender.Slot? then None else OriginOf(held, sender)) else held
    case _ =>
      var from := CarriedFrom(inst);
      if IsTerminator(inst) then held
      else WithOrigin(held, self, if from.Some? then OriginOf(held, from.value) else None)
  }

  /** Registers do not outlive their block. */
  function OverEdge(held: Held): Held {
    map v | v in held && v.Slot? :: held[v]
  }

  // ----- Paths -----

  /** A control-flow path, point by point, from the entry of the function. */
  ghost predicate IsPath(fn: Function, path: seq<Point>)
    requires WellFormed(fn)
  {
    && |path| > 0 && path[0] == Point(0, 0)
    && (forall k :: 0 <= k < |path| ==> IsPoint(fn, path[k]))
    && (forall k :: 0 <= k < |path| - 1 ==> PathStep(fn, path[k], path[k + 1]))
  }

  ghost predicate PathStep(fn: Function, p: Point, q: Point)
    requires WellFormed(fn) && IsPoint(fn, p)
  {
    if p.index < Length(fn, p.block) then
      q == Point(p.block, p.index + 1)
    else
      q.index == 0 && q.block in Successors(fn, p.block)
  }

  /** What is held after following a path. */
  ghost function HeldAfter(fn: Function, path: seq<Point>): Held
    requires WellFormed(fn) && IsPath(fn, path)
    decreases |path|
  {
    if |path| == 1 then map[]
    else
      var before := path[..|path| - 1];
      PathPrefix(fn, path);
      var p := before[|before| - 1];
      var held := HeldAfter(fn, before);
      if p.index < Length(fn, p.block)
      then Execute(fn.blocks[p.block][p.index], Reg(p.block, p.index), held)
      else OverEdge(held)
  }

  lemma PathPrefix(fn: Function, path: seq<Point>)
    requires WellFormed(fn) && IsPath(fn, path) && |path| > 1
    ensures IsPath(fn, path[..|path| - 1])
  {
    var before := path[..|path| - 1];
    forall k | 0 <= k < |before| - 1
      ensures PathStep(fn, before[k], before[k + 1])
    {
      assert before[k] == path[k] && before[k + 1] == path[k + 1];
    }
  }

  lemma PathExtends(fn: Function, path: seq<Point>)
    requires WellFormed(fn) && IsPath(fn, path)
    requires var p := path[|path| - 1]; p.index < Length(fn, p.block)
    ensures var p := path[|path| - 1];
            var longer := path + [Point(p.block, p.index + 1)];
            IsPath(fn, longer) &&
            HeldAfter(fn, longer) == Execute(fn.blocks[p.block][p.index], Reg(p.block, p.index), HeldAfter(fn, path))
  {
    var p := path[|path| - 1];
    var longer := path + [Point(p.block, p.index + 1)];
    forall k | 0 <= k < |longer| - 1
      ensures PathStep(fn, longer[k], longer[k + 1])
    {
      assert k < |path| - 1 ==> PathStep(fn, path[k], path[k + 1]);
    }
    assert longer[..|longer| - 1] == path;
  }

  // ----- Origins and values -----

  /** The content of a slot, or the value of an operand. */
  function Read(b: nat, st: State, v: Value): Option<int> {
    match v
    case Slot(n) => if n in st.slots then Some(st.slots[n]) else None
    case _ => Eval(b, st, v)
  }

  /** What each call has returned so far. */
  type Results = map<Value, set<int>>

  predicate IsResultOf(results: Results, origin: Value, x: int) {
    match origin
    case ConstInt(k) => x == k
    case ConstBool(p) => x == if p then -1 else 0
    case _ => origin in results && x in results[origin]
  }

  /** The content of whatever is held is a value of its origin. */
  ghost predicate IsHeld(b: nat, st: State, held: Held, results: Results) {
    forall v | v in held && Read(b, st, v).Some? :: IsResultOf(results, held[v], Read(b, st, v).value)
  }

  /** An origin is carried to a result only if the result is the value it is carried from. */
  lemma CarriedIsCopied(b: nat, inst: Instr, st: State, choice: int)
    requires CarriedFrom(inst).Some?
    ensures Defined(b, inst, st, choice) == Read(b, st, CarriedFrom(inst).value)
  {
  }

  /** And no origin is lost where the result is sure to be such a value: any other
      instruction that defines its register is stuck, or compares, or can define every
      non-negative value, whatever its operands hold. */
  lemma NothingElseIsCopied(b: nat, inst: Instr, st: State, x: nat)
    requires CarriedFrom(inst).None? && !IsTerminator(inst) && !inst.Call? && !inst.Store? && !inst.ICmp?
    ensures (forall choice :: Defined(b, inst, st, choice).None?) || Defined(b, inst, st, x) == Some(x)
  {
  }

  /** An instruction that defines its register keeps what is held true of the state. */
  lemma DefineKeepsHeld(b: nat, i: nat, inst: Instr, st: State, choice: int, held: Held, results: Results)
    requires IsHeld(b, st, held, results) && !IsTerminator(inst) && !inst.Call? && !inst.Store?
    requires Defined(b, inst, st, choice).Some?
    ensures IsHeld(b, Define(st, i, Defined(b, inst, st, choice).value), Execute(inst, Reg(b, i), held), results)
  {
    var x := Defined(b, inst, st, choice).value;
    var after, now := Define(st, i, x), Execute(inst, Reg(b, i), held);
    forall v | v in now && Read(b, after, v).Some?
      ensures IsResultOf(results, now[v], Read(b, after, v).value)
    {
      if v == Reg(b, i) {
        CarriedIsCopied(b, inst, st, choice);
      } else {
        assert Read(b, after, v) == Read(b, st, v) && now[v] == held[v];
      }
    }
  }

  /** So does a store, to a slot or through a pointer. */
  lemma StoreKeepsHeld(b: nat, self: Value, sender: Value, receiver: Value, st: State, held: Held, results: Results)
    requires IsHeld(b, st, held, results) && (receiver.Slot? ==> Eval(b, st, sender).Some?)
    ensures var after := if receiver.Slot? then st.(slots := st.slots[receiver.number := Eval(b, st, sender).value]) else st;
            IsHeld(b, after, Execute(Store(sender, receiver), self, held), results)
  {
    var after := if receiver.Slot? then st.(slots := st.slots[receiver.number := Eval(b, st, sender).value]) else st;
    var now := Execute(Store(sender, receiver), self, held);
    forall v | v in now && Read(b, after, v).Some?
      ensures IsResultOf(results, now[v], Read(b, after, v).value)
    {
      if v != receiver {
        assert Read(b, after, v) == Read(b, st, v) && now[v] == held[v];
      }
    }
  }

  function WithResult(results: Results, self: Value, x: int): Results {
    results[self := (if self in results then results[self] else {}) + {x}]
  }

  /** A call adds its result to those of its own, and holds it. */
  lemma CallKeepsHeld(b: nat, i: nat, inst: Instr, st: State, x: int, held: Held, results: Results)
    requires IsHeld(b, st, held, results) && inst.Call?
    ensures IsHeld(b, Define(st, i, x), Execute(inst, Reg(b, i), held), WithResult(results, Reg(b, i), x))
  {
    var after, now := Define(st, i, x), Execute(inst, Reg(b, i), held);
    forall v | v in now && Read(b, after, v).Some?
      ensures IsResultOf(WithResult(results, Reg(b, i), x), now[v], Read(b, after, v).value)
    {
      if v != Reg(b, i) {
        assert Read(b, after, v) == Read(b, st, v) && now[v] == held[v];
      }
    }
  }

  /** And so does leaving a block. */
  lemma EdgeKeepsHeld(b: nat, t: nat, st: State, held: Held, results: Results)
    requires IsHeld(b, st, held, results)
    ensures IsHeld(t, st.(registers := map[]), OverEdge(held), results)
  {
    var after := st.(registers := map[]);
    forall v | v in OverEdge(held) && Read(t, after, v).Some?
      ensures IsResultOf(results, held[v], Read(t, after, v).value)
    {
      assert Read(t, after, v) == Read(b, st, v);
    }
  }
}
