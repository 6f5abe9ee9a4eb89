/** The returned-values pass: a backward analysis that computes, at each program
    point, the values that can flow into a return operand.

    `Run` is the round-robin sweep over one function.  It is proved exact: at exit a
    value is in the fact of a point if and only if some chain of program points
    carries it, instruction by instruction and edge by edge, to a return. */
module ReturnedValues {
  import opened IR

  type Fact = set<Value>
  type Facts = map<Point, Fact>

  // ----- One instruction, backward -----

  predicate ContainsSubstring(s: string, part: string) {
    exists tail | 0 <= tail <= |s| :: part <= s[tail..]
  }

  /** The Linux error-pointer helpers, whose argument is returned with their result. */
  predicate IsErrFunction(name: string) {
    || ContainsSubstring(name, "ERR_PTR")
    || ContainsSubstring(name, "IS_ERR")
    || ContainsSubstring(name, "PTR_ERR")
    || ContainsSubstring(name, "ERR_CAST")
  }

  predicate IsErrCall(inst: Instr) {
    inst.Call? && inst.callee.Direct? && IsErrFunction(inst.callee.name)
  }

  /** One string stands somewhere in another. */
  ghost predicate Occurs(part: string, s: string) {
    exists before, after :: s == before + part + after
  }

  lemma ContainsIsOccurs(s: string, part: string)
    ensures ContainsSubstring(s, part) <==> Occurs(part, s)
  {
    if i :| 0 <= i <= |s| && part <= s[i..] {
      assert s == s[..i] + part + s[i + |part|..];
    }
    if before, after :| s == before + part + after {
      assert s[|before|..] == part + after;
    }
  }

  /** A call of one of the error-pointer helpers, by their names. */
  ghost predicate ReturnsItsArgument(inst: Instr) {
    inst.Call? && inst.callee.Direct? &&
    (|| Occurs("ERR_PTR", inst.callee.name) || Occurs("IS_ERR", inst.callee.name)
     || Occurs("PTR_ERR", inst.callee.name) || Occurs("ERR_CAST", inst.callee.name))
  }

  lemma IsErrCallMeans(inst: Instr)
    ensures IsErrCall(inst) <==> ReturnsItsArgument(inst)
  {
    if inst.Call? && inst.callee.Direct? {
      ContainsIsOccurs(inst.callee.name, "ERR_PTR");
      ContainsIsOccurs(inst.callee.name, "IS_ERR");
      ContainsIsOccurs(inst.callee.name, "PTR_ERR");
      ContainsIsOccurs(inst.callee.name, "ERR_CAST");
    }
  }

  /** `v` before the instruction is what `w` is after it, as far as the pass can see. */
  ghost predicate CarriesBack(inst: Instr, self: Value, v: Value, w: Value) {
    match inst
    case Store(sender, receiver) => (w == v && v != receiver) || (w == receiver && v == sender)
    case Load(address) => (w == v && v != self) || (w == self && v == address)
    case Cast(_, source) => (w == v && v != self) || (w == self && v == source)
    case Call(_, _) => w == v || (ReturnsItsArgument(inst) && w == self && v == Operands(inst)[0])
    case RetVoid => false
    case _ => w == v
  }

  predicate Generates(inst: Instr, v: Value) {
    inst.Ret? && inst.result == v
  }

  /** The fact before an instruction, given the fact after it. */
  function Transfer(inst: Instr, self: Value, out: Fact): Fact {
    match inst
    case Ret(v) => out + {v}
    case RetVoid => {}
    case Store(sender, receiver) => (out - {receiver}) + (if receiver in out then {sender} else {})
    case Load(address) => (out - {self}) + (if self in out then {address} else {})
    case Cast(_, source) => (out - {self}) + (if self in out then {source} else {})
    case Call(_, _) => out + (if IsErrCall(inst) && self in out then {Operands(inst)[0]} else {})
    case _ => out
  }

  lemma TransferCarriesBack(inst: Instr, self: Value, out: Fact, v: Value)
    ensures v in Transfer(inst, self, out)
       <==> Generates(inst, v) || exists w :: w in out && CarriesBack(inst, self, v, w)
  {
    IsErrCallMeans(inst);
    if v in Transfer(inst, self, out) && !Generates(inst, v) {
      var carrier := if v in out && CarriesBack(inst, self, v, v) then v
                     else if inst.Store? then inst.receiver else self;
      assert carrier in out && CarriesBack(inst, self, v, carrier);
    }
  }

  lemma TransferIsMonotone(inst: Instr, self: Value, small: Fact, large: Fact)
    requires small <= large
    ensures Transfer(inst, self, small) <= Transfer(inst, self, large)
  {
  }

  // ----- The meaning of a fact: traces to a return -----

  datatype Node = Node(point: Point, value: Value)

  ghost predicate IsNode(fn: Function, x: Node) {
    IsPoint(fn, x.point)
  }

  /** One step along a control-flow path: across an instruction, or across an edge. */
  ghost predicate Step(fn: Function, x: Node, y: Node)
    requires WellFormed(fn) && IsNode(fn, x)
  {
    var b := x.point.block;
    var i := x.point.index;
    if i < Length(fn, b) then
      && y.point == Point(b, i + 1)
      && CarriesBack(fn.blocks[b][i], Reg(b, i), x.value, y.value)
    else
      y.value == x.value && y.point.index == 0 && y.point.block in Successors(fn, b)
  }

  ghost predicate AtReturn(fn: Function, x: Node)
    requires IsNode(fn, x)
  {
    x.point.index < Length(fn, x.point.block) && Generates(fn.blocks[x.point.block][x.point.index], x.value)
  }

  /** A chain of steps that ends at a return of the value it carries. */
  ghost predicate IsTrace(fn: Function, chain: seq<Node>)
    requires WellFormed(fn)
  {
    && |chain| > 0
    && (forall k :: 0 <= k < |chain| ==> IsNode(fn, chain[k]))
    && (forall k :: 0 <= k < |chain| - 1 ==> Step(fn, chain[k], chain[k + 1]))
    && AtReturn(fn, chain[|chain| - 1])
  }

  ghost predicate Returnable(fn: Function, p: Point, v: Value)
    requires WellFormed(fn)
  {
    exists chain :: IsTrace(fn, chain) && chain[0] == Node(p, v)
  }

  lemma ReturnableAtReturn(fn: Function, b: nat, i: nat, v: Value)
    requires WellFormed(fn) && IsInstruction(fn, b, i)
    requires Generates(fn.blocks[b][i], v)
    ensures Returnable(fn, Point(b, i), v)
  {
    assert IsTrace(fn, [Node(Point(b, i), v)]);
  }

  lemma ReturnableExtends(fn: Function, x: Node, y: Node)
    requires WellFormed(fn) && IsNode(fn, x)
    requires Step(fn, x, y) && Returnable(fn, y.point, y.value)
    ensures Returnable(fn, x.point, x.value)
  {
    var chain :| IsTrace(fn, chain) && chain[0] == y;
    var longer := [x] + chain;
    forall k | 0 <= k < |longer| - 1
      ensures Step(fn, longer[k], longer[k + 1])
    {
      assert k > 0 ==> longer[k] == chain[k - 1] && longer[k + 1] == chain[k];
    }
    assert IsTrace(fn, longer) && longer[0] == x;
  }

  // ----- Invariants of the sweep -----

  ghost predicate Domain(fn: Function, facts: Facts) {
    facts.Keys == Points(fn)
  }

  /** Nothing is in a fact without a witness. */
  ghost predicate Justified(fn: Function, facts: Facts)
    requires WellFormed(fn)
  {
    forall p, v :: p in facts && v in facts[p] ==> Returnable(fn, p, v)
  }

  /** Facts only name values of the function, so they cannot grow for ever. */
  ghost predicate Bounded(fn: Function, facts: Facts) {
    forall p :: p in facts ==> facts[p] <= Values(fn)
  }

  /** An input fact never runs ahead of its output fact. */
  ghost predicate LagsAt(fn: Function, facts: Facts, b: nat, i: nat)
    requires Domain(fn, facts) && IsInstruction(fn, b, i)
  {
    facts[Point(b, i)] <= Transfer(fn.blocks[b][i], Reg(b, i), facts[Point(b, i + 1)])
  }

  ghost predicate Lagging(fn: Function, facts: Facts)
    requires Domain(fn, facts)
  {
    forall b: nat, i: nat | IsInstruction(fn, b, i) :: LagsAt(fn, facts, b, i)
  }

  ghost predicate Invariant(fn: Function, facts: Facts) {
    && WellFormed(fn)
    && Domain(fn, facts)
    && Justified(fn, facts)
    && Bounded(fn, facts)
    && Lagging(fn, facts)
  }

  ghost predicate AgreesAt(fn: Function, facts: Facts, b: nat, i: nat)
    requires Domain(fn, facts) && IsInstruction(fn, b, i)
  {
    facts[Point(b, i)] == Transfer(fn.blocks[b][i], Reg(b, i), facts[Point(b, i + 1)])
  }

  ghost predicate InstructionsAgree(fn: Function, facts: Facts, b: nat, from: int)
    requires Domain(fn, facts) && b < |fn.blocks|
  {
    forall i: nat | from <= i && IsInstruction(fn, b, i) :: AgreesAt(fn, facts, b, i)
  }

  ghost predicate EdgesCovered(fn: Function, facts: Facts, b: nat)
    requires WellFormed(fn) && Domain(fn, facts) && b < |fn.blocks|
  {
    forall t :: t in Successors(fn, b) ==> facts[Point(t, 0)] <= facts[End(fn, b)]
  }

  /** The dataflow equations, read as inclusions where joins happen. */
  ghost predicate IsFixpoint(fn: Function, facts: Facts) {
    && WellFormed(fn)
    && Domain(fn, facts)
    && forall b: nat | b < |fn.blocks| :: InstructionsAgree(fn, facts, b, 0) && EdgesCovered(fn, facts, b)
  }

  /** At a fixpoint every trace is found. */
  lemma {:induction false} FixpointIsComplete(fn: Function, facts: Facts, chain: seq<Node>)
    requires IsFixpoint(fn, facts) && IsTrace(fn, chain)
    ensures chain[0].value in facts[chain[0].point]
    decreases |chain|
  {
    var x := chain[0];
    var b, i := x.point.block, x.point.index;
    assert InstructionsAgree(fn, facts, b, 0) && EdgesCovered(fn, facts, b);
    assert x.point == Point(b, i);
    if |chain| > 1 {
      var rest := chain[1..];
      assert Step(fn, x, rest[0]);
      forall k | 0 <= k < |rest| - 1
        ensures Step(fn, rest[k], rest[k + 1])
      {
        assert rest[k] == chain[k + 1] && rest[k + 1] == chain[k + 2];
      }
      FixpointIsComplete(fn, facts, rest);
      if i < Length(fn, b) {
        assert AgreesAt(fn, facts, b, i);
        TransferCarriesBack(fn.blocks[b][i], Reg(b, i), facts[Point(b, i + 1)], x.value);
      }
    } else {
      assert AgreesAt(fn, facts, b, i);
      TransferCarriesBack(fn.blocks[b][i], Reg(b, i), facts[Point(b, i + 1)], x.value);
    }
  }

  /** The facts are exactly the traceable values. */
  ghost predicate Exact(fn: Function, facts: Facts) {
    && WellFormed(fn)
    && Domain(fn, facts)
    && forall p, v :: p in facts ==> (v in facts[p] <==> Returnable(fn, p, v))
  }

  lemma FixpointIsExact(fn: Function, facts: Facts)
    requires IsFixpoint(fn, facts) && Justified(fn, facts)
    ensures Exact(fn, facts)
  {
    forall p, v | p in facts && Returnable(fn, p, v)
      ensures v in facts[p]
    {
      var chain :| IsTrace(fn, chain) && chain[0] == Node(p, v);
      FixpointIsComplete(fn, facts, chain);
    }
  }

  // ----- Single updates keep the invariant -----

  lemma GrowthKeepsLagging(fn: Function, facts: Facts, p: Point, grown: Fact)
    requires Domain(fn, facts) && Lagging(fn, facts) && IsPoint(fn, p) && facts[p] <= grown
    requires p.index < Length(fn, p.block) ==>
      IsPoint(fn, Point(p.block, p.index + 1)) &&
      grown <= Transfer(fn.blocks[p.block][p.index], Reg(p.block, p.index), facts[Point(p.block, p.index + 1)])
    ensures Domain(fn, facts[p := grown]) && Lagging(fn, facts[p := grown])
  {
    var after := facts[p := grown];
    forall c: nat, j: nat | IsInstruction(fn, c, j)
      ensures LagsAt(fn, after, c, j)
    {
      assert LagsAt(fn, facts, c, j);
      TransferIsMonotone(fn.blocks[c][j], Reg(c, j), facts[Point(c, j + 1)], after[Point(c, j + 1)]);
    }
  }

  ghost predicate AllReturnable(fn: Function, p: Point, values: Fact)
    requires WellFormed(fn)
  {
    forall v | v in values :: Returnable(fn, p, v)
  }

  /** An update that grows one fact with justified values keeps the invariant,
      as long as the fact itself does not run ahead. */
  lemma GrowthKeepsInvariant(fn: Function, facts: Facts, p: Point, grown: Fact)
    requires Invariant(fn, facts) && IsPoint(fn, p)
    requires facts[p] <= grown <= Values(fn) && AllReturnable(fn, p, grown)
    requires p.index < Length(fn, p.block) ==>
      IsPoint(fn, Point(p.block, p.index + 1)) &&
      grown <= Transfer(fn.blocks[p.block][p.index], Reg(p.block, p.index), facts[Point(p.block, p.index + 1)])
    ensures Invariant(fn, facts[p := grown]) && Grown(facts, facts[p := grown])
  {
    GrowthKeepsLagging(fn, facts, p, grown);
    var after := facts[p := grown];
    forall q, v | q in after && v in after[q]
      ensures Returnable(fn, q, v)
    {
    }
  }

  lemma VisitJustified(fn: Function, facts: Facts, b: nat, i: nat, v: Value)
    requires Invariant(fn, facts) && IsInstruction(fn, b, i)
    requires v in Transfer(fn.blocks[b][i], Reg(b, i), facts[Point(b, i + 1)])
    ensures Returnable(fn, Point(b, i), v) && v in Values(fn)
  {
    var inst := fn.blocks[b][i];
    var out := facts[Point(b, i + 1)];
    TransferCarriesBack(inst, Reg(b, i), out, v);
    OperandsAreValues(fn, b, i);
    if Generates(inst, v) {
      ReturnableAtReturn(fn, b, i, v);
      assert v in Operands(inst);
    } else {
      var w :| w in out && CarriesBack(inst, Reg(b, i), v, w);
      ReturnableExtends(fn, Node(Point(b, i), v), Node(Point(b, i + 1), w));
      assert v != w ==> v in Operands(inst);
    }
  }

  lemma VisitAllJustified(fn: Function, facts: Facts, b: nat, i: nat, in_: Fact)
    requires Invariant(fn, facts) && IsInstruction(fn, b, i)
    requires in_ == Transfer(fn.blocks[b][i], Reg(b, i), facts[Point(b, i + 1)])
    ensures in_ <= Values(fn) && AllReturnable(fn, Point(b, i), in_)
  {
    forall v | v in in_
      ensures Returnable(fn, Point(b, i), v) && v in Values(fn)
    {
      VisitJustified(fn, facts, b, i, v);
    }
  }

  lemma InputLags(fn: Function, facts: Facts, b: nat, i: nat, in_: Fact)
    requires Domain(fn, facts) && Lagging(fn, facts) && IsInstruction(fn, b, i)
    requires IsPoint(fn, Point(b, i + 1)) && in_ == Transfer(fn.blocks[b][i], Reg(b, i), facts[Point(b, i + 1)])
    ensures IsPoint(fn, Point(b, i)) && facts[Point(b, i)] <= in_
  {
    assert LagsAt(fn, facts, b, i);
  }

  lemma VisitKeepsInvariant(fn: Function, facts: Facts, b: nat, i: nat, in_: Fact)
    requires Invariant(fn, facts) && IsInstruction(fn, b, i)
    requires in_ == Transfer(fn.blocks[b][i], Reg(b, i), facts[Point(b, i + 1)])
    ensures Invariant(fn, facts[Point(b, i) := in_]) && Grown(facts, facts[Point(b, i) := in_])
  {
    var p, q := Point(b, i), Point(b, i + 1);
    assert IsPoint(fn, p) && IsPoint(fn, q) && p.index < Length(fn, p.block);
    VisitAllJustified(fn, facts, b, i, in_);
    InputLags(fn, facts, b, i, in_);
    VisitGrows(fn, facts, p, q, in_);
  }

  lemma VisitGrows(fn: Function, facts: Facts, p: Point, q: Point, in_: Fact)
    requires Invariant(fn, facts) && IsPoint(fn, p) && IsPoint(fn, q) && p.index < Length(fn, p.block)
    requires q == Point(p.block, p.index + 1) && facts[p] <= in_
    requires in_ == Transfer(fn.blocks[p.block][p.index], Reg(p.block, p.index), facts[q])
    requires in_ <= Values(fn) && AllReturnable(fn, p, in_)
    ensures Invariant(fn, facts[p := in_]) && Grown(facts, facts[p := in_])
  {
    GrowthKeepsInvariant(fn, facts, p, in_);
  }

  /** The output fact of the block covers the entries of these successors. */
  ghost predicate EdgesTo(fn: Function, facts: Facts, b: nat, ts: set<nat>)
    requires Domain(fn, facts) && b < |fn.blocks|
  {
    forall t | t in ts :: Point(t, 0) in facts && facts[Point(t, 0)] <= facts[End(fn, b)]
  }

  lemma JoinCoversEdge(fn: Function, facts: Facts, b: nat, done: set<nat>, t: nat)
    requires WellFormed(fn) && Domain(fn, facts) && b < |fn.blocks| && EdgesTo(fn, facts, b, done)
    requires IsPoint(fn, Point(t, 0)) && IsPoint(fn, End(fn, b))
    ensures var joined := facts[End(fn, b) := facts[End(fn, b)] + facts[Point(t, 0)]];
            Domain(fn, joined) && EdgesTo(fn, joined, b, done + {t})
  {
    assert WellFormedBlock(fn, b);
    var joined := facts[End(fn, b) := facts[End(fn, b)] + facts[Point(t, 0)]];
    forall u | u in done + {t}
      ensures joined[Point(u, 0)] <= joined[End(fn, b)]
    {
      assert Point(u, 0) != End(fn, b);
    }
  }

  lemma JoinKeepsInvariant(fn: Function, facts: Facts, b: nat, t: nat)
    requires Invariant(fn, facts) && b < |fn.blocks| && t in Successors(fn, b)
    ensures IsPoint(fn, Point(t, 0)) && IsPoint(fn, End(fn, b))
    ensures var joined := facts[End(fn, b) := facts[End(fn, b)] + facts[Point(t, 0)]];
            Invariant(fn, joined) && Grown(facts, joined)
  {
    var end := End(fn, b);
    assert IsPoint(fn, Point(t, 0)) && IsPoint(fn, end);
    forall v | v in facts[Point(t, 0)]
      ensures Returnable(fn, end, v)
    {
      ReturnableExtends(fn, Node(end, v), Node(Point(t, 0), v));
    }
    GrowthKeepsInvariant(fn, facts, end, facts[end] + facts[Point(t, 0)]);
  }

  /** What the facts could still gain; it shrinks while the sweep changes anything. */
  ghost function Missing(fn: Function, facts: Facts): set<(Point, Value)>
    requires Domain(fn, facts)
  {
    set p, v | p in Points(fn) && v in Values(fn) && v !in facts[p] :: (p, v)
  }

  ghost predicate Grown(before: Facts, after: Facts) {
    before.Keys == after.Keys && forall p :: p in before ==> before[p] <= after[p]
  }

  lemma GrowthShrinksMissing(fn: Function, before: Facts, after: Facts)
    requires Domain(fn, before) && Grown(before, after) && Bounded(fn, after)
    ensures Missing(fn, after) <= Missing(fn, before)
    ensures before != after ==> Missing(fn, after) < Missing(fn, before)
  {
    if before != after {
      var p :| p in before && before[p] != after[p];
      var v :| v in after[p] && v !in before[p];
      assert (p, v) in Missing(fn, before) && (p, v) !in Missing(fn, after);
    }
  }

  /** When only the last output fact of block `b` has moved, and block `b` itself
      agrees with it, the blocks already settled stay settled. */
  lemma KeepsAgreement(fn: Function, before: Facts, after: Facts, b: nat)
    requires WellFormed(fn) && Domain(fn, before) && Domain(fn, after) && b < |fn.blocks|
    requires forall p :: p in after && p != End(fn, b) ==> after[p] == before[p]
    ensures forall c: nat | c < |fn.blocks| && c != b ::
      && (InstructionsAgree(fn, before, c, 0) ==> InstructionsAgree(fn, after, c, 0))
      && (EdgesCovered(fn, before, c) ==> EdgesCovered(fn, after, c))
  {
    assert WellFormedBlock(fn, b);
    forall c: nat | c < |fn.blocks| && c != b && InstructionsAgree(fn, before, c, 0)
      ensures InstructionsAgree(fn, after, c, 0)
    {
      forall i: nat | 0 <= i && IsInstruction(fn, c, i)
        ensures AgreesAt(fn, after, c, i)
      {
        assert AgreesAt(fn, before, c, i);
      }
    }
    forall c: nat | c < |fn.blocks| && c != b && EdgesCovered(fn, before, c)
      ensures EdgesCovered(fn, after, c)
    {
      forall t | t in Successors(fn, c)
        ensures after[Point(t, 0)] <= after[End(fn, c)]
      {
        assert IsPoint(fn, Point(t, 0)) && Point(t, 0) != End(fn, b);
      }
    }
  }

  /** A block has been visited down to instruction `i`: what has been visited agrees, the
      rest is as at the start, and any change has brought the sweep nearer to its end. */
  ghost predicate VisitedDownTo(fn: Function, start: Facts, now: Facts, b: nat, i: nat, changed: bool)
    requires Domain(fn, start) && b < |fn.blocks|
  {
    && Invariant(fn, now)
    && InstructionsAgree(fn, now, b, i)
    && (forall p :: p in now && (p.block != b || p == End(fn, b) || p.index < i) ==> now[p] == start[p])
    && (!changed ==> now == start)
    && Missing(fn, now) <= Missing(fn, start)
    && (changed ==> Missing(fn, now) < Missing(fn, start))
  }

  lemma VisitAgrees(fn: Function, facts: Facts, b: nat, i: nat)
    requires Domain(fn, facts) && IsInstruction(fn, b, i) && InstructionsAgree(fn, facts, b, i + 1)
    ensures var after := facts[Point(b, i) := Transfer(fn.blocks[b][i], Reg(b, i), facts[Point(b, i + 1)])];
            Domain(fn, after) && InstructionsAgree(fn, after, b, i)
  {
    var after := facts[Point(b, i) := Transfer(fn.blocks[b][i], Reg(b, i), facts[Point(b, i + 1)])];
    assert AgreesAt(fn, after, b, i);
    forall j: nat | i <= j && IsInstruction(fn, b, j)
      ensures AgreesAt(fn, after, b, j)
    {
      assert j > i ==> AgreesAt(fn, facts, b, j);
    }
  }

  lemma VisitStep(fn: Function, start: Facts, now: Facts, b: nat, i: nat, changed: bool)
    requires Domain(fn, start) && IsInstruction(fn, b, i) && VisitedDownTo(fn, start, now, b, i + 1, changed)
    ensures var after := now[Point(b, i) := Transfer(fn.blocks[b][i], Reg(b, i), now[Point(b, i + 1)])];
            VisitedDownTo(fn, start, after, b, i, changed || after[Point(b, i)] != now[Point(b, i)])
  {
    var in_ := Transfer(fn.blocks[b][i], Reg(b, i), now[Point(b, i + 1)]);
    var after := now[Point(b, i) := in_];
    VisitKeepsInvariant(fn, now, b, i, in_);
    VisitAgrees(fn, now, b, i);
    GrowthShrinksMissing(fn, now, after);
  }

  // ----- The pass -----

  /** The transfer functions, editing a copy of the output fact in place. */
  method InputFact(inst: Instr, self: Value, previous: Fact, out: Fact) returns (in_: Fact)
    requires inst.RetVoid? ==> previous == {}
    ensures in_ == Transfer(inst, self, out)
  {
    in_ := out;
    match inst {
      case Ret(returned) =>
        in_ := in_ + {returned};
      case RetVoid =>
        in_ := previous;  // the pass leaves the fact as it was
      case Store(sender, receiver) =>
        in_ := in_ - {receiver};
        if receiver in out {
          in_ := in_ + {sender};
        }
      case Load(address) =>
        in_ := in_ - {self};
        if self in out {
          in_ := in_ + {address};
        }
      case Cast(_, source) =>
        in_ := in_ - {self};
        if self in out {
          in_ := in_ + {source};
        }
      case Call(callee, args) =>
        if callee.Direct? && IsErrFunction(callee.name) {
          if self in out {
            in_ := in_ + {Operands(inst)[0]};
          }
        }
      case _ =>
    }
  }

  class ReturnedValuesPass {
    const fn: Function
    var facts: Facts

    ghost predicate Valid()
      reads this
    {
      Invariant(fn, facts)
    }

    constructor (fn: Function)
      requires WellFormed(fn)
      ensures Valid() && this.fn == fn
    {
      this.fn := fn;
      this.facts := map p | p in Points(fn) :: {};
    }

    /** Rewrites the input fact of one instruction from its output fact. */
    method VisitInstruction(b: nat, i: nat)
      requires Valid() && IsInstruction(fn, b, i)
      modifies this
      ensures Valid()
      ensures facts == old(facts)[Point(b, i) := Transfer(fn.blocks[b][i], Reg(b, i), old(facts)[Point(b, i + 1)])]
      ensures Grown(old(facts), facts)
    {
      InputLags(fn, facts, b, i, Transfer(fn.blocks[b][i], Reg(b, i), facts[Point(b, i + 1)]));
      var in_ := InputFact(fn.blocks[b][i], Reg(b, i), facts[Point(b, i)], facts[Point(b, i + 1)]);
      VisitKeepsInvariant(fn, facts, b, i, in_);
      facts := facts[Point(b, i) := in_];
    }

    /** Visits the instructions of a block from last to first. */
    method VisitBlock(b: nat) returns (changed: bool)
      requires Valid() && b < |fn.blocks|
      modifies this
      ensures Valid() && InstructionsAgree(fn, facts, b, 0)
      ensures VisitedDownTo(fn, old(facts), facts, b, 0, changed)
    {
      changed := false;
      var i := Length(fn, b);
      while i > 0
        invariant 0 <= i <= Length(fn, b)
        invariant VisitedDownTo(fn, old(facts), facts, b, i, changed)
      {
        i := i - 1;
        VisitStep(fn, old(facts), facts, b, i, changed);
        var previous := facts[Point(b, i)];
        VisitInstruction(b, i);
        changed := changed || facts[Point(b, i)] != previous;
      }
    }

    /** Joins the facts of all successors into the last output fact of a block. */
    method JoinSuccessors(b: nat)
      requires Valid() && b < |fn.blocks|
      modifies this
      ensures Valid() && Grown(old(facts), facts)
      ensures EdgesCovered(fn, facts, b)
      ensures forall p :: p in facts && p != End(fn, b) ==> facts[p] == old(facts)[p]
    {
      var todo := Successors(fn, b);
      ghost var done := {};
      while todo != {}
        invariant done + todo == Successors(fn, b)
        invariant Valid() && Grown(old(facts), facts)
        invariant EdgesTo(fn, facts, b, done)
        invariant forall p :: p in facts && p != End(fn, b) ==> facts[p] == old(facts)[p]
        decreases todo
      {
        var t :| t in todo;
        JoinKeepsInvariant(fn, facts, b, t);
        JoinCoversEdge(fn, facts, b, done, t);
        facts := facts[End(fn, b) := facts[End(fn, b)] + facts[Point(t, 0)]];
        todo := todo - {t};
        done := done + {t};
      }
      assert done == Successors(fn, b);
    }

    /** Sweeps over the blocks until no input fact changes; the result is exact. */
    method Run()
      requires Valid()
      modifies this
      ensures Valid() && Exact(fn, facts) && IsFixpoint(fn, facts)
    {
      var changed := true;
      while changed
        invariant Valid()
        invariant !changed ==> IsFixpoint(fn, facts)
        decreases Missing(fn, facts), changed
      {
        changed := false;
        ghost var start := facts;
        var b := 0;
        while b < |fn.blocks|
          invariant b <= |fn.blocks|
          invariant Valid()
          invariant Missing(fn, facts) <= Missing(fn, start)
          invariant changed ==> Missing(fn, facts) < Missing(fn, start)
          invariant !changed ==>
            forall c: nat | c < b :: InstructionsAgree(fn, facts, c, 0) && EdgesCovered(fn, facts, c)
        {
          ghost var before := facts;
          JoinSuccessors(b);
          GrowthShrinksMissing(fn, before, facts);
          var blockChanged := VisitBlock(b);
          changed := blockChanged || changed;
          if !changed {
            KeepsAgreement(fn, before, facts, b);
          }
          b := b + 1;
        }
      }
      FixpointIsExact(fn, facts);
    }
  }
}
