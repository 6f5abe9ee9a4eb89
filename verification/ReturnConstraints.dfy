/** The return-constraints pass: for each called function, the signs its result can
    have where a block executes.

    A tested callee is killed in the output fact of the branch, and the narrowed
    constraint is joined straight into the entry of each successor. `changed` watches
    output facts only; the sweep is nevertheless proved to end in a post-fixpoint of
    the edge-sensitive equations. */
module ReturnConstraints {
  import opened SignLattice
  import opened SignFacts
  import opened Cardinality
  import opened IR
  import opened ICmpAbstraction
  import opened BranchTests
  import opened Provenance
  import opened Trails
  import RP = ReturnPropagation

  type Fact = map<string, Sign>
  type Facts = map<Point, Fact>

  /** A function and the facts of the return-propagation pass over it. */
  datatype Context = Context(fn: Function, propagation: RP.Facts) {
    ghost predicate Valid() {
      WellFormed(fn) && RegistersAreBlockLocal(fn) && propagation.Keys == Points(fn)
    }
  }

  // ----- What a branch tests -----

  /** The name a call is known by; a call that is not resolved has the empty name. */
  function CalleeName(inst: Instr): string
    requires inst.Call?
  {
    if inst.callee.Direct? then inst.callee.name else ""
  }

  /** The values that may be in an instruction's result just after it. */
  function HeldBy(c: Context, v: Value): set<Value>
    requires c.Valid() && Definition(c.fn, v).Some?
  {
    assert IsPoint(c.fn, Point(v.block, v.index + 1));
    RP.Get(c.propagation[Point(v.block, v.index + 1)], v)
  }

  predicate IsCallResult(fn: Function, v: Value) {
    Definition(fn, v).Some? && Definition(fn, v).value.Call?
  }

  function NamesIn(fn: Function, values: set<Value>): set<string> {
    set r | r in values && IsCallResult(fn, r) :: CalleeName(Definition(fn, r).value)
  }

  /** The functions whose result may be in the tested value. */
  function TestedNames(c: Context, v: Value): set<string>
    requires c.Valid() && Definition(c.fn, v).Some?
  {
    NamesIn(c.fn, HeldBy(c, v))
  }

  /** The operand of a comparison that is an instruction, the first one first. */
  function ComparedValue(fn: Function, x: Value, y: Value): Option<Value> {
    if Definition(fn, x).Some? then Some(x) else if Definition(fn, y).Some? then Some(y) else None
  }

  /** The value that the last instruction of a block tests. A switch without cases
      tests nothing. */
  function TestedValue(fn: Function, b: nat): Option<Value>
    requires WellFormed(fn) && b < |fn.blocks| && WellFormedBlock(fn, b)
  {
    match Last(fn, b)
    case CondBr(condition, _, _) =>
      (match Definition(fn, condition)
       case Some(ICmp(_, x, y)) => ComparedValue(fn, x, y)
       case _ => None)
    case Switch(condition, cases, _) =>
      if cases != [] && Definition(fn, condition).Some? then Some(condition) else None
    case _ => None
  }

  function Tested(c: Context, b: nat): set<string>
    requires c.Valid() && b < |c.fn.blocks| && WellFormedBlock(c.fn, b)
  {
    var v := TestedValue(c.fn, b);
    if v.Some? && Definition(c.fn, v.value).Some? then TestedNames(c, v.value) else {}
  }

  // ----- Output facts -----

  function Killed(x: Fact, names: set<string>): Fact {
    map k | k in x.Keys + names :: if k in names then Bottom else x[k]
  }

  function Transfer(c: Context, b: nat, i: nat, in_: Fact): Fact
    requires c.Valid() && IsInstruction(c.fn, b, i)
  {
    match c.fn.blocks[b][i]
    case Call(_, _) => in_[CalleeName(c.fn.blocks[b][i]) := Top]
    case _ =>
      assert WellFormedBlock(c.fn, b);
      if i == LastIndex(c.fn, b) then Killed(in_, Tested(c, b)) else in_
  }

  // ----- Pushes -----

  datatype Push = Push(target: nat, name: string, sign: Sign)

  /** The constraint for one outcome: the test, met with what was known before. */
  function Narrow(in_: Fact, name: string, test: Sign): Sign {
    if name in in_ then Glb(test, in_[name]) else test
  }

  function PushesTo(in_: Fact, names: set<string>, target: nat, test: Sign): set<Push> {
    set name | name in names :: Push(target, name, Narrow(in_, name, test))
  }

  /** Each tested function, for each successor that the test speaks of. The default
      successor of a switch gets nothing. */
  function Pushes(c: Context, b: nat, in_: Fact): set<Push>
    requires c.Valid() && b < |c.fn.blocks| && WellFormedBlock(c.fn, b)
  {
    var names := Tested(c, b);
    match Last(c.fn, b)
    case CondBr(condition, onTrue, onFalse) =>
      (match Definition(c.fn, condition)
       case Some(ICmp(p, x, y)) =>
         PushesTo(in_, names, onTrue, AbstractICmp(p, x, y).onTrue) +
         PushesTo(in_, names, onFalse, AbstractICmp(p, x, y).onFalse)
       case _ => {})
    case Switch(_, cases, _) =>
      set k, name | 0 <= k < |cases| && name in names ::
        Push(cases[k].target, name, Narrow(in_, name, AbstractInteger(cases[k].value)))
    case _ => {}
  }

  // ----- What a block tests, and what its successors hear of it -----

  /** The value the last instruction of a block tests: the first operand of a comparison if
      that is an instruction, or else the second; the condition of a switch with cases. */
  ghost predicate IsTestedValue(fn: Function, b: nat, v: Value)
    requires WellFormed(fn) && b < |fn.blocks| && WellFormedBlock(fn, b)
  {
    Definition(fn, v).Some? &&
    match Last(fn, b)
    case CondBr(condition, _, _) =>
      (match Definition(fn, condition)
       case Some(ICmp(_, x, y)) => v == x || (v == y && Definition(fn, x).None?)
       case _ => false)
    case Switch(condition, cases, _) => v == condition && cases != []
    case _ => false
  }

  /** The value is the result of a call that goes by the name. */
  predicate IsCallNamed(fn: Function, v: Value, name: string) {
    && Definition(fn, v).Some? && Definition(fn, v).value.Call?
    && (match Definition(fn, v).value.callee
        case Direct(_, its, _) => name == its
        case Indirect(_) => name == "")
  }

  /** A call of that name may have given the tested value, as the return-propagation pass
      has it just after the instruction that defines the value. */
  ghost predicate TestsCallOf(c: Context, b: nat, name: string)
    requires c.Valid() && b < |c.fn.blocks| && WellFormedBlock(c.fn, b)
  {
    exists v, r :: IsTestedValue(c.fn, b, v) && MayHold(c, v, r) && IsCallNamed(c.fn, r, name)
  }

  ghost predicate MayHold(c: Context, v: Value, r: Value) {
    && v.Reg? && Point(v.block, v.index + 1) in c.propagation
    && v in c.propagation[Point(v.block, v.index + 1)]
    && r in c.propagation[Point(v.block, v.index + 1)][v]
  }

  lemma NamesInMeans(fn: Function, values: set<Value>, name: string)
    ensures name in NamesIn(fn, values) <==> exists r :: r in values && IsCallNamed(fn, r, name)
  {
    if name in NamesIn(fn, values) {
      var r :| r in values && IsCallResult(fn, r) && CalleeName(Definition(fn, r).value) == name;
      assert IsCallNamed(fn, r, name);
    }
  }

  lemma TestedValueMeans(fn: Function, b: nat, v: Value)
    requires WellFormed(fn) && b < |fn.blocks| && WellFormedBlock(fn, b)
    ensures TestedValue(fn, b) == Some(v) <==> IsTestedValue(fn, b, v)
  {
  }

  lemma TestedMeans(c: Context, b: nat, name: string)
    requires c.Valid() && b < |c.fn.blocks| && WellFormedBlock(c.fn, b)
    ensures name in Tested(c, b) <==> TestsCallOf(c, b, name)
  {
    if v :| IsTestedValue(c.fn, b, v) {
      TestedValueMeans(c.fn, b, v);
      assert IsPoint(c.fn, Point(v.block, v.index + 1));
      NamesInMeans(c.fn, HeldBy(c, v), name);
      assert forall r :: r in HeldBy(c, v) <==> MayHold(c, v, r);
      forall w | IsTestedValue(c.fn, b, w)
        ensures w == v
      {
        TestedValueMeans(c.fn, b, w);
      }
    } else if TestedValue(c.fn, b).Some? {
      TestedValueMeans(c.fn, b, TestedValue(c.fn, b).value);
    }
  }

  /** A successor hears of the function that the test lets through what the constraint
      before the test, if there is one, does not exclude. */
  ghost predicate Hears(c: Context, b: nat, in_: Fact, target: nat, name: string, x: int)
    requires c.Valid() && b < |c.fn.blocks| && WellFormedBlock(c.fn, b)
  {
    && TestsCallOf(c, b, name) && LetsThrough(c.fn, Last(c.fn, b), target, x)
    && (name in in_ ==> In(x, in_[name]))
  }

  ghost predicate PushTo(pushes: set<Push>, target: nat, name: string) {
    exists p :: p in pushes && p.target == target && p.name == name
  }

  ghost predicate PushOf(pushes: set<Push>, target: nat, name: string, x: int) {
    exists p :: p in pushes && p.target == target && p.name == name && In(x, p.sign)
  }

  /** A narrowed constraint contains exactly what the test and the incoming constraint, if
      there is one, both contain. */
  lemma NarrowMeans(in_: Fact, name: string, test: Sign, x: int)
    ensures In(x, Narrow(in_, name, test)) <==> In(x, test) && (name in in_ ==> In(x, in_[name]))
  {
    if name in in_ {
      InGlb(x, test, in_[name]);
    }
  }

  lemma PushesToMean(in_: Fact, names: set<string>, successor: nat, test: Sign, target: nat, name: string, x: int)
    ensures PushTo(PushesTo(in_, names, successor, test), target, name) <==> target == successor && name in names
    ensures PushOf(PushesTo(in_, names, successor, test), target, name, x) <==>
              target == successor && name in names && In(x, test) && (name in in_ ==> In(x, in_[name]))
  {
    var pushes := PushesTo(in_, names, successor, test);
    if name in names {
      NarrowMeans(in_, name, test, x);
      assert Push(successor, name, Narrow(in_, name, test)) in pushes;
    }
  }

  /** The pushes of a block, by meaning. */
  lemma PushesMean(c: Context, b: nat, in_: Fact, target: nat, name: string, x: int)
    requires c.Valid() && b < |c.fn.blocks| && WellFormedBlock(c.fn, b)
    ensures PushTo(Pushes(c, b, in_), target, name) <==>
              TestsCallOf(c, b, name) && SpeaksOf(c.fn, Last(c.fn, b), target)
    ensures PushOf(Pushes(c, b, in_), target, name, x) <==> Hears(c, b, in_, target, name, x)
  {
    TestedMeans(c, b, name);
    var pushes := Pushes(c, b, in_);
    var names := Tested(c, b);
    match Last(c.fn, b)
    case CondBr(condition, onTrue, onFalse) =>
      if Definition(c.fn, condition).Some? && Definition(c.fn, condition).value.ICmp? {
        var icmp := Definition(c.fn, condition).value;
        var test := AbstractICmp(icmp.predicate_, icmp.x, icmp.y);
        PushesToMean(in_, names, onTrue, test.onTrue, target, name, x);
        PushesToMean(in_, names, onFalse, test.onFalse, target, name, x);
        assert forall p :: p in pushes <==>
          p in PushesTo(in_, names, onTrue, test.onTrue) || p in PushesTo(in_, names, onFalse, test.onFalse);
      }
    case Switch(_, cases, _) =>
      forall k | 0 <= k < |cases| && name in names
        ensures var p := Push(cases[k].target, name, Narrow(in_, name, AbstractInteger(cases[k].value)));
                p in pushes && (In(x, p.sign) <==> SameSign(x, cases[k].value) && (name in in_ ==> In(x, in_[name])))
      {
        AbstractIntegerMeans(x, cases[k].value);
        NarrowMeans(in_, name, AbstractInteger(cases[k].value), x);
      }
    case _ =>
  }

  /** What an instruction does to the constraint of one name, by kinds: a call of that name
      allows every result, a test of it leaves nothing, and all else passes it on. */
  lemma TransferMeans(c: Context, b: nat, i: nat, in_: Fact, name: string)
    requires c.Valid() && IsInstruction(c.fn, b, i)
    ensures WellFormedBlock(c.fn, b)
    ensures var out := Transfer(c, b, i, in_);
            var isCall := IsCallNamed(c.fn, Reg(b, i), name);
            var isTest := i == LastIndex(c.fn, b) && TestsCallOf(c, b, name);
            && (name in out <==> name in in_ || isCall || isTest)
            && (name in out ==> forall x ::
                  In(x, out[name]) <==> isCall || (!isTest && name in in_ && In(x, in_[name])))
  {
    assert WellFormedBlock(c.fn, b);
    TestedMeans(c, b, name);
  }

  // ----- Where a constraint comes from -----

  /** The instruction before the point is a call of that name, or the point is the start of
      a block that some test of the name lets the integer through to. */
  ghost predicate LetIn(c: Context, name: string, x: int, p: Point)
    requires c.Valid()
  {
    if p.index > 0 then
      IsInstruction(c.fn, p.block, p.index - 1) && IsCallNamed(c.fn, Reg(p.block, p.index - 1), name)
    else
      exists b: nat :: LetThroughBy(c, b, p.block, name, x)
  }

  ghost predicate LetThroughBy(c: Context, b: nat, target: nat, name: string, x: int)
    requires c.Valid()
  {
    && b < |c.fn.blocks| && WellFormedBlock(c.fn, b)
    && TestsCallOf(c, b, name) && LetsThrough(c.fn, Last(c.fn, b), target, x)
  }

  /** A step along the function that does not pass a test of the name. */
  ghost predicate StepsUntested(c: Context, name: string, p: Point, q: Point)
    requires c.Valid()
  {
    && IsPoint(c.fn, p) && PathStep(c.fn, p, q)
    && !(WellFormedBlock(c.fn, p.block) && p.index == LastIndex(c.fn, p.block) && TestsCallOf(c, p.block, name))
  }

  ghost function LettingIn(c: Context, name: string, x: int): Point -> bool {
    p => c.Valid() && LetIn(c, name, x, p)
  }

  ghost function SteppingUntested(c: Context, name: string): (Point, Point) -> bool {
    (p, q) => c.Valid() && StepsUntested(c, name, p, q)
  }

  /** Some path leads to the point from a call of the name, or from a test of it that lets
      the integer through, and meets no other test of it. */
  ghost predicate Allowed(c: Context, name: string, x: int, p: Point) {
    Reaches(LettingIn(c, name, x), SteppingUntested(c, name), p)
  }

  lemma AllowedNext(c: Context, name: string, x: int, p: Point, q: Point)
    requires c.Valid() && Allowed(c, name, x, p) && StepsUntested(c, name, p, q)
    ensures Allowed(c, name, x, q)
  {
    ReachesNext(LettingIn(c, name, x), SteppingUntested(c, name), p, q);
  }

  lemma AllowedHere(c: Context, name: string, x: int, p: Point)
    requires c.Valid() && LetIn(c, name, x, p)
    ensures Allowed(c, name, x, p)
  {
    ReachesStart(LettingIn(c, name, x), SteppingUntested(c, name), p);
  }

  ghost predicate FactJustified(c: Context, p: Point, fact: Fact)
    requires c.Valid()
  {
    forall name, x | name in fact && In(x, fact[name]) :: Allowed(c, name, x, p)
  }

  /** No constraint contains an integer without such a path. */
  ghost predicate Justified(c: Context, facts: Facts)
    requires c.Valid()
  {
    forall p | p in facts :: FactJustified(c, p, facts[p])
  }

  lemma TransferJustified(c: Context, b: nat, i: nat, in_: Fact)
    requires c.Valid() && IsInstruction(c.fn, b, i) && FactJustified(c, Point(b, i), in_)
    ensures FactJustified(c, Point(b, i + 1), Transfer(c, b, i, in_))
  {
    var out := Transfer(c, b, i, in_);
    forall name, x | name in out && In(x, out[name])
      ensures Allowed(c, name, x, Point(b, i + 1))
    {
      TransferMeans(c, b, i, in_, name);
      if IsCallNamed(c.fn, Reg(b, i), name) {
        AllowedHere(c, name, x, Point(b, i + 1));
      } else {
        AllowedNext(c, name, x, Point(b, i), Point(b, i + 1));
      }
    }
  }

  lemma EdgeJustified(c: Context, p: nat, b: nat, fact: Fact)
    requires c.Valid() && b < |c.fn.blocks| && p in Predecessors(c.fn, b) && FactJustified(c, End(c.fn, p), fact)
    ensures FactJustified(c, Point(b, 0), fact)
  {
    forall name, x | name in fact && In(x, fact[name])
      ensures Allowed(c, name, x, Point(b, 0))
    {
      AllowedNext(c, name, x, End(c.fn, p), Point(b, 0));
    }
  }

  lemma JoinedJustified(c: Context, p: Point, x: Fact, y: Fact)
    requires c.Valid() && FactJustified(c, p, x) && FactJustified(c, p, y)
    ensures FactJustified(c, p, Joined(x, y))
  {
    var z := Joined(x, y);
    forall name, k | name in z && In(k, z[name])
      ensures Allowed(c, name, k, p)
    {
      InByAtoms(k, z[name]);
      if name in x {
        InByAtoms(k, x[name]);
      }
      if name in y {
        InByAtoms(k, y[name]);
      }
    }
  }

  /** A test justifies what it pushes. */
  lemma TestJustified(c: Context, before: Facts, b: nat, in_: Fact, now: Facts)
    requires Shape(c, before) && Justified(c, before) && b < |c.fn.blocks| && WellFormedBlock(c.fn, b)
    requires TestHeard(c, before, b, in_, now)
    ensures Justified(c, now)
  {
    forall p | p in now
      ensures FactJustified(c, p, now[p])
    {
      assert FactJustified(c, p, before[p]);
      forall name, x | name in now[p] && In(x, now[p][name])
        ensures Allowed(c, name, x, p)
      {
        if p.index == 0 {
          assert p == Point(p.block, 0) && EntryHears(c, before, b, in_, now, p.block, name);
          if Hears(c, b, in_, p.block, name, x) {
            assert LetThroughBy(c, b, p.block, name, x);
            AllowedHere(c, name, x, p);
          }
        }
      }
    }
  }

  // ----- Invariants -----

  type Seen = map<nat, Fact>

  ghost predicate Shape(c: Context, facts: Facts) {
    c.Valid() && facts.Keys == Points(c.fn)
  }

  function InAt(facts: Facts, entry: Fact, b: nat, i: nat): Fact
    requires i > 0 ==> Point(b, i) in facts
  {
    if i == 0 then entry else facts[Point(b, i)]
  }

  ghost predicate AgreesAt(c: Context, facts: Facts, entry: Fact, b: nat, i: nat)
    requires Shape(c, facts) && IsInstruction(c.fn, b, i)
  {
    facts[Point(b, i + 1)] == Transfer(c, b, i, InAt(facts, entry, b, i))
  }

  ghost predicate Consistent(c: Context, facts: Facts, entry: Fact, b: nat, to: int)
    requires Shape(c, facts) && b < |c.fn.blocks|
  {
    forall i: nat | i < to && IsInstruction(c.fn, b, i) :: AgreesAt(c, facts, entry, b, i)
  }

  ghost predicate Untouched(c: Context, facts: Facts, b: nat)
    requires Shape(c, facts) && b < |c.fn.blocks|
  {
    forall i: nat | IsInstruction(c.fn, b, i) :: facts[Point(b, i + 1)] == map[]
  }

  ghost predicate PushCovered(c: Context, facts: Facts, p: Push)
    requires Shape(c, facts)
  {
    p.target < |c.fn.blocks| && Covers(facts[Point(p.target, 0)], p.name, p.sign)
  }

  ghost predicate AllCovered(c: Context, facts: Facts, pushes: set<Push>)
    requires Shape(c, facts)
  {
    forall p :: p in pushes ==> PushCovered(c, facts, p)
  }

  function LastIn(c: Context, facts: Facts, b: nat): Fact
    requires Shape(c, facts) && b < |c.fn.blocks|
  {
    assert WellFormedBlock(c.fn, b) && IsPoint(c.fn, Point(b, LastIndex(c.fn, b)));
    facts[Point(b, LastIndex(c.fn, b))]
  }

  /** Edge sensitivity: each successor covers (test and incoming constraint). */
  ghost predicate Absorbed(c: Context, facts: Facts, b: nat)
    requires Shape(c, facts) && b < |c.fn.blocks|
  {
    AllCovered(c, facts, Pushes(c, b, LastIn(c, facts, b)))
  }

  ghost predicate EdgesInto(c: Context, facts: Facts, b: nat, done: set<nat>)
    requires Shape(c, facts) && b < |c.fn.blocks|
  {
    forall p | p in done && p < |c.fn.blocks| :: Below(facts[End(c.fn, p)], facts[Point(b, 0)])
  }

  ghost predicate Settled(c: Context, facts: Facts, b: nat)
    requires Shape(c, facts) && b < |c.fn.blocks|
  {
    && Consistent(c, facts, facts[Point(b, 0)], b, Length(c.fn, b))
    && EdgesInto(c, facts, b, Predecessors(c.fn, b))
    && Absorbed(c, facts, b)
  }

  /** The equations of every instruction, edge and test. */
  ghost predicate IsPostFixpoint(c: Context, facts: Facts) {
    Shape(c, facts) && forall b: nat | b < |c.fn.blocks| :: Settled(c, facts, b)
  }

  ghost predicate BlockInvariant(c: Context, facts: Facts, seen: Seen, b: nat)
    requires Shape(c, facts) && b < |c.fn.blocks|
  {
    if b in seen then
      && Consistent(c, facts, seen[b], b, Length(c.fn, b))
      && Below(seen[b], facts[Point(b, 0)])
      && Absorbed(c, facts, b)
    else
      Untouched(c, facts, b)
  }

  /** The names of the functions a function calls. */
  function Names(fn: Function): set<string> {
    set b: nat, i: nat | b < |fn.blocks| && i < |fn.blocks[b]| && fn.blocks[b][i].Call? :: CalleeName(fn.blocks[b][i])
  }

  ghost predicate Bounded(c: Context, facts: Facts)
    requires Shape(c, facts)
  {
    forall p | p in facts :: facts[p].Keys <= Names(c.fn)
  }

  ghost predicate Invariant(c: Context, facts: Facts, seen: Seen) {
    && Shape(c, facts) && Bounded(c, facts) && Justified(c, facts)
    && (forall b :: b in seen ==> b < |c.fn.blocks|)
    && (forall b: nat | b < |c.fn.blocks| :: BlockInvariant(c, facts, seen, b))
  }

  lemma TestedAreNames(c: Context, b: nat)
    requires c.Valid() && b < |c.fn.blocks| && WellFormedBlock(c.fn, b)
    ensures Tested(c, b) <= Names(c.fn)
  {
  }

  /** A block that tests has an instruction before its last one. */
  lemma TestIsNotFirst(c: Context, b: nat)
    requires c.Valid() && b < |c.fn.blocks| && WellFormedBlock(c.fn, b) && Tested(c, b) != {}
    ensures LastIndex(c.fn, b) >= 1
  {
    var last := Last(c.fn, b);
    assert last.condition in Operands(c.fn.blocks[b][LastIndex(c.fn, b)]);
  }

  lemma PushesAreOfTested(c: Context, b: nat, in_: Fact)
    requires c.Valid() && b < |c.fn.blocks| && WellFormedBlock(c.fn, b)
    ensures forall p :: p in Pushes(c, b, in_) ==>
              p.target < |c.fn.blocks| && p.name in Names(c.fn) && p.name in Tested(c, b)
  {
    TestedAreNames(c, b);
    forall p | p in Pushes(c, b, in_)
      ensures p.target < |c.fn.blocks|
    {
      var last := Last(c.fn, b);
      if last.Switch? {
        assert CaseTargets(last.cases) <= Successors(c.fn, b);
      }
      assert p.target in Successors(c.fn, b);
    }
  }

  ghost predicate EntriesGrow(c: Context, before: Facts, after: Facts)
    requires Shape(c, before) && Shape(c, after)
  {
    && (forall p | p in before && p.index > 0 :: after[p] == before[p])
    && (forall b: nat | b < |c.fn.blocks| :: EntryGrows(c, before, after, b))
  }

  ghost predicate EntryGrows(c: Context, before: Facts, after: Facts, b: nat)
    requires Shape(c, before) && Shape(c, after) && b < |c.fn.blocks|
  {
    Below(before[Point(b, 0)], after[Point(b, 0)])
  }

  lemma EntriesGrowTransitive(c: Context, x: Facts, y: Facts, z: Facts)
    requires Shape(c, x) && Shape(c, y) && Shape(c, z)
    requires EntriesGrow(c, x, y) && EntriesGrow(c, y, z)
    ensures EntriesGrow(c, x, z)
  {
    forall b: nat | b < |c.fn.blocks|
      ensures EntryGrows(c, x, z, b)
    {
      assert EntryGrows(c, x, y, b) && EntryGrows(c, y, z, b);
      BelowTransitive(x[Point(b, 0)], y[Point(b, 0)], z[Point(b, 0)]);
    }
  }

  lemma CoveredStays(c: Context, before: Facts, after: Facts, p: Push)
    requires Shape(c, before) && Shape(c, after) && EntriesGrow(c, before, after)
    requires PushCovered(c, before, p)
    ensures PushCovered(c, after, p)
  {
    assert EntryGrows(c, before, after, p.target);
  }

  /** Tests look at a fact that pushes do not touch. */
  lemma PushesStable(c: Context, before: Facts, after: Facts, b: nat)
    requires Shape(c, before) && Shape(c, after) && b < |c.fn.blocks| && WellFormedBlock(c.fn, b)
    requires forall p | p in before && p.block == b && p.index > 0 :: after[p] == before[p]
    ensures Pushes(c, b, LastIn(c, after, b)) == Pushes(c, b, LastIn(c, before, b))
  {
    if Tested(c, b) != {} {
      TestIsNotFirst(c, b);
      assert IsPoint(c.fn, Point(b, LastIndex(c.fn, b)));
    } else {
      PushesAreOfTested(c, b, LastIn(c, before, b));
      PushesAreOfTested(c, b, LastIn(c, after, b));
    }
  }

  lemma ConsistentStable(c: Context, before: Facts, after: Facts, entry: Fact, b: nat)
    requires Shape(c, before) && Shape(c, after) && b < |c.fn.blocks|
    requires forall p | p in before && p.block == b && p.index > 0 :: after[p] == before[p]
    ensures Consistent(c, before, entry, b, Length(c.fn, b)) ==> Consistent(c, after, entry, b, Length(c.fn, b))
    ensures Untouched(c, before, b) ==> Untouched(c, after, b)
  {
    forall i: nat | IsInstruction(c.fn, b, i)
      ensures IsPoint(c.fn, Point(b, i + 1)) && after[Point(b, i + 1)] == before[Point(b, i + 1)]
    {
      assert IsPoint(c.fn, Point(b, i + 1));
    }
    if Consistent(c, before, entry, b, Length(c.fn, b)) {
      forall i: nat | i < Length(c.fn, b) && IsInstruction(c.fn, b, i)
        ensures AgreesAt(c, after, entry, b, i)
      {
        assert AgreesAt(c, before, entry, b, i);
        assert IsPoint(c.fn, Point(b, i));
      }
    }
  }

  /** Blocks whose output facts stay keep their invariant while entries grow. */
  lemma BlockInvariantStable(c: Context, before: Facts, after: Facts, seen: Seen, b: nat)
    requires Shape(c, before) && Shape(c, after) && b < |c.fn.blocks|
    requires forall p | p in before && p.block == b && p.index > 0 :: after[p] == before[p]
    requires forall t: nat | t < |c.fn.blocks| :: EntryGrows(c, before, after, t)
    requires BlockInvariant(c, before, seen, b)
    ensures BlockInvariant(c, after, seen, b)
  {
    assert WellFormedBlock(c.fn, b);
    assert EntryGrows(c, before, after, b);
    if b in seen {
      ConsistentStable(c, before, after, seen[b], b);
      BelowTransitive(seen[b], before[Point(b, 0)], after[Point(b, 0)]);
      PushesStable(c, before, after, b);
      forall p | p in Pushes(c, b, LastIn(c, after, b))
        ensures PushCovered(c, after, p)
      {
        assert PushCovered(c, before, p);
        assert EntryGrows(c, before, after, p.target);
      }
    } else {
      ConsistentStable(c, before, after, map[], b);
    }
  }

  lemma EntriesGrowKeepsInvariant(c: Context, before: Facts, after: Facts, seen: Seen)
    requires Invariant(c, before, seen) && Shape(c, after) && Bounded(c, after) && Justified(c, after)
    requires EntriesGrow(c, before, after)
    ensures Invariant(c, after, seen)
  {
    forall b: nat | b < |c.fn.blocks|
      ensures BlockInvariant(c, after, seen, b)
    {
      BlockInvariantStable(c, before, after, seen, b);
    }
  }

  // ----- Visiting a test -----

  /** Exactly the pushes have been joined into the entries. */
  ghost predicate EntryPushed(before: Facts, now: Facts, pushes: set<Push>, target: nat, name: string)
    requires Point(target, 0) in before && Point(target, 0) in now
  {
    var was, is_ := before[Point(target, 0)], now[Point(target, 0)];
    && (name in is_ <==> name in was || PushTo(pushes, target, name))
    && (name in is_ ==> forall x ::
          In(x, is_[name]) <==> (name in was && In(x, was[name])) || PushOf(pushes, target, name, x))
  }

  ghost predicate ExactlyPushed(c: Context, before: Facts, now: Facts, pushes: set<Push>)
    requires Shape(c, before) && Shape(c, now)
  {
    && (forall p | p in before && p.index > 0 :: now[p] == before[p])
    && forall target: nat, name | Point(target, 0) in before :: EntryPushed(before, now, pushes, target, name)
  }

  /** Some pushes have been joined, and nothing else has moved. */
  ghost predicate Pushing(c: Context, before: Facts, now: Facts, all: set<Push>, pushed: set<Push>)
    requires Shape(c, before)
  {
    && Shape(c, now) && Bounded(c, now)
    && ExactlyPushed(c, before, now, pushed)
    && EntriesGrow(c, before, now) && AllCovered(c, now, pushed)
    && (AllCovered(c, before, all) ==> now == before)
  }

  lemma PushingStarts(c: Context, facts: Facts, all: set<Push>)
    requires Shape(c, facts) && Bounded(c, facts)
    ensures Pushing(c, facts, facts, all, {})
  {
  }

  lemma EntryPushedIsUnique(before: Facts, x: Facts, y: Facts, pushes: set<Push>, target: nat, name: string)
    requires Point(target, 0) in before && Point(target, 0) in x && Point(target, 0) in y
    requires EntryPushed(before, x, pushes, target, name) && EntryPushed(before, y, pushes, target, name)
    ensures var one, other := x[Point(target, 0)], y[Point(target, 0)];
            (name in one <==> name in other) && (name in one ==> one[name] == other[name])
  {
    var one, other := x[Point(target, 0)], y[Point(target, 0)];
    if name in one {
      LeqIsInclusion(one[name], other[name]);
      LeqIsInclusion(other[name], one[name]);
      LeqAntisymmetric(one[name], other[name]);
    }
  }

  /** So there is just one outcome, whatever the order of the pushes. */
  lemma PushingIsUnique(c: Context, before: Facts, x: Facts, y: Facts, pushes: set<Push>)
    requires Shape(c, before) && Pushing(c, before, x, pushes, pushes) && Pushing(c, before, y, pushes, pushes)
    ensures x == y
  {
    forall p | p in x && p.index == 0
      ensures x[p] == y[p]
    {
      assert p == Point(p.block, 0);
      EntriesPushedAreUnique(c, before, x, y, pushes, p.block);
    }
  }

  lemma EntriesPushedAreUnique(c: Context, before: Facts, x: Facts, y: Facts, pushes: set<Push>, target: nat)
    requires Shape(c, before) && Shape(c, x) && Shape(c, y) && Point(target, 0) in before
    requires ExactlyPushed(c, before, x, pushes) && ExactlyPushed(c, before, y, pushes)
    ensures x[Point(target, 0)] == y[Point(target, 0)]
  {
    forall name
      ensures var one, other := x[Point(target, 0)], y[Point(target, 0)];
              (name in one <==> name in other) && (name in one ==> one[name] == other[name])
    {
      EntryPushedIsUnique(before, x, y, pushes, target, name);
    }
  }

  /** The outcome is the least one: any facts above the earlier ones that cover the pushes
      are above it. */
  lemma PushingIsLeast(c: Context, before: Facts, now: Facts, pushes: set<Push>, other: Facts)
    requires Shape(c, before) && Pushing(c, before, now, pushes, pushes)
    requires Shape(c, other) && EntriesGrow(c, before, other) && AllCovered(c, other, pushes)
    ensures EntriesGrow(c, now, other)
  {
    forall t: nat | t < |c.fn.blocks|
      ensures EntryGrows(c, now, other, t)
    {
      assert IsPoint(c.fn, Point(t, 0)) && EntryGrows(c, before, other, t);
      var entry, bound := now[Point(t, 0)], other[Point(t, 0)];
      forall name | name in entry
        ensures name in bound && Leq(entry[name], bound[name])
      {
        assert EntryPushed(before, now, pushes, t, name);
        if PushTo(pushes, t, name) {
          var p :| p in pushes && p.target == t && p.name == name;
          assert PushCovered(c, other, p);
        }
        forall x | In(x, entry[name])
          ensures In(x, bound[name])
        {
          if PushOf(pushes, t, name, x) {
            var p :| p in pushes && p.target == t && p.name == name && In(x, p.sign);
            assert PushCovered(c, other, p);
            LeqIsInclusion(p.sign, bound[name]);
          } else {
            LeqIsInclusion(before[Point(t, 0)][name], bound[name]);
          }
        }
        LeqIsInclusion(entry[name], bound[name]);
      }
    }
  }

  /** A push joined in, and no more. */
  lemma ExactStep(c: Context, before: Facts, now: Facts, pushed: set<Push>, p: Push)
    requires Shape(c, before) && Shape(c, now) && ExactlyPushed(c, before, now, pushed)
    requires Point(p.target, 0) in now && Shape(c, JoinPush(now, p))
    ensures ExactlyPushed(c, before, JoinPush(now, p), pushed + {p})
  {
    var after := JoinPush(now, p);
    forall target: nat, name | Point(target, 0) in before
      ensures EntryPushed(before, after, pushed + {p}, target, name)
    {
      assert EntryPushed(before, now, pushed, target, name);
      PushToOneMore(pushed, p, target, name);
      if p.target == target && p.name == name {
        forall x
          ensures In(x, after[Point(target, 0)][name]) <==>
                    (name in now[Point(target, 0)] && In(x, now[Point(target, 0)][name])) || In(x, p.sign)
        {
          InByAtoms(x, p.sign);
          InByAtoms(x, after[Point(target, 0)][name]);
          if name in now[Point(target, 0)] {
            InByAtoms(x, now[Point(target, 0)][name]);
          }
        }
      }
    }
  }

  lemma PushToOneMore(pushed: set<Push>, p: Push, target: nat, name: string)
    ensures PushTo(pushed + {p}, target, name) <==> PushTo(pushed, target, name) || (p.target == target && p.name == name)
    ensures forall x :: PushOf(pushed + {p}, target, name, x) <==>
                          PushOf(pushed, target, name, x) || (p.target == target && p.name == name && In(x, p.sign))
  {
    assert p in pushed + {p};
    if PushTo(pushed, target, name) {
      var q :| q in pushed && q.target == target && q.name == name;
      assert q in pushed + {p};
    }
    forall x | PushOf(pushed, target, name, x)
      ensures PushOf(pushed + {p}, target, name, x)
    {
      var q :| q in pushed && q.target == target && q.name == name && In(x, q.sign);
      assert q in pushed + {p};
    }
  }

  /** What the test at the end of a block has made of the entry of a successor: the earlier
      constraint, and what the successor hears. */
  ghost predicate EntryHears(c: Context, before: Facts, b: nat, in_: Fact, now: Facts, target: nat, name: string)
    requires c.Valid() && b < |c.fn.blocks| && WellFormedBlock(c.fn, b)
    requires Point(target, 0) in before && Point(target, 0) in now
  {
    var was, is_ := before[Point(target, 0)], now[Point(target, 0)];
    && (name in is_ <==> name in was || (TestsCallOf(c, b, name) && SpeaksOf(c.fn, Last(c.fn, b), target)))
    && (name in is_ ==> forall x ::
          In(x, is_[name]) <==> (name in was && In(x, was[name])) || Hears(c, b, in_, target, name, x))
  }

  ghost predicate TestHeard(c: Context, before: Facts, b: nat, in_: Fact, now: Facts)
    requires Shape(c, before) && b < |c.fn.blocks| && WellFormedBlock(c.fn, b)
  {
    && Shape(c, now)
    && (forall p | p in before && p.index > 0 :: now[p] == before[p])
    && forall target: nat, name | Point(target, 0) in before :: EntryHears(c, before, b, in_, now, target, name)
  }

  lemma PushingIsHearing(c: Context, before: Facts, b: nat, in_: Fact, now: Facts)
    requires Shape(c, before) && b < |c.fn.blocks| && WellFormedBlock(c.fn, b)
    requires Pushing(c, before, now, Pushes(c, b, in_), Pushes(c, b, in_))
    ensures TestHeard(c, before, b, in_, now)
  {
    var pushes := Pushes(c, b, in_);
    forall target: nat, name | Point(target, 0) in before
      ensures EntryHears(c, before, b, in_, now, target, name)
    {
      assert EntryPushed(before, now, pushes, target, name);
      PushesMean(c, b, in_, target, name, 0);
      forall x
        ensures PushOf(pushes, target, name, x) <==> Hears(c, b, in_, target, name, x)
      {
        PushesMean(c, b, in_, target, name, x);
      }
    }
  }

  ghost predicate PushAllowed(c: Context, p: Push)
    requires c.Valid()
  {
    p.target < |c.fn.blocks| && p.name in Names(c.fn)
  }

  function JoinPush(facts: Facts, p: Push): Facts
    requires Point(p.target, 0) in facts
  {
    facts[Point(p.target, 0) := Joined(facts[Point(p.target, 0)], map[p.name := p.sign])]
  }

  lemma JoinPushEffect(c: Context, facts: Facts, p: Push)
    requires Shape(c, facts) && Bounded(c, facts) && PushAllowed(c, p)
    ensures Point(p.target, 0) in facts
    ensures var after := JoinPush(facts, p);
            Bounded(c, after) && EntriesGrow(c, facts, after) && PushCovered(c, after, p)
    ensures PushCovered(c, facts, p) ==> JoinPush(facts, p) == facts
  {
    var start := Point(p.target, 0);
    assert IsPoint(c.fn, start);
    var single := map[p.name := p.sign];
    assert p.name in single;
    JoinedIsLeast(facts[start], single, facts[start]);
    if PushCovered(c, facts, p) {
      JoinedAbsorbs(facts[start], single);
    }
  }

  lemma PushingStep(c: Context, before: Facts, now: Facts, all: set<Push>, pushed: set<Push>, p: Push)
    requires Shape(c, before) && Pushing(c, before, now, all, pushed)
    requires p in all && PushAllowed(c, p)
    ensures Point(p.target, 0) in now && Pushing(c, before, JoinPush(now, p), all, pushed + {p})
  {
    JoinPushEffect(c, now, p);
    var after := JoinPush(now, p);
    EntriesGrowTransitive(c, before, now, after);
    forall q | q in pushed + {p}
      ensures PushCovered(c, after, q)
    {
      if q in pushed {
        CoveredStays(c, now, after, q);
      }
    }
    ExactStep(c, before, now, pushed, p);
    if AllCovered(c, before, all) {
      assert PushCovered(c, before, p);
    }
  }

  /** Joins one narrowed constraint into the entry of a successor. */
  method JoinConstraint(c: Context, facts: Facts, p: Push, ghost before: Facts, ghost all: set<Push>, ghost pushed: set<Push>)
    returns (r: Facts)
    requires Shape(c, before) && Pushing(c, before, facts, all, pushed) && p in all && PushAllowed(c, p)
    ensures Point(p.target, 0) in facts && r == JoinPush(facts, p)
    ensures Pushing(c, before, r, all, pushed + {p})
  {
    PushingStep(c, before, facts, all, pushed, p);
    var entry := JoinInto(facts[Point(p.target, 0)], map[p.name := p.sign]);
    r := facts[Point(p.target, 0) := entry];
  }

  lemma PushesToStep(in_: Fact, names: set<string>, name: string, target: nat, test: Sign, done: set<Push>)
    ensures done + PushesTo(in_, names + {name}, target, test) ==
            done + PushesTo(in_, names, target, test) + {Push(target, name, Narrow(in_, name, test))}
  {
    assert PushesTo(in_, names + {name}, target, test) ==
           PushesTo(in_, names, target, test) + {Push(target, name, Narrow(in_, name, test))};
  }

  lemma AllPushesAllowed(c: Context, b: nat, in_: Fact)
    requires c.Valid() && b < |c.fn.blocks| && WellFormedBlock(c.fn, b)
    ensures forall p :: p in Pushes(c, b, in_) ==> PushAllowed(c, p)
  {
    PushesAreOfTested(c, b, in_);
  }

  /** Pushes one outcome of a test for one tested function. */
  method PushName(c: Context, facts: Facts, in_: Fact, name: string, target: nat, test: Sign,
                  ghost before: Facts, ghost all: set<Push>, ghost done: set<Push>, ghost names: set<string>)
    returns (r: Facts)
    requires Shape(c, before) && Pushing(c, before, facts, all, done + PushesTo(in_, names, target, test))
    requires var p := Push(target, name, Narrow(in_, name, test)); p in all && PushAllowed(c, p)
    ensures Pushing(c, before, r, all, done + PushesTo(in_, names + {name}, target, test))
  {
    PushesToStep(in_, names, name, target, test, done);
    r := JoinConstraint(c, facts, Push(target, name, Narrow(in_, name, test)), before, all,
                        done + PushesTo(in_, names, target, test));
  }

  /** Pushes one outcome of a test, for every tested function. */
  method PushOutcome(c: Context, facts: Facts, in_: Fact, names: set<string>, target: nat, test: Sign,
                     ghost before: Facts, ghost all: set<Push>, ghost done: set<Push>)
    returns (r: Facts)
    requires Shape(c, before) && Pushing(c, before, facts, all, done)
    requires PushesTo(in_, names, target, test) <= all && forall p :: p in all ==> PushAllowed(c, p)
    ensures Pushing(c, before, r, all, done + PushesTo(in_, names, target, test))
  {
    r := facts;
    var todo := names;
    ghost var pushed := {};
    assert done + PushesTo(in_, {}, target, test) == done;
    while todo != {}
      invariant pushed + todo == names
      invariant Pushing(c, before, r, all, done + PushesTo(in_, pushed, target, test))
      decreases todo
    {
      var name :| name in todo;
      assert Push(target, name, Narrow(in_, name, test)) in PushesTo(in_, names, target, test);
      r := PushName(c, r, in_, name, target, test, before, all, done, pushed);
      pushed := pushed + {name};
      todo := todo - {name};
    }
    assert pushed == names;
  }

  /** Kills every tested function in the output fact. */
  method KillAll(in_: Fact, names: set<string>) returns (out: Fact)
    ensures out == Killed(in_, names)
  {
    out := in_;
    var todo := names;
    while todo != {}
      invariant todo <= names
      invariant out.Keys == in_.Keys + (names - todo)
      invariant forall k | k in out :: out[k] == if k in names - todo then Bottom else in_[k]
      decreases todo
    {
      var name :| name in todo;
      out := out[name := Bottom];
      todo := todo - {name};
    }
  }

  lemma BranchPushes(c: Context, b: nat, in_: Fact, icmp: Instr)
    requires c.Valid() && b < |c.fn.blocks| && WellFormedBlock(c.fn, b)
    requires Last(c.fn, b).CondBr? && icmp.ICmp?
    requires Definition(c.fn, Last(c.fn, b).condition) == Some(icmp)
    ensures var test := AbstractICmp(icmp.predicate_, icmp.x, icmp.y);
            Pushes(c, b, in_) == PushesTo(in_, Tested(c, b), Last(c.fn, b).onTrue, test.onTrue)
                               + PushesTo(in_, Tested(c, b), Last(c.fn, b).onFalse, test.onFalse)
  {
  }

  method PushBoth(c: Context, facts: Facts, b: nat, in_: Fact, names: set<string>, onTrue: nat, onFalse: nat, test: Elements)
    returns (r: Facts)
    requires Shape(c, facts) && Bounded(c, facts) && b < |c.fn.blocks| && WellFormedBlock(c.fn, b)
    requires Pushes(c, b, in_) == PushesTo(in_, names, onTrue, test.onTrue) + PushesTo(in_, names, onFalse, test.onFalse)
    ensures Pushing(c, facts, r, Pushes(c, b, in_), Pushes(c, b, in_))
  {
    ghost var first := PushesTo(in_, names, onTrue, test.onTrue);
    ghost var second := PushesTo(in_, names, onFalse, test.onFalse);
    AllPushesAllowed(c, b, in_);
    PushingStarts(c, facts, first + second);
    assert {} + first == first;
    r := PushOutcome(c, facts, in_, names, onTrue, test.onTrue, facts, first + second, {});
    r := PushOutcome(c, r, in_, names, onFalse, test.onFalse, facts, first + second, first);
  }

  /** Both outcomes of a conditional branch. */
  method PushBranch(c: Context, facts: Facts, b: nat, in_: Fact) returns (r: Facts)
    requires Shape(c, facts) && Bounded(c, facts) && b < |c.fn.blocks| && WellFormedBlock(c.fn, b)
    requires Last(c.fn, b).CondBr?
    ensures Pushing(c, facts, r, Pushes(c, b, in_), Pushes(c, b, in_))
    ensures TestHeard(c, facts, b, in_, r)
  {
    r := facts;
    var CondBr(condition, onTrue, onFalse) := Last(c.fn, b);
    var definition := Definition(c.fn, condition);
    if definition.Some? && definition.value.ICmp? {
      var icmp := definition.value;
      var test := AbstractICmp(icmp.predicate_, icmp.x, icmp.y);
      BranchPushes(c, b, in_, icmp);
      r := PushBoth(c, r, b, in_, Tested(c, b), onTrue, onFalse, test);
    }
    PushingIsHearing(c, facts, b, in_, r);
  }

  /** What the first `k` cases of a switch push. */
  ghost function CasePushes(in_: Fact, names: set<string>, cases: seq<Case>, k: nat): set<Push>
    requires k <= |cases|
  {
    if k == 0 then {}
    else CasePushes(in_, names, cases, k - 1) + PushesTo(in_, names, cases[k - 1].target, AbstractInteger(cases[k - 1].value))
  }

  lemma {:induction false} CasePushesAre(in_: Fact, names: set<string>, cases: seq<Case>, k: nat, p: Push)
    requires k <= |cases|
    ensures p in CasePushes(in_, names, cases, k) <==>
              p.name in names && exists j :: 0 <= j < k && IsCasePush(in_, cases[j], p)
  {
    if k > 0 {
      CasePushesAre(in_, names, cases, k - 1, p);
    }
  }

  predicate IsCasePush(in_: Fact, case_: Case, p: Push) {
    p == Push(case_.target, p.name, Narrow(in_, p.name, AbstractInteger(case_.value)))
  }

  lemma SwitchPushes(c: Context, b: nat, in_: Fact)
    requires c.Valid() && b < |c.fn.blocks| && WellFormedBlock(c.fn, b) && Last(c.fn, b).Switch?
    ensures var cases := Last(c.fn, b).cases;
            Pushes(c, b, in_) == CasePushes(in_, Tested(c, b), cases, |cases|)
  {
    var cases := Last(c.fn, b).cases;
    forall p
      ensures p in Pushes(c, b, in_) <==> p in CasePushes(in_, Tested(c, b), cases, |cases|)
    {
      CasePushesAre(in_, Tested(c, b), cases, |cases|, p);
      if j :| 0 <= j < |cases| && IsCasePush(in_, cases[j], p) && p.name in Tested(c, b) {
        assert p in Pushes(c, b, in_);
      }
    }
  }

  lemma {:induction false} CasePushesGrow(in_: Fact, names: set<string>, cases: seq<Case>, j: nat, k: nat)
    requires j <= k <= |cases|
    ensures CasePushes(in_, names, cases, j) <= CasePushes(in_, names, cases, k)
    decreases k
  {
    if j < k {
      CasePushesGrow(in_, names, cases, j, k - 1);
    }
  }

  /** Every case of a switch in turn. */
  method PushCases(c: Context, facts: Facts, in_: Fact, names: set<string>, cases: seq<Case>) returns (r: Facts)
    requires Shape(c, facts) && Bounded(c, facts)
    requires forall p :: p in CasePushes(in_, names, cases, |cases|) ==> PushAllowed(c, p)
    ensures var all := CasePushes(in_, names, cases, |cases|); Pushing(c, facts, r, all, all)
  {
    r := facts;
    ghost var all := CasePushes(in_, names, cases, |cases|);
    PushingStarts(c, facts, all);
    var k := 0;
    while k < |cases|
      invariant k <= |cases|
      invariant Pushing(c, facts, r, all, CasePushes(in_, names, cases, k))
    {
      CasePushesGrow(in_, names, cases, k + 1, |cases|);
      r := PushOutcome(c, r, in_, names, cases[k].target, AbstractInteger(cases[k].value), facts, all,
                       CasePushes(in_, names, cases, k));
      k := k + 1;
    }
  }

  /** The non-default cases of a switch. */
  method PushSwitch(c: Context, facts: Facts, b: nat, in_: Fact) returns (r: Facts)
    requires Shape(c, facts) && Bounded(c, facts) && b < |c.fn.blocks| && WellFormedBlock(c.fn, b)
    requires Last(c.fn, b).Switch?
    ensures Pushing(c, facts, r, Pushes(c, b, in_), Pushes(c, b, in_))
    ensures TestHeard(c, facts, b, in_, r)
  {
    SwitchPushes(c, b, in_);
    AllPushesAllowed(c, b, in_);
    r := PushCases(c, facts, in_, Tested(c, b), Last(c.fn, b).cases);
    PushingIsHearing(c, facts, b, in_, r);
  }

  // ----- Visiting a block -----

  /** The first `i` output facts of the block have been recomputed, nothing else. */
  ghost predicate Partial(c: Context, before: Facts, now: Facts, b: nat, i: nat)
    requires Shape(c, before) && b < |c.fn.blocks|
  {
    && Shape(c, now) && Bounded(c, now) && Justified(c, now)
    && IsPoint(c.fn, Point(b, 0))
    && Consistent(c, now, before[Point(b, 0)], b, i)
    && (forall p | p in before && !(p.block == b && 0 < p.index <= i) :: now[p] == before[p])
  }

  lemma TransferBounded(c: Context, b: nat, i: nat, in_: Fact)
    requires c.Valid() && IsInstruction(c.fn, b, i) && in_.Keys <= Names(c.fn)
    ensures Transfer(c, b, i, in_).Keys <= Names(c.fn)
  {
    assert WellFormedBlock(c.fn, b);
    TestedAreNames(c, b);
  }

  lemma ConsistentStep(c: Context, now: Facts, entry: Fact, b: nat, i: nat)
    requires Shape(c, now) && IsInstruction(c.fn, b, i) && Consistent(c, now, entry, b, i)
    requires IsPoint(c.fn, Point(b, i)) && IsPoint(c.fn, Point(b, i + 1)) && InAt(now, entry, b, i) == now[Point(b, i)]
    ensures Consistent(c, now[Point(b, i + 1) := Transfer(c, b, i, now[Point(b, i)])], entry, b, i + 1)
  {
    var after := now[Point(b, i + 1) := Transfer(c, b, i, now[Point(b, i)])];
    forall j: nat | j < i + 1 && IsInstruction(c.fn, b, j)
      ensures AgreesAt(c, after, entry, b, j)
    {
      assert j < i ==> AgreesAt(c, now, entry, b, j);
    }
  }

  lemma StepJustified(c: Context, now: Facts, b: nat, i: nat)
    requires Shape(c, now) && Justified(c, now) && IsInstruction(c.fn, b, i)
    ensures IsPoint(c.fn, Point(b, i))
    ensures Justified(c, now[Point(b, i + 1) := Transfer(c, b, i, now[Point(b, i)])])
  {
    assert IsPoint(c.fn, Point(b, i));
    TransferJustified(c, b, i, now[Point(b, i)]);
  }

  lemma PartialStep(c: Context, before: Facts, now: Facts, b: nat, i: nat)
    requires Shape(c, before) && IsInstruction(c.fn, b, i) && Partial(c, before, now, b, i)
    ensures IsPoint(c.fn, Point(b, i)) && IsPoint(c.fn, Point(b, i + 1))
    ensures Partial(c, before, now[Point(b, i + 1) := Transfer(c, b, i, now[Point(b, i)])], b, i + 1)
  {
    assert IsPoint(c.fn, Point(b, i)) && IsPoint(c.fn, Point(b, i + 1));
    StepJustified(c, now, b, i);
    TransferBounded(c, b, i, now[Point(b, i)]);
    ConsistentStep(c, now, before[Point(b, 0)], b, i);
  }

  /** Comparing the one output fact that a step writes is enough to notice change. */
  lemma ChangeIsNoticed(before: Facts, now: Facts, q: Point, out: Fact)
    requires before.Keys == now.Keys && q in now && now[q] == before[q]
    ensures now[q := out] != before <==> now != before || out != now[q]
  {
    if now != before {
      var p :| p in now && now[p] != before[p];
      assert now[q := out][p] != before[p];
    } else if out == now[q] {
      assert now[q := out] == now;
    } else {
      assert now[q := out][q] != before[q];
    }
  }

  /** What a complete visit has done. */
  ghost predicate BlockVisited(c: Context, before: Facts, after: Facts, b: nat)
    requires Shape(c, before) && b < |c.fn.blocks|
  {
    && Shape(c, after) && Bounded(c, after) && Justified(c, after)
    && IsPoint(c.fn, Point(b, 0))
    && Consistent(c, after, before[Point(b, 0)], b, Length(c.fn, b))
    && Absorbed(c, after, b)
    && (forall p | p in before && p.block != b && p.index > 0 :: after[p] == before[p])
    && (forall t: nat | t < |c.fn.blocks| :: EntryGrows(c, before, after, t))
  }

  lemma PushCompletesVisit(c: Context, before: Facts, now: Facts, after: Facts, b: nat)
    requires Shape(c, before) && b < |c.fn.blocks| && WellFormedBlock(c.fn, b)
    requires Partial(c, before, now, b, Length(c.fn, b))
    requires var all := Pushes(c, b, LastIn(c, now, b)); Pushing(c, now, after, all, all)
    ensures BlockVisited(c, before, after, b)
  {
    PushingIsHearing(c, now, b, LastIn(c, now, b), after);
    TestJustified(c, now, b, LastIn(c, now, b), after);
    ConsistentStable(c, now, after, before[Point(b, 0)], b);
    PushesStable(c, now, after, b);
    forall t: nat | t < |c.fn.blocks|
      ensures EntryGrows(c, before, after, t)
    {
      assert EntryGrows(c, now, after, t);
      assert IsPoint(c.fn, Point(t, 0));
    }
  }

  lemma VisitKeepsInvariant(c: Context, before: Facts, after: Facts, seen: Seen, b: nat)
    requires Invariant(c, before, seen) && b < |c.fn.blocks| && BlockVisited(c, before, after, b)
    ensures Invariant(c, after, Remember(seen, b, before[Point(b, 0)]))
  {
    var visited := Remember(seen, b, before[Point(b, 0)]);
    forall d: nat | d < |c.fn.blocks|
      ensures BlockInvariant(c, after, visited, d)
    {
      if d == b {
        assert EntryGrows(c, before, after, b);
      } else {
        BlockInvariantStable(c, before, after, seen, d);
      }
    }
  }

  function Remember(seen: Seen, b: nat, entry: Fact): Seen {
    seen[b := entry]
  }

  lemma SameEntrySameFacts(c: Context, before: Facts, after: Facts, entry: Fact, b: nat, i: nat)
    requires Shape(c, before) && Shape(c, after) && b < |c.fn.blocks| && 0 < i <= Length(c.fn, b)
    requires Consistent(c, before, entry, b, Length(c.fn, b)) && Consistent(c, after, entry, b, Length(c.fn, b))
    ensures IsPoint(c.fn, Point(b, i)) && after[Point(b, i)] == before[Point(b, i)]
  {
    assert IsPoint(c.fn, Point(b, i));
    assert AgreesAt(c, before, entry, b, i - 1) && AgreesAt(c, after, entry, b, i - 1);
    if i > 1 {
      SameEntrySameFacts(c, before, after, entry, b, i - 1);
    }
  }

  /** Visited again with the same entry, a block recomputes what it has. */
  lemma SameEntryNoChange(c: Context, before: Facts, now: Facts, seen: Seen, b: nat)
    requires Invariant(c, before, seen) && b < |c.fn.blocks| && Partial(c, before, now, b, Length(c.fn, b))
    requires b in seen && seen[b] == before[Point(b, 0)]
    ensures now == before
  {
    assert BlockInvariant(c, before, seen, b);
    forall p | p in before
      ensures now[p] == before[p]
    {
      if p.block == b && p.index > 0 {
        SameEntrySameFacts(c, before, now, seen[b], b, p.index);
        assert p == Point(b, p.index);
      }
    }
  }

  /** A block whose output facts are still empty after a visit tests nothing. */
  lemma SilentBlockTestsNothing(c: Context, facts: Facts, b: nat)
    requires Shape(c, facts) && b < |c.fn.blocks| && WellFormedBlock(c.fn, b)
    requires Untouched(c, facts, b) && Partial(c, facts, facts, b, Length(c.fn, b))
    ensures Tested(c, b) == {}
  {
    var last := LastIndex(c.fn, b);
    var entry := facts[Point(b, 0)];
    assert IsInstruction(c.fn, b, last) && AgreesAt(c, facts, entry, b, last);
    var in_ := InAt(facts, entry, b, last);
    assert Transfer(c, b, last, in_) == map[];
    if !c.fn.blocks[b][last].Call? {
      assert Killed(in_, Tested(c, b)).Keys == in_.Keys + Tested(c, b);
    }
  }

  /** If recomputing the output facts changes nothing, pushing changes nothing either:
      the block has pushed the same before, or it tests nothing. */
  lemma UnchangedPushesNothing(c: Context, facts: Facts, seen: Seen, b: nat)
    requires Invariant(c, facts, seen) && b < |c.fn.blocks| && WellFormedBlock(c.fn, b)
    requires Partial(c, facts, facts, b, Length(c.fn, b))
    ensures AllCovered(c, facts, Pushes(c, b, LastIn(c, facts, b)))
  {
    assert BlockInvariant(c, facts, seen, b);
    if b !in seen {
      SilentBlockTestsNothing(c, facts, b);
      PushesAreOfTested(c, b, LastIn(c, facts, b));
    }
  }

  lemma FinishVisit(c: Context, before: Facts, now: Facts, after: Facts, seen: Seen, b: nat)
    requires Invariant(c, before, seen) && b < |c.fn.blocks| && WellFormedBlock(c.fn, b)
    requires Partial(c, before, now, b, Length(c.fn, b))
    requires var all := Pushes(c, b, LastIn(c, now, b)); Pushing(c, now, after, all, all)
    ensures Invariant(c, after, Remember(seen, b, before[Point(b, 0)]))
    ensures now == before ==> after == before
    ensures b in seen && seen[b] == before[Point(b, 0)] ==> now == before
  {
    PushCompletesVisit(c, before, now, after, b);
    VisitKeepsInvariant(c, before, after, seen, b);
    if b in seen && seen[b] == before[Point(b, 0)] {
      SameEntryNoChange(c, before, now, seen, b);
    }
    if now == before {
      UnchangedPushesNothing(c, before, seen, b);
    }
  }

  // ----- Progress -----

  /** Everything the entry facts could say; its size is the height of the lattice. */
  function Universe(c: Context): set<(nat, string, Bit)> {
    set b: nat, name, bit | b < |c.fn.blocks| && name in Names(c.fn) && bit in AllBits() :: (b, name, bit)
  }

  ghost predicate HasAtom(seen: Seen, b: nat, name: string, bit: Bit) {
    b in seen && HasBit(seen[b], name, bit)
  }

  /** What the remembered entries could still gain. */
  ghost function Missing(c: Context, seen: Seen): set<(nat, string, Bit)> {
    set e | e in Universe(c) && !HasAtom(seen, e.0, e.1, e.2) :: e
  }

  lemma VisitShrinksMissing(c: Context, seen: Seen, b: nat, entry: Fact)
    requires b < |c.fn.blocks| && entry.Keys <= Names(c.fn)
    requires b in seen ==> Below(seen[b], entry)
    ensures Missing(c, Remember(seen, b, entry)) <= Missing(c, seen)
    ensures b in seen && seen[b] != entry ==> Missing(c, Remember(seen, b, entry)) < Missing(c, seen)
  {
    var after := Remember(seen, b, entry);
    forall e | e in Universe(c) && HasAtom(seen, e.0, e.1, e.2)
      ensures HasAtom(after, e.0, e.1, e.2)
    {
      if e.0 == b {
        GrowthKeepsBits(seen[b], entry, e.1, e.2);
      }
    }
    if b in seen && seen[b] != entry {
      var name, bit := GrowthGainsBit(seen[b], entry);
      assert (b, name, bit) in Universe(c);
      assert HasAtom(after, b, name, bit) && !HasAtom(seen, b, name, bit);
      assert (b, name, bit) in Missing(c, seen) && (b, name, bit) !in Missing(c, after);
    }
  }

  // ----- A sweep -----

  ghost predicate OnlyEntryChanged(before: Facts, after: Facts, b: nat) {
    before.Keys == after.Keys && forall p | p in before && p != Point(b, 0) :: after[p] == before[p]
  }

  ghost predicate VisitedQuietly(c: Context, now: Facts, seen: Seen, d: nat)
    requires Shape(c, now) && d < |c.fn.blocks|
  {
    d in seen && seen[d] == now[Point(d, 0)] && EdgesInto(c, now, d, Predecessors(c.fn, d))
  }

  /** What one sweep has done after `b` blocks. */
  ghost predicate Swept(c: Context, start: Facts, now: Facts, seen: Seen, b: nat, first: bool, changed: bool)
    requires Shape(c, start) && Shape(c, now)
  {
    && (forall d: nat | d < |c.fn.blocks| && (d < b || !first) :: d in seen)
    && (!changed ==>
          && (forall p | p in start && p.index > 0 :: now[p] == start[p])
          && forall d: nat | d < |c.fn.blocks| && d < b :: VisitedQuietly(c, now, seen, d))
  }

  lemma EdgesIntoStable(c: Context, before: Facts, after: Facts, d: nat)
    requires Shape(c, before) && Shape(c, after) && d < |c.fn.blocks|
    requires EdgesInto(c, before, d, Predecessors(c.fn, d))
    requires after[Point(d, 0)] == before[Point(d, 0)]
    requires forall p | p in before && p.index > 0 :: after[p] == before[p]
    ensures EdgesInto(c, after, d, Predecessors(c.fn, d))
  {
    forall p | p in Predecessors(c.fn, d) && p < |c.fn.blocks|
      ensures Below(after[End(c.fn, p)], after[Point(d, 0)])
    {
      assert WellFormedBlock(c.fn, p) && IsPoint(c.fn, End(c.fn, p));
    }
  }

  lemma SweptExtends(c: Context, start: Facts, now: Facts, joined: Facts, after: Facts, seen: Seen, b: nat,
                     first: bool, changed: bool, blockChanged: bool)
    requires Shape(c, start) && Shape(c, now) && Shape(c, joined) && Shape(c, after) && b < |c.fn.blocks|
    requires Swept(c, start, now, seen, b, first, changed)
    requires OnlyEntryChanged(now, joined, b)
    requires EdgesInto(c, joined, b, Predecessors(c.fn, b))
    requires !blockChanged ==> after == joined
    ensures Swept(c, start, after, Remember(seen, b, joined[Point(b, 0)]), b + 1, first, blockChanged || changed)
  {
    if !(blockChanged || changed) {
      var visited := Remember(seen, b, joined[Point(b, 0)]);
      forall d: nat | d < |c.fn.blocks| && d < b + 1
        ensures VisitedQuietly(c, after, visited, d)
      {
        if d < b {
          assert VisitedQuietly(c, now, seen, d);
          EdgesIntoStable(c, now, joined, d);
        }
      }
    }
  }

  lemma SweepSettles(c: Context, start: Facts, now: Facts, seen: Seen, first: bool)
    requires Shape(c, start) && Invariant(c, now, seen)
    requires Swept(c, start, now, seen, |c.fn.blocks|, first, false)
    ensures IsPostFixpoint(c, now)
  {
    forall b: nat | b < |c.fn.blocks|
      ensures Settled(c, now, b)
    {
      assert VisitedQuietly(c, now, seen, b) && BlockInvariant(c, now, seen, b);
    }
  }

  // ----- Joining predecessors -----

  /** The entry of a block is the least fact above its earlier entry and the output facts of
      the given predecessors: a fact is above the entry if and only if it is above all of
      these. Nothing else has changed. */
  ghost predicate EntryIsJoin(c: Context, before: Facts, after: Facts, b: nat, done: set<nat>)
    requires Shape(c, before) && b < |c.fn.blocks|
  {
    && IsPoint(c.fn, Point(b, 0)) && Point(b, 0) in after
    && after == before[Point(b, 0) := after[Point(b, 0)]]
    && forall z: Fact :: Below(after[Point(b, 0)], z) <==> AboveEntryAndEdges(c, before, b, done, z)
  }

  ghost predicate AboveEntryAndEdges(c: Context, before: Facts, b: nat, done: set<nat>, z: Fact)
    requires Shape(c, before) && b < |c.fn.blocks| && IsPoint(c.fn, Point(b, 0))
  {
    Below(before[Point(b, 0)], z) && forall p | p in done && p < |c.fn.blocks| :: AboveEdge(c, before, p, z)
  }

  ghost predicate AboveEdge(c: Context, facts: Facts, p: nat, z: Fact)
    requires Shape(c, facts) && p < |c.fn.blocks|
  {
    assert IsPoint(c.fn, End(c.fn, p));
    Below(facts[End(c.fn, p)], z)
  }

  lemma EntryStarts(c: Context, facts: Facts, b: nat)
    requires Shape(c, facts) && b < |c.fn.blocks|
    ensures EntryIsJoin(c, facts, facts, b, {}) && WellFormedBlock(c.fn, b)
  {
    assert IsPoint(c.fn, Point(b, 0)) && WellFormedBlock(c.fn, b);
    assert facts == facts[Point(b, 0) := facts[Point(b, 0)]];
  }

  lemma EntryIsJoinStep(c: Context, before: Facts, now: Facts, b: nat, done: set<nat>, p: nat)
    requires Shape(c, before) && b < |c.fn.blocks| && p < |c.fn.blocks|
    requires EntryIsJoin(c, before, now, b, done) && IsPoint(c.fn, End(c.fn, p))
    ensures var start := Point(b, 0);
            EntryIsJoin(c, before, now[start := Joined(now[start], now[End(c.fn, p)])], b, done + {p})
  {
    var start := Point(b, 0);
    assert WellFormedBlock(c.fn, p);
    var sent := now[End(c.fn, p)];
    var entry := Joined(now[start], sent);
    forall z: Fact
      ensures Below(entry, z) <==> AboveEntryAndEdges(c, before, b, done + {p}, z)
    {
      JoinedIsLeast(now[start], sent, z);
      if Below(entry, z) {
        BelowTransitive(now[start], entry, z);
        BelowTransitive(sent, entry, z);
      }
      assert Below(now[start], z) <==> AboveEntryAndEdges(c, before, b, done, z);
      assert Below(sent, z) <==> AboveEdge(c, before, p, z);
    }
  }

  lemma EntryIsJoinCovers(c: Context, before: Facts, after: Facts, b: nat)
    requires Shape(c, before) && Shape(c, after) && b < |c.fn.blocks|
    requires EntryIsJoin(c, before, after, b, Predecessors(c.fn, b))
    ensures OnlyEntryChanged(before, after, b) && EdgesInto(c, after, b, Predecessors(c.fn, b))
  {
    var entry := after[Point(b, 0)];
    assert Below(entry, entry);
    assert AboveEntryAndEdges(c, before, b, Predecessors(c.fn, b), entry);
    forall p | p in Predecessors(c.fn, b) && p < |c.fn.blocks|
      ensures Below(after[End(c.fn, p)], entry)
    {
      assert WellFormedBlock(c.fn, p) && AboveEdge(c, before, p, entry);
    }
  }

  lemma JoinStep(c: Context, facts: Facts, seen: Seen, b: nat, p: nat)
    requires Invariant(c, facts, seen) && b < |c.fn.blocks| && p in Predecessors(c.fn, b)
    ensures IsPoint(c.fn, Point(b, 0)) && IsPoint(c.fn, End(c.fn, p)) && End(c.fn, p) != Point(b, 0)
    ensures Invariant(c, facts[Point(b, 0) := Joined(facts[Point(b, 0)], facts[End(c.fn, p)])], seen)
  {
    var start := Point(b, 0);
    assert IsPoint(c.fn, start) && IsPoint(c.fn, End(c.fn, p)) && WellFormedBlock(c.fn, p);
    var entry := Joined(facts[start], facts[End(c.fn, p)]);
    var after := facts[start := entry];
    JoinedIsLeast(facts[start], facts[End(c.fn, p)], entry);
    EdgeJustified(c, p, b, facts[End(c.fn, p)]);
    JoinedJustified(c, start, facts[start], facts[End(c.fn, p)]);
    forall t: nat | t < |c.fn.blocks|
      ensures EntryGrows(c, facts, after, t)
    {
    }
    EntriesGrowKeepsInvariant(c, facts, after, seen);
  }

  /** One block of a sweep: the predecessors joined, and the block visited. */
  lemma SweepStep(c: Context, start: Facts, now: Facts, joined: Facts, after: Facts, seen: Seen, b: nat,
                  first: bool, changed: bool, blockChanged: bool)
    requires Shape(c, start) && Shape(c, now) && Invariant(c, joined, seen) && Shape(c, after) && b < |c.fn.blocks|
    requires Swept(c, start, now, seen, b, first, changed)
    requires EntryIsJoin(c, now, joined, b, Predecessors(c.fn, b))
    requires !blockChanged ==> after == joined
    ensures Swept(c, start, after, Remember(seen, b, joined[Point(b, 0)]), b + 1, first, blockChanged || changed)
    ensures Missing(c, Remember(seen, b, joined[Point(b, 0)])) <= Missing(c, seen)
    ensures b in seen && seen[b] != joined[Point(b, 0)] ==>
              Missing(c, Remember(seen, b, joined[Point(b, 0)])) < Missing(c, seen)
    ensures !first ==> b in seen
  {
    EntryIsJoinCovers(c, now, joined, b);
    assert BlockInvariant(c, joined, seen, b);
    VisitShrinksMissing(c, seen, b, joined[Point(b, 0)]);
    SweptExtends(c, start, now, joined, after, seen, b, first, changed, blockChanged);
  }

  // ----- A test of a call in the same block -----

  /** Block `p` calls a function by that name and tests it at its end, and is the only way
      to block `b`. */
  ghost predicate OnlyTest(c: Context, p: nat, i: nat, b: nat, name: string)
    requires c.Valid()
  {
    && b < |c.fn.blocks| && IsInstruction(c.fn, p, i) && WellFormedBlock(c.fn, p)
    && IsCallNamed(c.fn, Reg(p, i), name) && TestsCallOf(c, p, name)
    && SpeaksOf(c.fn, Last(c.fn, p), b) && Predecessors(c.fn, b) == {p}
  }

  lemma LetThroughIsSuccessor(c: Context, d: nat, b: nat, name: string, x: int)
    requires c.Valid() && LetThroughBy(c, d, b, name, x)
    ensures b in Successors(c.fn, d)
  {
    var last := Last(c.fn, d);
    if last.Switch? {
      var k :| 0 <= k < |last.cases| && IsCaseOf(last.cases[k], b, x);
      assert last.cases[k] in last.cases;
    }
  }

  /** Nothing is allowed at the end of a block that tests the name. */
  lemma TestLeavesNothing(c: Context, p: nat, name: string, x: int)
    requires c.Valid() && p < |c.fn.blocks| && WellFormedBlock(c.fn, p) && TestsCallOf(c, p, name)
    ensures !Allowed(c, name, x, End(c.fn, p))
  {
    var end := End(c.fn, p);
    assert Reg(p, end.index - 1) == Reg(p, LastIndex(c.fn, p)) && !IsCallNamed(c.fn, Reg(p, end.index - 1), name);
    forall q: Point
      ensures !StepsUntested(c, name, q, end)
    {
    }
    if Allowed(c, name, x, end) {
      ReachedFrom(LettingIn(c, name, x), SteppingUntested(c, name), end);
    }
  }

  /** Into a block there is no way but from the end of a predecessor. */
  lemma StepIntoBlock(c: Context, name: string, q: Point, b: nat)
    requires c.Valid() && b < |c.fn.blocks| && StepsUntested(c, name, q, Point(b, 0))
    ensures q.block in Predecessors(c.fn, b) && q == End(c.fn, q.block)
  {
  }

  lemma OnlyTestAllows(c: Context, p: nat, b: nat, name: string, x: int)
    requires c.Valid() && b < |c.fn.blocks| && p < |c.fn.blocks| && WellFormedBlock(c.fn, p)
    requires TestsCallOf(c, p, name) && Predecessors(c.fn, b) == {p} && Allowed(c, name, x, Point(b, 0))
    ensures LetsThrough(c.fn, Last(c.fn, p), b, x)
  {
    ReachedFrom(LettingIn(c, name, x), SteppingUntested(c, name), Point(b, 0));
    if LettingIn(c, name, x)(Point(b, 0)) {
      var d: nat :| LetThroughBy(c, d, b, name, x);
      LetThroughIsSuccessor(c, d, b, name, x);
      assert d in Predecessors(c.fn, b);
    } else {
      var q :| Allowed(c, name, x, q) && SteppingUntested(c, name)(q, Point(b, 0));
      StepIntoBlock(c, name, q, b);
      TestLeavesNothing(c, p, name, x);
    }
  }

  /** After a call of the name every result is allowed up to the end of its block. */
  lemma {:induction false} CallAllowsAll(c: Context, facts: Facts, p: nat, i: nat, j: nat, name: string)
    requires IsPostFixpoint(c, facts) && IsInstruction(c.fn, p, i) && WellFormedBlock(c.fn, p)
    requires IsCallNamed(c.fn, Reg(p, i), name) && i < j <= LastIndex(c.fn, p)
    ensures IsPoint(c.fn, Point(p, j)) && name in facts[Point(p, j)] && facts[Point(p, j)][name] == Top
  {
    assert IsPoint(c.fn, Point(p, j)) && IsPoint(c.fn, Point(p, j - 1));
    assert Settled(c, facts, p) && AgreesAt(c, facts, facts[Point(p, 0)], p, j - 1);
    if j > i + 1 {
      CallAllowsAll(c, facts, p, i, j - 1, name);
    }
  }

  /** There the constraint is exactly what the test lets through. */
  ghost predicate IsWhatTestLeaves(c: Context, facts: Facts, p: nat, b: nat, name: string)
    requires c.Valid() && p < |c.fn.blocks| && WellFormedBlock(c.fn, p)
  {
    && Point(b, 0) in facts && name in facts[Point(b, 0)]
    && forall x :: In(x, facts[Point(b, 0)][name]) <==> LetsThrough(c.fn, Last(c.fn, p), b, x)
  }

  /** What the successor hears is covered by its entry. */
  lemma HeardIsCovered(c: Context, facts: Facts, p: nat, b: nat, name: string, x: int)
    requires IsPostFixpoint(c, facts) && p < |c.fn.blocks| && WellFormedBlock(c.fn, p) && b < |c.fn.blocks|
    requires TestsCallOf(c, p, name) && SpeaksOf(c.fn, Last(c.fn, p), b)
    ensures IsPoint(c.fn, Point(b, 0)) && name in facts[Point(b, 0)]
    ensures Hears(c, p, LastIn(c, facts, p), b, name, x) ==> In(x, facts[Point(b, 0)][name])
  {
    assert IsPoint(c.fn, Point(b, 0)) && Settled(c, facts, p);
    var pushes := Pushes(c, p, LastIn(c, facts, p));
    PushesMean(c, p, LastIn(c, facts, p), b, name, x);
    var push :| push in pushes && push.target == b && push.name == name;
    assert PushCovered(c, facts, push);
    if PushOf(pushes, b, name, x) {
      var q :| q in pushes && q.target == b && q.name == name && In(x, q.sign);
      assert PushCovered(c, facts, q);
      LeqIsInclusion(q.sign, facts[Point(b, 0)][name]);
    }
  }

  lemma OnlyTestIsExact(c: Context, facts: Facts, p: nat, i: nat, b: nat, name: string)
    requires IsPostFixpoint(c, facts) && Justified(c, facts) && OnlyTest(c, p, i, b, name)
    ensures IsWhatTestLeaves(c, facts, p, b, name)
  {
    CallAllowsAll(c, facts, p, i, LastIndex(c.fn, p), name);
    HeardIsCovered(c, facts, p, b, name, 0);
    forall x
      ensures In(x, facts[Point(b, 0)][name]) <==> LetsThrough(c.fn, Last(c.fn, p), b, x)
    {
      HeardIsCovered(c, facts, p, b, name, x);
      assert FactJustified(c, Point(b, 0), facts[Point(b, 0)]);
      if In(x, facts[Point(b, 0)][name]) {
        OnlyTestAllows(c, p, b, name, x);
      }
    }
  }

  // ----- Whole runs -----

  /** A visit of a block: its output facts are recomputed, then its test is heard. */
  ghost predicate IsVisit(c: Context, x: Facts, y: Facts, b: nat)
    requires Shape(c, x) && b < |c.fn.blocks| && WellFormedBlock(c.fn, b)
  {
    exists now :: Partial(c, x, now, b, Length(c.fn, b)) && TestHeard(c, now, b, LastIn(c, now, b), y)
  }

  ghost predicate StepsAt(c: Context, x: Facts, y: Facts, b: nat)
    requires Shape(c, x)
  {
    && b < |c.fn.blocks| && WellFormedBlock(c.fn, b)
    && (EntryIsJoin(c, x, y, b, Predecessors(c.fn, b)) || IsVisit(c, x, y, b))
  }

  ghost predicate IsStep(c: Context, x: Facts, y: Facts) {
    Shape(c, x) && exists b: nat :: StepsAt(c, x, y, b)
  }

  ghost predicate IsEmpty(facts: Facts) {
    forall p | p in facts :: facts[p] == map[]
  }

  ghost function Stepping(c: Context): (Facts, Facts) -> bool {
    (x, y) => IsStep(c, x, y)
  }

  /** The facts have come from empty ones by joins of predecessors and visits of blocks, and
      by nothing else. */
  ghost predicate IsReached(c: Context, facts: Facts) {
    Reaches(IsEmpty, Stepping(c), facts)
  }

  lemma StepReaches(c: Context, x: Facts, y: Facts, b: nat)
    requires IsReached(c, x) && Shape(c, x) && StepsAt(c, x, y, b)
    ensures IsReached(c, y)
  {
    ReachesNext(IsEmpty, Stepping(c), x, y);
  }

  // ----- The pass -----

  class ReturnConstraintsPass {
    const c: Context
    var facts: Facts
    ghost var seen: Seen

    ghost predicate Valid()
      reads this
    {
      Invariant(c, facts, seen) && IsReached(c, facts)
    }

    constructor (c: Context)
      requires c.Valid()
      ensures Valid() && this.c == c && seen == map[]
    {
      this.c := c;
      this.facts := map p | p in Points(c.fn) :: map[];
      this.seen := map[];
      new;
      ReachesStart(IsEmpty, Stepping(c), facts);
    }

    /** Joins the last output fact of one predecessor into the entry of a block. */
    method JoinEdge(b: nat, p: nat, ghost before: Facts, ghost done: set<nat>)
      requires Invariant(c, facts, seen) && b < |c.fn.blocks| && p in Predecessors(c.fn, b)
      requires Shape(c, before) && EntryIsJoin(c, before, facts, b, done)
      modifies this`facts
      ensures Invariant(c, facts, seen) && EntryIsJoin(c, before, facts, b, done + {p})
    {
      JoinStep(c, facts, seen, b, p);
      EntryIsJoinStep(c, before, facts, b, done, p);
      var entry := JoinInto(facts[Point(b, 0)], facts[End(c.fn, p)]);
      facts := facts[Point(b, 0) := entry];
    }

    /** Joins the last output facts of all predecessors into the entry of a block, and
        nothing else. */
    method JoinPredecessors(b: nat)
      requires Valid() && b < |c.fn.blocks|
      modifies this`facts
      ensures Valid()
      ensures EntryIsJoin(c, old(facts), facts, b, Predecessors(c.fn, b))
    {
      EntryStarts(c, facts, b);
      var todo := Predecessors(c.fn, b);
      ghost var done := {};
      while todo != {}
        invariant todo + done == Predecessors(c.fn, b)
        invariant Invariant(c, facts, seen) && EntryIsJoin(c, old(facts), facts, b, done)
        decreases todo
      {
        var p :| p in todo;
        JoinEdge(b, p, old(facts), done);
        todo := todo - {p};
        done := done + {p};
      }
      assert done == Predecessors(c.fn, b);
      StepReaches(c, old(facts), facts, b);
    }

    /** Visits the instructions of a block before its terminator. */
    method VisitBody(b: nat) returns (changed: bool)
      requires Valid() && b < |c.fn.blocks|
      modifies this`facts
      ensures WellFormedBlock(c.fn, b)
      ensures Partial(c, old(facts), facts, b, LastIndex(c.fn, b))
      ensures changed <==> facts != old(facts)
    {
      changed := false;
      assert WellFormedBlock(c.fn, b) && IsPoint(c.fn, Point(b, 0));
      var i := 0;
      while i < LastIndex(c.fn, b)
        invariant i <= LastIndex(c.fn, b)
        invariant Partial(c, old(facts), facts, b, i)
        invariant changed <==> facts != old(facts)
      {
        PartialStep(c, old(facts), facts, b, i);
        var inst := c.fn.blocks[b][i];
        var out := facts[Point(b, i)];
        if inst.Call? {
          out := out[CalleeName(inst) := Top];
        }
        assert out == Transfer(c, b, i, facts[Point(b, i)]);
        ChangeIsNoticed(old(facts), facts, Point(b, i + 1), out);
        changed := changed || out != facts[Point(b, i + 1)];
        facts := facts[Point(b, i + 1) := out];
        i := i + 1;
      }
    }

    /** Visits a block: copies and calls, then the terminator with its pushes. */
    method VisitBlock(b: nat) returns (changed: bool)
      requires Valid() && b < |c.fn.blocks|
      modifies this
      ensures Valid()
      ensures WellFormedBlock(c.fn, b) && IsVisit(c, old(facts), facts, b)
      ensures Point(b, 0) in old(facts) && seen == Remember(old(seen), b, old(facts)[Point(b, 0)])
      ensures !changed ==> facts == old(facts)
      ensures changed ==> b in old(seen) ==> old(seen)[b] != seen[b]
    {
      ghost var before := facts;
      changed := VisitBody(b);
      var in_, lastChanged := VisitTerminator(b, before);
      changed := changed || lastChanged;
      ghost var now := facts;
      VisitTest(b, in_);
      FinishVisit(c, before, now, facts, seen, b);
      assert IsVisit(c, before, facts, b);
      StepReaches(c, before, facts, b);
      seen := Remember(seen, b, before[Point(b, 0)]);
    }

    /** Recomputes the last output fact of a block, killing what the block tests. */
    method VisitTerminator(b: nat, ghost before: Facts) returns (in_: Fact, changed: bool)
      requires Shape(c, before) && b < |c.fn.blocks| && WellFormedBlock(c.fn, b)
      requires Partial(c, before, facts, b, LastIndex(c.fn, b))
      modifies this`facts
      ensures Partial(c, before, facts, b, Length(c.fn, b))
      ensures in_ == LastIn(c, facts, b)
      ensures (old(facts) != before || changed) <==> facts != before
    {
      var last := LastIndex(c.fn, b);
      PartialStep(c, before, facts, b, last);
      in_ := facts[Point(b, last)];
      var out := KillAll(in_, Tested(c, b));
      assert out == Transfer(c, b, last, in_);
      changed := out != facts[Point(b, last + 1)];
      ChangeIsNoticed(before, facts, Point(b, last + 1), out);
      facts := facts[Point(b, last + 1) := out];
    }

    /** The pushes of a terminator. */
    method VisitTest(b: nat, in_: Fact)
      requires Shape(c, facts) && Bounded(c, facts) && b < |c.fn.blocks| && WellFormedBlock(c.fn, b)
      modifies this`facts
      ensures Pushing(c, old(facts), facts, Pushes(c, b, in_), Pushes(c, b, in_))
      ensures TestHeard(c, old(facts), b, in_, facts)
    {
      if Last(c.fn, b).CondBr? {
        facts := PushBranch(c, facts, b, in_);
      } else if Last(c.fn, b).Switch? {
        facts := PushSwitch(c, facts, b, in_);
      }
      PushingIsHearing(c, old(facts), b, in_, facts);
    }

    /** Sweeps until no output fact changes, which takes at most two sweeps more than
        the height of the lattice, and leaves a post-fixpoint. */
    method Run() returns (ghost sweeps: nat)
      requires Valid()
      modifies this
      ensures Valid() && IsPostFixpoint(c, facts)
      ensures Justified(c, facts) && IsReached(c, facts)
      ensures forall p: nat, i: nat, b: nat, name | OnlyTest(c, p, i, b, name) :: IsWhatTestLeaves(c, facts, p, b, name)
      ensures sweeps <= 2 + |Universe(c)|
    {
      sweeps := 0;
      ghost var first := true;
      var changed := true;
      SubsetCardinality(Missing(c, seen), Universe(c));
      while changed
        invariant Valid()
        invariant !first ==> forall d: nat | d < |c.fn.blocks| :: d in seen
        invariant !changed ==> IsPostFixpoint(c, facts)
        invariant first ==> changed
        invariant sweeps + |Missing(c, seen)| <= |Universe(c)| + (if first then 0 else if changed then 1 else 2)
        decreases first, |Missing(c, seen)|, changed
      {
        ghost var start := facts;
        ghost var startSeen := seen;
        changed := Sweep(first);
        if !changed {
          SweepSettles(c, start, facts, seen, first);
        }
        SubsetCardinality(Missing(c, seen), Missing(c, startSeen));
        first := false;
        sweeps := sweeps + 1;
      }
      forall p: nat, i: nat, b: nat, name | OnlyTest(c, p, i, b, name)
        ensures IsWhatTestLeaves(c, facts, p, b, name)
      {
        OnlyTestIsExact(c, facts, p, i, b, name);
      }
    }

    /** One block of a sweep: its predecessors are joined, and it is visited. */
    method SweepBlock(ghost start: Facts, b: nat, changedBefore: bool, ghost first: bool) returns (changed: bool)
      requires Valid() && b < |c.fn.blocks| && Shape(c, start)
      requires Swept(c, start, facts, seen, b, first, changedBefore)
      modifies this
      ensures Valid() && Swept(c, start, facts, seen, b + 1, first, changed)
      ensures Missing(c, seen) <= Missing(c, old(seen))
      ensures changed && !first ==> changedBefore || Missing(c, seen) < Missing(c, old(seen))
    {
      ghost var now, nowSeen := facts, seen;
      JoinPredecessors(b);
      ghost var joined := facts;
      var blockChanged := VisitBlock(b);
      SweepStep(c, start, now, joined, facts, nowSeen, b, first, changedBefore, blockChanged);
      changed := blockChanged || changedBefore;
    }

    method Sweep(ghost first: bool) returns (changed: bool)
      requires Valid()
      requires !first ==> forall d: nat | d < |c.fn.blocks| :: d in seen
      modifies this
      ensures Valid() && Swept(c, old(facts), facts, seen, |c.fn.blocks|, first, changed)
      ensures Missing(c, seen) <= Missing(c, old(seen))
      ensures changed && !first ==> Missing(c, seen) < Missing(c, old(seen))
    {
      changed := false;
      var b := 0;
      while b < |c.fn.blocks|
        invariant b <= |c.fn.blocks|
        invariant Valid() && Swept(c, old(facts), facts, seen, b, first, changed)
        invariant Missing(c, seen) <= Missing(c, old(seen))
        invariant changed && !first ==> Missing(c, seen) < Missing(c, old(seen))
      {
        changed := SweepBlock(old(facts), b, changed, first);
        b := b + 1;
      }
    }
  }
}
