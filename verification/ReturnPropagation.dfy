/** The return-propagation pass: a forward analysis that maps each value to the call
    results and stored constants it may hold.

    A store overwrites the entry of its receiver only when the sender has an entry, so
    the transfer function is not monotone. The sweep still ends, because the entry
    facts of blocks only grow, and it is known exactly when its result is sound for
    provenance. */
module ReturnPropagation {
  import opened Cardinality
  import opened IR
  import opened Provenance
  import opened Trails

  type Fact = map<Value, set<Value>>
  type Facts = map<Point, Fact>

  // ----- Facts -----

  function Get(x: Fact, k: Value): set<Value> {
    if k in x then x[k] else {}
  }

  function Joined(x: Fact, y: Fact): Fact {
    map k | k in x.Keys + y.Keys :: Get(x, k) + Get(y, k)
  }

  function Restricted(x: Fact, keys: set<Value>): Fact {
    map k | k in x && k in keys :: x[k]
  }

  ghost predicate Below(x: Fact, y: Fact) {
    forall k :: k in x ==> k in y && x[k] <= y[k]
  }

  lemma JoinedIsLeast(x: Fact, y: Fact, z: Fact)
    ensures Below(x, Joined(x, y)) && Below(y, Joined(x, y))
    ensures Below(x, z) && Below(y, z) ==> Below(Joined(x, y), z)
  {
  }

  lemma BelowTransitive(x: Fact, y: Fact, z: Fact)
    requires Below(x, y) && Below(y, z)
    ensures Below(x, z)
  {
    forall k | k in x
      ensures k in z && x[k] <= z[k]
    {
      assert k in y;
    }
  }

  lemma JoinedWithNothing(x: Fact, none: Fact)
    requires none.Keys == {}
    ensures Joined(x, none) == x
  {
    forall k | k in x
      ensures Joined(x, none)[k] == x[k]
    {
      assert x[k] + Get(none, k) == x[k];
    }
  }

  lemma JoinedStep(x: Fact, y: Fact, done: set<Value>, k: Value)
    requires k in y && k !in done
    ensures var r := Joined(x, Restricted(y, done));
            Joined(x, Restricted(y, done + {k})) == r[k := Get(r, k) + y[k]]
  {
    var r := Joined(x, Restricted(y, done));
    var next := Joined(x, Restricted(y, done + {k}));
    assert Get(r, k) == Get(x, k);
    forall j | j in next
      ensures j in r[k := Get(r, k) + y[k]] && next[j] == r[k := Get(r, k) + y[k]][j]
    {
    }
  }

  /** Unions the sets of `y` into those of `x`, entry by entry. */
  method JoinInto(x: Fact, y: Fact) returns (r: Fact)
    ensures r == Joined(x, y)
  {
    r := x;
    var todo := y.Keys;
    JoinedWithNothing(x, Restricted(y, y.Keys - todo));
    while todo != {}
      invariant todo <= y.Keys
      invariant r == Joined(x, Restricted(y, y.Keys - todo))
      decreases todo
    {
      var k :| k in todo;
      JoinedStep(x, y, y.Keys - todo, k);
      r := r[k := Get(r, k) + y[k]];
      assert y.Keys - (todo - {k}) == (y.Keys - todo) + {k};
      todo := todo - {k};
    }
    assert Restricted(y, y.Keys - todo) == y;
  }

  // ----- One instruction -----

  /** The operand an instruction copies its result's entry from, if it copies. */
  function CopiedFrom(inst: Instr): Option<Value> {
    match inst
    case Load(address) => Some(address)
    case Cast(kind, source) => if kind.BitCast? || kind.PtrToInt? then Some(source) else None
    case BinaryOp(x, _) => Some(x)
    case _ => None
  }

  function Transfer(inst: Instr, self: Value, in_: Fact): Fact {
    match inst
    case Call(_, _) => in_[self := Get(in_, self) + {self}]
    case Store(sender, receiver) =>
      var noted := if IsConstantInt(sender) then in_[receiver := Get(in_, receiver) + {sender}] else in_;
      if sender in in_ then noted[receiver := in_[sender]] else noted
    case _ =>
      var from := CopiedFrom(inst);
      if from.Some? && from.value in in_ then in_[self := in_[from.value]] else in_
  }

  /** The transfer function is not monotone: a larger fact can give a smaller one. */
  lemma StoreIsNotMonotone(r: Value, s: Value, a: Value, b: Value)
    requires a != b && r != s && !IsConstantInt(s)
    ensures var small: Fact := map[r := {a}];
            var large: Fact := map[r := {a}, s := {b}];
            Below(small, large) && !Below(Transfer(Store(s, r), r, small), Transfer(Store(s, r), r, large))
  {
    var small: Fact := map[r := {a}];
    var large: Fact := map[r := {a}, s := {b}];
    assert Transfer(Store(s, r), r, small)[r] == {a};
    assert Transfer(Store(s, r), r, large)[r] == {b};
    assert a !in {b};
  }

  /** The entry a store finds or makes for its receiver before it looks at the sender's. */
  function Noted(sender: Value, receiver: Value, x: Fact): Fact {
    if IsConstantInt(sender) then x[receiver := Get(x, receiver) + {sender}] else x
  }

  /** Exactly when a store keeps the order of two facts: the sender has an entry in the
      smaller one already, or in neither, or what the smaller one lists for the receiver is
      among what the sender brings in the larger one. */
  lemma StoreIsMonotoneExactly(sender: Value, receiver: Value, self: Value, small: Fact, large: Fact)
    requires Below(small, large)
    ensures Below(Transfer(Store(sender, receiver), self, small), Transfer(Store(sender, receiver), self, large)) <==>
              sender in small || sender !in large ||
              (receiver in Noted(sender, receiver, small) ==>
                 Noted(sender, receiver, small)[receiver] <= large[sender])
  {
    var x := Transfer(Store(sender, receiver), self, small);
    var y := Transfer(Store(sender, receiver), self, large);
    assert forall k | k != receiver :: (k in x <==> k in small) && (k in y <==> k in large);
    assert forall k | k != receiver && k in x :: x[k] == small[k] && y[k] == large[k];
    assert Below(x, y) <==> (receiver in x ==> receiver in y && x[receiver] <= y[receiver]);
  }

  /** No other instruction can break the order but a copy of an entry that only the larger
      fact has. */
  lemma CopyIsMonotoneExactly(inst: Instr, self: Value, small: Fact, large: Fact)
    requires Below(small, large) && CopiedFrom(inst).Some?
    ensures var from := CopiedFrom(inst).value;
            Below(Transfer(inst, self, small), Transfer(inst, self, large)) <==>
              from in small || from !in large || (self in small ==> small[self] <= large[from])
  {
    var x, y := Transfer(inst, self, small), Transfer(inst, self, large);
    assert forall k | k != self :: (k in x <==> k in small) && (k in y <==> k in large);
    assert forall k | k != self && k in x :: x[k] == small[k] && y[k] == large[k];
    assert Below(x, y) <==> (self in x ==> self in y && x[self] <= y[self]);
  }

  // ----- What each kind of instruction does to the entries -----

  /** The two facts say the same of the key. */
  predicate SameEntry(x: Fact, y: Fact, k: Value) {
    (k in x <==> k in y) && (k in x ==> x[k] == y[k])
  }

  /** The key takes over the whole entry of another, if that has one, and keeps its own
      otherwise. */
  predicate TakesOver(x: Fact, from: Value, to: Value, y: Fact) {
    if from in x then to in y && y[to] == x[from] else SameEntry(x, y, to)
  }

  /** A load, a bit cast, a cast of a pointer to an integer and a binary operator copy the
      entry of their first operand. */
  predicate CopiesFirstOperand(inst: Instr) {
    inst.Load? || (inst.Cast? && (inst.kind.BitCast? || inst.kind.PtrToInt?)) || inst.BinaryOp?
  }

  /** The fact after an instruction, by the kind of the instruction. Only the register the
      instruction defines and the receiver of a store change. */
  ghost predicate IsOutputOf(inst: Instr, self: Value, x: Fact, y: Fact) {
    && (forall k | k != (if inst.Store? then inst.receiver else self) :: SameEntry(x, y, k))
    && (inst.Call? ==> self in y && forall v :: v in y[self] <==> v == self || (self in x && v in x[self]))
    && (CopiesFirstOperand(inst) ==> TakesOver(x, Operands(inst)[0], self, y))
    && (inst.Store? ==>
          if (inst.sender.ConstInt? || inst.sender.ConstBool?) && inst.sender !in x then
            inst.receiver in y &&
            forall v :: v in y[inst.receiver] <==> v == inst.sender || (inst.receiver in x && v in x[inst.receiver])
          else TakesOver(x, inst.sender, inst.receiver, y))
    && (!inst.Call? && !inst.Store? && !CopiesFirstOperand(inst) ==> SameEntry(x, y, self))
  }

  lemma TransferMeans(inst: Instr, self: Value, in_: Fact)
    ensures IsOutputOf(inst, self, in_, Transfer(inst, self, in_))
  {
  }

  /** The visitors, which edit a copy of the input fact. */
  method OutputFact(inst: Instr, self: Value, in_: Fact) returns (out: Fact)
    ensures out == Transfer(inst, self, in_)
    ensures IsOutputOf(inst, self, in_, out)
  {
    TransferMeans(inst, self, in_);
    out := in_;
    match inst {
      case Call(_, _) =>
        if self !in out {
          out := out[self := {}];
        }
        out := out[self := out[self] + {self}];
      case Store(sender, receiver) =>
        if IsConstantInt(sender) {
          if receiver !in out {
            out := out[receiver := {}];
          }
          out := out[receiver := out[receiver] + {sender}];
        }
        if sender in in_ {
          out := out[receiver := in_[sender]];
        }
      case Load(address) =>
        if address in in_ {
          out := out[self := in_[address]];
        }
      case Cast(kind, source) =>
        if (kind.BitCast? || kind.PtrToInt?) && source in in_ {
          out := out[self := in_[source]];
        }
      case BinaryOp(x, _) =>
        if x in in_ {
          out := out[self := in_[x]];
        }
      case _ =>
    }
  }

  // ----- Invariants of the sweep -----

  ghost predicate Shape(fn: Function, facts: Facts) {
    WellFormed(fn) && facts.Keys == Points(fn)
  }

  ghost predicate AgreesAt(fn: Function, facts: Facts, b: nat, i: nat)
    requires Shape(fn, facts) && IsInstruction(fn, b, i)
  {
    facts[Point(b, i + 1)] == Transfer(fn.blocks[b][i], Reg(b, i), facts[Point(b, i)])
  }

  ghost predicate Consistent(fn: Function, facts: Facts, b: nat, to: int)
    requires Shape(fn, facts) && b < |fn.blocks|
  {
    forall i: nat | i < to && IsInstruction(fn, b, i) :: AgreesAt(fn, facts, b, i)
  }

  ghost predicate EdgesInto(fn: Function, facts: Facts, b: nat, done: set<nat>)
    requires Shape(fn, facts) && b < |fn.blocks|
  {
    forall p | p in done && p < |fn.blocks| :: Below(facts[End(fn, p)], facts[Point(b, 0)])
  }

  ghost predicate Settled(fn: Function, facts: Facts, b: nat)
    requires Shape(fn, facts) && b < |fn.blocks|
  {
    Consistent(fn, facts, b, Length(fn, b)) && EdgesInto(fn, facts, b, Predecessors(fn, b))
  }

  /** The dataflow equations, with an inclusion at joins. */
  ghost predicate IsPostFixpoint(fn: Function, facts: Facts) {
    Shape(fn, facts) && forall b: nat | b < |fn.blocks| :: Settled(fn, facts, b)
  }

  ghost predicate FactBounded(fn: Function, x: Fact) {
    forall k :: k in x ==> k in Values(fn) && x[k] <= Values(fn)
  }

  ghost predicate Bounded(fn: Function, facts: Facts) {
    forall p | p in facts :: FactBounded(fn, facts[p])
  }

  /** The instruction keeps a value, but its visitor copies no entry: it is a sign
      extension, or a cast of an integer constant. */
  predicate DropsEntry(inst: Instr) {
    && inst.Cast? && !inst.source.Slot?
    && (inst.kind.SExt? || (!inst.kind.Trunc? && (inst.source.ConstInt? || inst.source.ConstBool?)))
  }

  /** Integer constants, and the results of sign extensions and of casts of integer
      constants, which are never addresses. */
  predicate IsInteger(fn: Function, v: Value) {
    IsConstantInt(v) || (Definition(fn, v).Some? && DropsEntry(Definition(fn, v).value))
  }

  /** No store goes to an integer. */
  predicate IntegersAreNotAddresses(fn: Function) {
    forall b: nat, i: nat | b < |fn.blocks| && i < |fn.blocks[b]| ::
      fn.blocks[b][i].Store? ==> !IsInteger(fn, fn.blocks[b][i].receiver)
  }

  ghost predicate HasNoIntegerKeys(fn: Function, x: Fact) {
    forall k :: k in x ==> !IsInteger(fn, k)
  }

  ghost predicate KeysAreNotIntegers(fn: Function, facts: Facts)
    requires Shape(fn, facts)
  {
    forall p | p in facts :: HasNoIntegerKeys(fn, facts[p])
  }

  /** Nothing enters a block without predecessors. */
  ghost predicate StartsEmpty(fn: Function, facts: Facts)
    requires Shape(fn, facts)
  {
    forall b: nat | b < |fn.blocks| && Predecessors(fn, b) == {} :: facts[Point(b, 0)] == map[]
  }

  // ----- Where the listed values come from -----

  /** A key at a point. */
  datatype Site = Site(point: Point, key: Value)

  /** The instruction lists a value that no fact before it lists: a call lists itself, and a
      store of an integer constant that constant. */
  predicate Brings(inst: Instr, self: Value, key: Value, v: Value) {
    || (inst.Call? && key == self && v == self)
    || (inst.Store? && key == inst.receiver && v == inst.sender && (v.ConstInt? || v.ConstBool?))
  }

  /** What is listed for one key before the instruction may be listed for the other after
      it. */
  predicate Passes(inst: Instr, self: Value, from: Value, to: Value) {
    || from == to
    || (CopiesFirstOperand(inst) && from == Operands(inst)[0] && to == self)
    || (inst.Store? && from == inst.sender && to == inst.receiver)
  }

  ghost predicate Moves(fn: Function, s: Site, t: Site)
    requires WellFormed(fn)
  {
    && IsPoint(fn, s.point) && PathStep(fn, s.point, t.point)
    && if s.point.index < Length(fn, s.point.block) then
         Passes(fn.blocks[s.point.block][s.point.index], Reg(s.point.block, s.point.index), s.key, t.key)
       else s.key == t.key
  }

  ghost predicate IsBrought(fn: Function, v: Value, s: Site) {
    var Site(p, key) := s;
    && p.index > 0 && IsInstruction(fn, p.block, p.index - 1)
    && Brings(fn.blocks[p.block][p.index - 1], Reg(p.block, p.index - 1), key, v)
  }

  ghost function Bringing(fn: Function, v: Value): Site -> bool {
    s => IsBrought(fn, v, s)
  }

  ghost function Moving(fn: Function): (Site, Site) -> bool {
    (s, t) => WellFormed(fn) && Moves(fn, s, t)
  }

  /** The value is brought in somewhere and moves from there to the site. */
  ghost predicate Arrives(fn: Function, v: Value, s: Site) {
    Reaches(Bringing(fn, v), Moving(fn), s)
  }

  ghost predicate FactJustified(fn: Function, p: Point, x: Fact)
    requires WellFormed(fn)
  {
    forall k, v | k in x && v in x[k] :: Arrives(fn, v, Site(p, k))
  }

  /** Whatever is listed has been brought in somewhere and moved here. */
  ghost predicate Justified(fn: Function, facts: Facts)
    requires WellFormed(fn)
  {
    forall p | p in facts :: FactJustified(fn, p, facts[p])
  }

  lemma TransferJustified(fn: Function, b: nat, i: nat, x: Fact)
    requires WellFormed(fn) && IsInstruction(fn, b, i) && FactJustified(fn, Point(b, i), x)
    ensures FactJustified(fn, Point(b, i + 1), Transfer(fn.blocks[b][i], Reg(b, i), x))
  {
    var inst, self := fn.blocks[b][i], Reg(b, i);
    var out := Transfer(inst, self, x);
    TransferMeans(inst, self, x);
    forall k, v | k in out && v in out[k]
      ensures Arrives(fn, v, Site(Point(b, i + 1), k))
    {
      if Brings(inst, self, k, v) {
        ReachesStart(Bringing(fn, v), Moving(fn), Site(Point(b, i + 1), k));
      } else {
        var from :| from in x && v in x[from] && Passes(inst, self, from, k);
        ReachesNext(Bringing(fn, v), Moving(fn), Site(Point(b, i), from), Site(Point(b, i + 1), k));
      }
    }
  }

  lemma EdgeJustified(fn: Function, p: nat, b: nat, x: Fact)
    requires WellFormed(fn) && b < |fn.blocks| && p in Predecessors(fn, b) && FactJustified(fn, End(fn, p), x)
    ensures FactJustified(fn, Point(b, 0), x)
  {
    forall k, v | k in x && v in x[k]
      ensures Arrives(fn, v, Site(Point(b, 0), k))
    {
      ReachesNext(Bringing(fn, v), Moving(fn), Site(End(fn, p), k), Site(Point(b, 0), k));
    }
  }

  /** Facts name values of the function, keys are not integers, and nothing comes from
      nowhere. */
  ghost predicate Sane(fn: Function, facts: Facts)
    requires Shape(fn, facts)
  {
    && Bounded(fn, facts) && StartsEmpty(fn, facts) && Justified(fn, facts)
    && (IntegersAreNotAddresses(fn) ==> KeysAreNotIntegers(fn, facts))
  }

  lemma TransferHasNoIntegerKeys(fn: Function, b: nat, i: nat, in_: Fact)
    requires IsInstruction(fn, b, i) && IntegersAreNotAddresses(fn) && HasNoIntegerKeys(fn, in_)
    ensures HasNoIntegerKeys(fn, Transfer(fn.blocks[b][i], Reg(b, i), in_))
  {
    assert Definition(fn, Reg(b, i)) == Some(fn.blocks[b][i]);
  }

  lemma TransferBounded(fn: Function, b: nat, i: nat, in_: Fact)
    requires IsInstruction(fn, b, i) && FactBounded(fn, in_)
    ensures FactBounded(fn, Transfer(fn.blocks[b][i], Reg(b, i), in_))
  {
    var inst := fn.blocks[b][i];
    if inst.Store? {
      assert inst.sender in Operands(inst) && inst.receiver in Operands(inst);
    }
  }

  // ----- Progress: entry facts only grow -----

  /** What an entry fact says: a key is there, or a value is among those of a key. */
  datatype Atom = Key(key: Value) | Member(key: Value, value: Value)

  predicate HasAtom(x: Fact, a: Atom) {
    match a
    case Key(k) => k in x
    case Member(k, v) => k in x && v in x[k]
  }

  function Atoms(fn: Function): set<Atom> {
    (set k | k in Values(fn) :: Key(k)) + (set k, v | k in Values(fn) && v in Values(fn) :: Member(k, v))
  }

  /** Everything the entry facts could say; its size is the height of the lattice. */
  function Universe(fn: Function): set<(nat, Atom)> {
    set b: nat, a | b < |fn.blocks| && a in Atoms(fn) :: (b, a)
  }

  ghost function Missing(fn: Function, facts: Facts): set<(nat, Atom)>
    requires Shape(fn, facts)
  {
    set e | e in Universe(fn) && !(e.0 < |fn.blocks| && HasAtomAt(fn, facts, e.0, e.1)) :: e
  }

  ghost predicate HasAtomAt(fn: Function, facts: Facts, b: nat, a: Atom)
    requires Shape(fn, facts) && b < |fn.blocks|
  {
    HasAtom(facts[Point(b, 0)], a)
  }

  lemma AtomsKept(x: Fact, y: Fact, a: Atom)
    requires Below(x, y) && HasAtom(x, a)
    ensures HasAtom(y, a)
  {
  }

  lemma AtomGained(x: Fact, y: Fact) returns (a: Atom)
    requires Below(x, y) && x != y
    ensures HasAtom(y, a) && !HasAtom(x, a)
  {
    if k :| k in y && k !in x {
      a := Key(k);
    } else {
      assert x.Keys == y.Keys;
      var k :| k in y && x[k] != y[k];
      var v :| v in y[k] && v !in x[k];
      a := Member(k, v);
    }
  }

  /** Growing one entry fact leaves less to gain. */
  lemma GrowthShrinksMissing(fn: Function, before: Facts, after: Facts, b: nat)
    requires Shape(fn, before) && Shape(fn, after) && Bounded(fn, after) && b < |fn.blocks|
    requires forall c: nat | c < |fn.blocks| && c != b :: after[Point(c, 0)] == before[Point(c, 0)]
    requires Below(before[Point(b, 0)], after[Point(b, 0)])
    ensures Missing(fn, after) <= Missing(fn, before)
    ensures before[Point(b, 0)] != after[Point(b, 0)] ==> Missing(fn, after) < Missing(fn, before)
  {
    forall e | e in Universe(fn) && e.0 < |fn.blocks| && HasAtomAt(fn, before, e.0, e.1)
      ensures HasAtomAt(fn, after, e.0, e.1)
    {
      if e.0 == b {
        AtomsKept(before[Point(b, 0)], after[Point(b, 0)], e.1);
      }
    }
    if before[Point(b, 0)] != after[Point(b, 0)] {
      var a := AtomGained(before[Point(b, 0)], after[Point(b, 0)]);
      assert IsPoint(fn, Point(b, 0)) && FactBounded(fn, after[Point(b, 0)]);
      assert (b, a) in Universe(fn);
      assert HasAtomAt(fn, after, b, a) && !HasAtomAt(fn, before, b, a);
      assert (b, a) in Missing(fn, before) && (b, a) !in Missing(fn, after);
    }
  }

  // ----- Steps of the sweep -----

  ghost predicate OnlyEntryChanged(fn: Function, before: Facts, after: Facts, b: nat)
    requires Shape(fn, before) && Shape(fn, after)
  {
    forall p | p in before && p != Point(b, 0) :: after[p] == before[p]
  }

  /** Only output facts of block `b` may differ. */
  ghost predicate OnlyOutputsChanged(fn: Function, before: Facts, after: Facts, b: nat)
    requires Shape(fn, before) && Shape(fn, after)
  {
    forall p | p in before && (p.block != b || p.index == 0) :: after[p] == before[p]
  }

  /** Recomputing a block from an unchanged entry changes nothing. */
  lemma SameEntrySameFacts(fn: Function, before: Facts, after: Facts, b: nat, i: nat)
    requires Shape(fn, before) && Shape(fn, after) && b < |fn.blocks| && i <= Length(fn, b)
    requires Consistent(fn, before, b, Length(fn, b)) && Consistent(fn, after, b, Length(fn, b))
    requires before[Point(b, 0)] == after[Point(b, 0)]
    ensures before[Point(b, i)] == after[Point(b, i)]
  {
    if i > 0 {
      SameEntrySameFacts(fn, before, after, b, i - 1);
      assert AgreesAt(fn, before, b, i - 1) && AgreesAt(fn, after, b, i - 1);
    }
  }

  lemma SameEntrySameBlock(fn: Function, before: Facts, after: Facts, b: nat)
    requires Shape(fn, before) && Shape(fn, after) && b < |fn.blocks|
    requires Consistent(fn, before, b, Length(fn, b)) && Consistent(fn, after, b, Length(fn, b))
    requires OnlyOutputsChanged(fn, before, after, b)
    ensures after == before
  {
    assert IsPoint(fn, Point(b, 0));
    forall p | p in before
      ensures after[p] == before[p]
    {
      if p.block == b {
        SameEntrySameFacts(fn, before, after, b, p.index);
        assert p == Point(b, p.index);
      }
    }
  }

  /** The entry of a block is the least fact above its earlier entry and the output facts of
      the given predecessors: a fact is above the entry if and only if it is above all of
      these. Nothing else has changed. */
  ghost predicate EntryIsJoin(fn: Function, before: Facts, after: Facts, b: nat, done: set<nat>)
    requires Shape(fn, before) && b < |fn.blocks|
  {
    && IsPoint(fn, Point(b, 0)) && Point(b, 0) in after
    && after == before[Point(b, 0) := after[Point(b, 0)]]
    && forall z: Fact :: Below(after[Point(b, 0)], z) <==> AboveEntryAndEdges(fn, before, b, done, z)
  }

  ghost predicate AboveEntryAndEdges(fn: Function, before: Facts, b: nat, done: set<nat>, z: Fact)
    requires Shape(fn, before) && b < |fn.blocks| && IsPoint(fn, Point(b, 0))
  {
    Below(before[Point(b, 0)], z) && forall p | p in done && p < |fn.blocks| :: AboveEdge(fn, before, p, z)
  }

  ghost predicate AboveEdge(fn: Function, facts: Facts, p: nat, z: Fact)
    requires Shape(fn, facts) && p < |fn.blocks|
  {
    assert IsPoint(fn, End(fn, p));
    Below(facts[End(fn, p)], z)
  }

  lemma EntryStarts(fn: Function, facts: Facts, b: nat)
    requires Shape(fn, facts) && b < |fn.blocks|
    ensures EntryIsJoin(fn, facts, facts, b, {})
  {
    assert IsPoint(fn, Point(b, 0));
    assert facts == facts[Point(b, 0) := facts[Point(b, 0)]];
  }

  lemma EntryIsJoinStep(fn: Function, before: Facts, now: Facts, b: nat, done: set<nat>, p: nat)
    requires Shape(fn, before) && b < |fn.blocks| && p < |fn.blocks|
    requires EntryIsJoin(fn, before, now, b, done) && IsPoint(fn, End(fn, p))
    ensures var start := Point(b, 0);
            EntryIsJoin(fn, before, now[start := Joined(now[start], now[End(fn, p)])], b, done + {p})
  {
    var start := Point(b, 0);
    assert WellFormedBlock(fn, p);
    var sent := now[End(fn, p)];
    var entry := Joined(now[start], sent);
    forall z: Fact
      ensures Below(entry, z) <==> AboveEntryAndEdges(fn, before, b, done + {p}, z)
    {
      JoinedIsLeast(now[start], sent, z);
      if Below(entry, z) {
        BelowTransitive(now[start], entry, z);
        BelowTransitive(sent, entry, z);
      }
      assert Below(now[start], z) <==> AboveEntryAndEdges(fn, before, b, done, z);
      assert Below(sent, z) <==> AboveEdge(fn, before, p, z);
    }
  }

  lemma EntryIsJoinCovers(fn: Function, before: Facts, after: Facts, b: nat)
    requires Shape(fn, before) && Shape(fn, after) && b < |fn.blocks|
    requires EntryIsJoin(fn, before, after, b, Predecessors(fn, b))
    ensures OnlyEntryChanged(fn, before, after, b) && Below(before[Point(b, 0)], after[Point(b, 0)])
    ensures EdgesInto(fn, after, b, Predecessors(fn, b))
  {
    var entry := after[Point(b, 0)];
    assert Below(entry, entry);
    assert AboveEntryAndEdges(fn, before, b, Predecessors(fn, b), entry);
    forall p | p in Predecessors(fn, b) && p < |fn.blocks|
      ensures Below(after[End(fn, p)], entry)
    {
      assert WellFormedBlock(fn, p) && AboveEdge(fn, before, p, entry);
    }
  }

  lemma JoinedIsJustified(fn: Function, p: Point, x: Fact, y: Fact)
    requires WellFormed(fn) && FactJustified(fn, p, x) && FactJustified(fn, p, y)
    ensures FactJustified(fn, p, Joined(x, y))
  {
    var z := Joined(x, y);
    forall k, v | k in z && v in z[k]
      ensures Arrives(fn, v, Site(p, k))
    {
      assert v in Get(x, k) || v in Get(y, k);
    }
  }

  lemma JoinedIsBounded(fn: Function, x: Fact, y: Fact)
    requires FactBounded(fn, x) && FactBounded(fn, y)
    ensures FactBounded(fn, Joined(x, y))
  {
    forall k | k in Joined(x, y)
      ensures k in Values(fn) && Joined(x, y)[k] <= Values(fn)
    {
      assert Get(x, k) <= Values(fn) && Get(y, k) <= Values(fn);
    }
  }

  lemma JoinStep(fn: Function, facts: Facts, b: nat, p: nat)
    requires Shape(fn, facts) && Sane(fn, facts) && b < |fn.blocks| && p in Predecessors(fn, b)
    ensures IsPoint(fn, Point(b, 0)) && IsPoint(fn, End(fn, p)) && End(fn, p) != Point(b, 0)
    ensures Sane(fn, facts[Point(b, 0) := Joined(facts[Point(b, 0)], facts[End(fn, p)])])
  {
    var start := Point(b, 0);
    assert IsPoint(fn, start) && IsPoint(fn, End(fn, p)) && WellFormedBlock(fn, p);
    EdgeJustified(fn, p, b, facts[End(fn, p)]);
    JoinedIsJustified(fn, start, facts[start], facts[End(fn, p)]);
    JoinedIsBounded(fn, facts[start], facts[End(fn, p)]);
    assert HasNoIntegerKeys(fn, facts[start]) && HasNoIntegerKeys(fn, facts[End(fn, p)]) ==>
        HasNoIntegerKeys(fn, Joined(facts[start], facts[End(fn, p)]));
  }

  lemma VisitStep(fn: Function, facts: Facts, b: nat, i: nat)
    requires Shape(fn, facts) && Sane(fn, facts) && IsInstruction(fn, b, i)
    requires Consistent(fn, facts, b, i)
    ensures IsPoint(fn, Point(b, i)) && IsPoint(fn, Point(b, i + 1))
    ensures var after := facts[Point(b, i + 1) := Transfer(fn.blocks[b][i], Reg(b, i), facts[Point(b, i)])];
            Sane(fn, after) && Consistent(fn, after, b, i + 1)
  {
    assert IsPoint(fn, Point(b, i)) && IsPoint(fn, Point(b, i + 1));
    TransferBounded(fn, b, i, facts[Point(b, i)]);
    TransferJustified(fn, b, i, facts[Point(b, i)]);
    if IntegersAreNotAddresses(fn) {
      TransferHasNoIntegerKeys(fn, b, i, facts[Point(b, i)]);
    }
    var after := facts[Point(b, i + 1) := Transfer(fn.blocks[b][i], Reg(b, i), facts[Point(b, i)])];
    forall j: nat | j < i + 1 && IsInstruction(fn, b, j)
      ensures AgreesAt(fn, after, b, j)
    {
      assert j < i ==> AgreesAt(fn, facts, b, j);
    }
  }

  /** The first `i` output facts of a block have been recomputed, nothing else. */
  ghost predicate VisitedUpTo(fn: Function, start: Facts, now: Facts, b: nat, i: nat, changed: bool)
    requires Shape(fn, start)
  {
    && Shape(fn, now) && Sane(fn, now) && b < |fn.blocks|
    && (forall p | p in start && !(p.block == b && 0 < p.index <= i) :: now[p] == start[p])
    && Consistent(fn, now, b, i)
    && (changed <==> now != start)
  }

  /** Comparing the one output fact that a visit writes is enough to notice change. */
  lemma ChangeIsNoticed(start: Facts, now: Facts, q: Point, out: Fact)
    requires start.Keys == now.Keys && q in now && now[q] == start[q]
    ensures now[q := out] != start <==> now != start || out != now[q]
  {
    if now != start {
      var p :| p in now && now[p] != start[p];
      assert now[q := out][p] != start[p];
    } else if out == now[q] {
      assert now[q := out] == now;
    } else {
      assert now[q := out][q] != start[q];
    }
  }

  lemma VisitedOneMore(fn: Function, start: Facts, now: Facts, b: nat, i: nat, changed: bool)
    requires Shape(fn, start) && IsInstruction(fn, b, i) && VisitedUpTo(fn, start, now, b, i, changed)
    ensures IsPoint(fn, Point(b, i)) && IsPoint(fn, Point(b, i + 1))
    ensures var out := Transfer(fn.blocks[b][i], Reg(b, i), now[Point(b, i)]);
            VisitedUpTo(fn, start, now[Point(b, i + 1) := out], b, i + 1, changed || out != now[Point(b, i + 1)])
  {
    VisitStep(fn, now, b, i);
    ChangeIsNoticed(start, now, Point(b, i + 1), Transfer(fn.blocks[b][i], Reg(b, i), now[Point(b, i)]));
  }

  lemma OtherBlocksConsistent(fn: Function, before: Facts, after: Facts, b: nat)
    requires Shape(fn, before) && Shape(fn, after) && b < |fn.blocks|
    requires forall p | p in before && p.block != b :: after[p] == before[p]
    ensures forall c: nat | c < |fn.blocks| && c != b ::
              Consistent(fn, before, c, Length(fn, c)) ==> Consistent(fn, after, c, Length(fn, c))
  {
    forall c: nat | c < |fn.blocks| && c != b && Consistent(fn, before, c, Length(fn, c))
      ensures Consistent(fn, after, c, Length(fn, c))
    {
      forall i: nat | i < Length(fn, c) && IsInstruction(fn, c, i)
        ensures AgreesAt(fn, after, c, i)
      {
        assert AgreesAt(fn, before, c, i);
        assert IsPoint(fn, Point(c, i)) && IsPoint(fn, Point(c, i + 1));
      }
    }
  }

  /** What one sweep has done after `b` blocks. */
  ghost predicate Swept(fn: Function, start: Facts, now: Facts, b: nat, first: bool, changed: bool)
    requires Shape(fn, start) && Shape(fn, now)
  {
    && (forall c: nat | c < |fn.blocks| && (c < b || !first) :: Consistent(fn, now, c, Length(fn, c)))
    && (!changed ==>
          && (forall p | p in start && p.index > 0 :: now[p] == start[p])
          && forall c: nat | c < |fn.blocks| && c < b :: EdgesInto(fn, now, c, Predecessors(fn, c)))
    && Missing(fn, now) <= Missing(fn, start)
    && (changed && !first ==> Missing(fn, now) < Missing(fn, start))
  }

  lemma EdgesIntoKept(fn: Function, before: Facts, after: Facts, c: nat)
    requires Shape(fn, before) && Shape(fn, after) && c < |fn.blocks|
    requires EdgesInto(fn, before, c, Predecessors(fn, c))
    requires after[Point(c, 0)] == before[Point(c, 0)]
    requires forall p | p in before && p.index > 0 :: after[p] == before[p]
    ensures EdgesInto(fn, after, c, Predecessors(fn, c))
  {
    forall p | p in Predecessors(fn, c) && p < |fn.blocks|
      ensures Below(after[End(fn, p)], after[Point(c, 0)])
    {
      assert WellFormedBlock(fn, p) && IsPoint(fn, End(fn, p));
    }
  }

  lemma SweptExtends(fn: Function, start: Facts, now: Facts, joined: Facts, after: Facts, b: nat, first: bool, changed: bool, blockChanged: bool)
    requires Shape(fn, start) && Shape(fn, now) && Shape(fn, joined) && Shape(fn, after)
    requires b < |fn.blocks| && Bounded(fn, joined)
    requires Swept(fn, start, now, b, first, changed)
    requires OnlyEntryChanged(fn, now, joined, b) && Below(now[Point(b, 0)], joined[Point(b, 0)])
    requires EdgesInto(fn, joined, b, Predecessors(fn, b))
    requires OnlyOutputsChanged(fn, joined, after, b) && Consistent(fn, after, b, Length(fn, b))
    requires blockChanged <==> after != joined
    ensures Swept(fn, start, after, b + 1, first, blockChanged || changed)
  {
    assert IsPoint(fn, Point(b, 0));
    forall c: nat | c < |fn.blocks|
      ensures IsPoint(fn, Point(c, 0)) && after[Point(c, 0)] == joined[Point(c, 0)]
    {
      assert IsPoint(fn, Point(c, 0));
    }
    GrowthShrinksMissing(fn, now, joined, b);
    assert Missing(fn, after) == Missing(fn, joined) by {
      forall e | e in Universe(fn) && e.0 < |fn.blocks|
        ensures HasAtomAt(fn, after, e.0, e.1) <==> HasAtomAt(fn, joined, e.0, e.1)
      {
      }
    }
    OtherBlocksConsistent(fn, now, after, b);
    if !first && now[Point(b, 0)] == joined[Point(b, 0)] {
      assert joined == now;
      SameEntrySameBlock(fn, now, after, b);
    }
    if !(blockChanged || changed) {
      forall c: nat | c < |fn.blocks| && c < b + 1
        ensures EdgesInto(fn, after, c, Predecessors(fn, c))
      {
        if c < b {
          EdgesIntoKept(fn, now, after, c);
        }
      }
    }
  }

  lemma SweepSettles(fn: Function, start: Facts, now: Facts, first: bool)
    requires Shape(fn, start) && Shape(fn, now)
    requires Swept(fn, start, now, |fn.blocks|, first, false)
    ensures IsPostFixpoint(fn, now)
  {
  }

  // ----- Provenance -----

  /** The fact accounts for everything that is held. */
  ghost predicate Accounts(held: Held, x: Fact) {
    forall v :: v in held ==> v in x && held[v] in x[v]
  }

  /** An instruction of that kind with a source of known origin: its result is held, and has
      no entry. */
  lemma EntryIsDropped(inst: Instr, self: Value, held: Held, x: Fact)
    requires DropsEntry(inst) && OriginOf(held, inst.source).Some?
    requires self !in x && !(IsConstantInt(inst.source) && inst.source in x)
    ensures self in Execute(inst, self, held) && self !in Transfer(inst, self, x)
    ensures !Accounts(Execute(inst, self, held), Transfer(inst, self, x))
  {
  }

  /** The instruction at the end of a path drops an entry, though the origin is known. */
  ghost predicate DropsHeld(fn: Function, path: seq<Point>)
    requires WellFormed(fn) && IsPath(fn, path)
  {
    var p := path[|path| - 1];
    && p.index < Length(fn, p.block) && DropsEntry(fn.blocks[p.block][p.index])
    && OriginOf(HeldAfter(fn, path), fn.blocks[p.block][p.index].source).Some?
  }

  /** A store through a register that holds something, by a sender whose entry does not
      list that. */
  predicate Overwrites(inst: Instr, held: Held, x: Fact) {
    && inst.Store? && !inst.receiver.Slot? && inst.receiver in held
    && inst.sender in x && held[inst.receiver] !in x[inst.sender]
  }

  /** The instruction at the end of a path is such a store. */
  ghost predicate OverwritesHeld(fn: Function, facts: Facts, path: seq<Point>)
    requires Shape(fn, facts) && IsPath(fn, path)
  {
    var p := path[|path| - 1];
    && p.index < Length(fn, p.block)
    && Overwrites(fn.blocks[p.block][p.index], HeldAfter(fn, path), facts[p])
  }

  /** One instruction, if it neither drops nor overwrites an entry. */
  lemma ExecuteAccounts(inst: Instr, self: Value, held: Held, x: Fact)
    requires Accounts(held, x) && self.Reg?
    requires inst.Store? ==> !(IsConstantInt(inst.sender) && inst.sender in x)
    requires !(DropsEntry(inst) && OriginOf(held, inst.source).Some?)
    requires !Overwrites(inst, held, x)
    ensures Accounts(Execute(inst, self, held), Transfer(inst, self, x))
  {
  }

  ghost predicate NeverDropsHeld(fn: Function)
    requires WellFormed(fn)
  {
    forall path | IsPath(fn, path) :: !DropsHeld(fn, path)
  }

  ghost predicate NeverOverwritesHeld(fn: Function, facts: Facts)
    requires Shape(fn, facts)
  {
    forall path | IsPath(fn, path) :: !OverwritesHeld(fn, facts, path)
  }

  ghost predicate IsSoundAt(fn: Function, facts: Facts, path: seq<Point>)
    requires Shape(fn, facts) && IsPath(fn, path)
  {
    Accounts(HeldAfter(fn, path), facts[path[|path| - 1]])
  }

  ghost predicate IsSound(fn: Function, facts: Facts)
    requires Shape(fn, facts)
  {
    forall path | IsPath(fn, path) :: IsSoundAt(fn, facts, path)
  }

  lemma EdgeAccounts(held: Held, x: Fact, y: Fact)
    requires Accounts(held, x) && Below(x, y)
    ensures Accounts(OverEdge(held), y)
  {
  }

  /** Sound for provenance: along every path, whatever a slot or a register holds is
      among the values its entry lists, although a store may shrink an entry. */
  lemma {:induction false} ProvenanceIsSound(fn: Function, facts: Facts, path: seq<Point>)
    requires IsPostFixpoint(fn, facts) && KeysAreNotIntegers(fn, facts)
    requires NeverDropsHeld(fn) && NeverOverwritesHeld(fn, facts)
    requires IsPath(fn, path)
    ensures IsSoundAt(fn, facts, path)
    decreases |path|
  {
    if |path| > 1 {
      var before := path[..|path| - 1];
      PathPrefix(fn, path);
      ProvenanceIsSound(fn, facts, before);
      var p := before[|before| - 1];
      var q := path[|path| - 1];
      assert PathStep(fn, path[|path| - 2], path[|path| - 1]);
      var held := HeldAfter(fn, before);
      if p.index < Length(fn, p.block) {
        assert Settled(fn, facts, p.block);
        assert AgreesAt(fn, facts, p.block, p.index);
        assert HasNoIntegerKeys(fn, facts[p]);
        assert !DropsHeld(fn, before) && !OverwritesHeld(fn, facts, before);
        ExecuteAccounts(fn.blocks[p.block][p.index], Reg(p.block, p.index), held, facts[p]);
      } else {
        assert Settled(fn, facts, q.block) && p.block in Predecessors(fn, q.block);
        EdgeAccounts(held, facts[p], facts[q]);
      }
    }
  }

  lemma NextFact(fn: Function, facts: Facts, p: Point)
    requires IsPostFixpoint(fn, facts) && IsPoint(fn, p) && p.index < Length(fn, p.block)
    ensures IsPoint(fn, Point(p.block, p.index + 1))
    ensures facts[Point(p.block, p.index + 1)] == Transfer(fn.blocks[p.block][p.index], Reg(p.block, p.index), facts[p])
  {
    assert Settled(fn, facts, p.block);
    assert AgreesAt(fn, facts, p.block, p.index);
  }

  lemma DropIsUnsound(fn: Function, facts: Facts, path: seq<Point>)
    requires IsPostFixpoint(fn, facts) && KeysAreNotIntegers(fn, facts) && IsPath(fn, path) && DropsHeld(fn, path)
    ensures !IsSound(fn, facts)
  {
    var p := path[|path| - 1];
    PathExtends(fn, path);
    NextFact(fn, facts, p);
    assert HasNoIntegerKeys(fn, facts[p]);
    assert Definition(fn, Reg(p.block, p.index)) == Some(fn.blocks[p.block][p.index]);
    EntryIsDropped(fn.blocks[p.block][p.index], Reg(p.block, p.index), HeldAfter(fn, path), facts[p]);
    assert !IsSoundAt(fn, facts, path + [Point(p.block, p.index + 1)]);
  }

  lemma OverwriteIsUnsound(fn: Function, facts: Facts, path: seq<Point>)
    requires IsPostFixpoint(fn, facts) && IsPath(fn, path) && OverwritesHeld(fn, facts, path)
    ensures !IsSound(fn, facts)
  {
    var p := path[|path| - 1];
    var receiver := fn.blocks[p.block][p.index].receiver;
    PathExtends(fn, path);
    NextFact(fn, facts, p);
    var longer := path + [Point(p.block, p.index + 1)];
    assert HeldAfter(fn, longer)[receiver] !in facts[Point(p.block, p.index + 1)][receiver];
    assert !IsSoundAt(fn, facts, longer);
  }

  /** Exactly when provenance is sound: no path sign-extends a value of known origin or
      casts an integer constant, and none stores through a register that holds something
      the sender's entry does not list. */
  lemma ProvenanceIsSoundExactly(fn: Function, facts: Facts)
    requires IsPostFixpoint(fn, facts) && KeysAreNotIntegers(fn, facts)
    ensures IsSound(fn, facts) <==> NeverDropsHeld(fn) && NeverOverwritesHeld(fn, facts)
  {
    if !NeverDropsHeld(fn) {
      var path :| IsPath(fn, path) && DropsHeld(fn, path);
      DropIsUnsound(fn, facts, path);
    } else if !NeverOverwritesHeld(fn, facts) {
      var path :| IsPath(fn, path) && OverwritesHeld(fn, facts, path);
      OverwriteIsUnsound(fn, facts, path);
    } else {
      forall path | IsPath(fn, path)
        ensures IsSoundAt(fn, facts, path)
      {
        ProvenanceIsSound(fn, facts, path);
      }
    }
  }

  // ----- Whole runs -----

  /** A visit of a block recomputes its output facts. */
  ghost predicate IsVisit(fn: Function, x: Facts, y: Facts, b: nat)
    requires Shape(fn, x) && b < |fn.blocks|
  {
    Shape(fn, y) && OnlyOutputsChanged(fn, x, y, b) && Consistent(fn, y, b, Length(fn, b))
  }

  ghost predicate StepsAt(fn: Function, x: Facts, y: Facts, b: nat)
    requires Shape(fn, x)
  {
    b < |fn.blocks| && (EntryIsJoin(fn, x, y, b, Predecessors(fn, b)) || IsVisit(fn, x, y, b))
  }

  ghost predicate IsStep(fn: Function, x: Facts, y: Facts) {
    Shape(fn, x) && exists b: nat :: StepsAt(fn, x, y, b)
  }

  ghost predicate IsEmpty(facts: Facts) {
    forall p | p in facts :: facts[p] == map[]
  }

  ghost function Stepping(fn: Function): (Facts, Facts) -> bool {
    (x, y) => IsStep(fn, x, y)
  }

  /** The facts have come from empty ones by joins of predecessors and visits of blocks, and
      by nothing else. */
  ghost predicate IsReached(fn: Function, facts: Facts) {
    Reaches(IsEmpty, Stepping(fn), facts)
  }

  lemma StepReaches(fn: Function, x: Facts, y: Facts, b: nat)
    requires IsReached(fn, x) && Shape(fn, x) && StepsAt(fn, x, y, b)
    ensures IsReached(fn, y)
  {
    ReachesNext(IsEmpty, Stepping(fn), x, y);
  }

  // ----- The pass -----

  class ReturnPropagationPass {
    const fn: Function
    var facts: Facts

    ghost predicate Valid()
      reads this
    {
      Shape(fn, facts) && Sane(fn, facts) && IsReached(fn, facts)
    }

    constructor (fn: Function)
      requires WellFormed(fn)
      ensures Valid() && this.fn == fn
    {
      this.fn := fn;
      this.facts := map p | p in Points(fn) :: map[];
      new;
      ReachesStart(IsEmpty, Stepping(fn), facts);
    }

    /** Joins the last output fact of one predecessor into the entry of a block. */
    method JoinEdge(b: nat, p: nat, ghost before: Facts, ghost done: set<nat>)
      requires Shape(fn, facts) && Sane(fn, facts) && b < |fn.blocks| && p in Predecessors(fn, b)
      requires Shape(fn, before) && EntryIsJoin(fn, before, facts, b, done)
      modifies this`facts
      ensures Shape(fn, facts) && Sane(fn, facts) && EntryIsJoin(fn, before, facts, b, done + {p})
    {
      JoinStep(fn, facts, b, p);
      EntryIsJoinStep(fn, before, facts, b, done, p);
      var entry := JoinInto(facts[Point(b, 0)], facts[End(fn, p)]);
      facts := facts[Point(b, 0) := entry];
    }

    /** Joins the last output facts of all predecessors into the entry of a block, and
        nothing else. */
    method JoinPredecessors(b: nat)
      requires Valid() && b < |fn.blocks|
      modifies this
      ensures Valid()
      ensures EntryIsJoin(fn, old(facts), facts, b, Predecessors(fn, b))
    {
      EntryStarts(fn, facts, b);
      var todo := Predecessors(fn, b);
      ghost var done := {};
      while todo != {}
        invariant todo + done == Predecessors(fn, b)
        invariant Shape(fn, facts) && Sane(fn, facts) && EntryIsJoin(fn, old(facts), facts, b, done)
        decreases todo
      {
        var p :| p in todo;
        JoinEdge(b, p, old(facts), done);
        todo := todo - {p};
        done := done + {p};
      }
      assert done == Predecessors(fn, b);
      StepReaches(fn, old(facts), facts, b);
    }

    /** Visits the instructions of a block from first to last. */
    method VisitBlock(b: nat) returns (changed: bool)
      requires Valid() && b < |fn.blocks|
      modifies this
      ensures Valid()
      ensures OnlyOutputsChanged(fn, old(facts), facts, b)
      ensures Consistent(fn, facts, b, Length(fn, b))
      ensures changed <==> facts != old(facts)
    {
      changed := false;
      var i := 0;
      while i < Length(fn, b)
        invariant i <= Length(fn, b)
        invariant VisitedUpTo(fn, old(facts), facts, b, i, changed)
      {
        VisitedOneMore(fn, old(facts), facts, b, i, changed);
        var previous := facts[Point(b, i + 1)];
        var out := OutputFact(fn.blocks[b][i], Reg(b, i), facts[Point(b, i)]);
        facts := facts[Point(b, i + 1) := out];
        changed := changed || out != previous;
        i := i + 1;
      }
      StepReaches(fn, old(facts), facts, b);
    }

    /** Sweeps until no output fact changes, which takes at most two sweeps more than
        the height of the lattice. */
    method Run() returns (ghost sweeps: nat)
      requires Valid()
      modifies this
      ensures Valid() && IsPostFixpoint(fn, facts)
      ensures Justified(fn, facts) && IsReached(fn, facts)
      ensures IntegersAreNotAddresses(fn) ==> (IsSound(fn, facts) <==> NeverDropsHeld(fn) && NeverOverwritesHeld(fn, facts))
      ensures sweeps <= 2 + |Universe(fn)|
    {
      sweeps := 0;
      ghost var first := true;
      var changed := true;
      SubsetCardinality(Missing(fn, facts), Universe(fn));
      while changed
        invariant Valid()
        invariant !first ==> forall c: nat | c < |fn.blocks| :: Consistent(fn, facts, c, Length(fn, c))
        invariant !changed ==> IsPostFixpoint(fn, facts)
        invariant first ==> changed
        invariant sweeps + |Missing(fn, facts)| <= |Universe(fn)| + (if first then 0 else if changed then 1 else 2)
        decreases first, |Missing(fn, facts)|, changed
      {
        changed := false;
        ghost var start := facts;
        var b := 0;
        while b < |fn.blocks|
          invariant b <= |fn.blocks|
          invariant Valid() && Swept(fn, start, facts, b, first, changed)
        {
          ghost var now := facts;
          JoinPredecessors(b);
          ghost var joined := facts;
          EntryIsJoinCovers(fn, now, joined, b);
          var blockChanged := VisitBlock(b);
          SweptExtends(fn, start, now, joined, facts, b, first, changed, blockChanged);
          changed := blockChanged || changed;
          b := b + 1;
        }
        if !changed {
          SweepSettles(fn, start, facts, first);
        }
        SubsetCardinality(Missing(fn, facts), Missing(fn, start));
        first := false;
        sweeps := sweeps + 1;
      }
      if IntegersAreNotAddresses(fn) {
        ProvenanceIsSoundExactly(fn, facts);
      }
    }
  }
}
