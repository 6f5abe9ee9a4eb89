/** How a comparison with a constant narrows the sign of the other operand. */
module ICmpAbstraction {
  import opened SignLattice
  import opened IR

  datatype Elements = Elements(onTrue: Sign, onFalse: Sign)

  // ----- Concrete comparisons -----

  /** Two's-complement unsigned order, read off the signed values of equal width. */
  predicate UnsignedLess(v: int, k: int) {
    if v >= 0 && k < 0 then true
    else if v < 0 && k >= 0 then false
    else v < k
  }

  predicate Holds(p: Predicate, v: int, k: int) {
    match p
    case Eq => v == k
    case Ne => v != k
    case Slt => v < k
    case Sle => v <= k
    case Sgt => v > k
    case Sge => v >= k
    case Ult => UnsignedLess(v, k)
    case Ule => v == k || UnsignedLess(v, k)
    case Ugt => UnsignedLess(k, v)
    case Uge => v == k || UnsignedLess(k, v)
  }

  predicate IsUnsigned(p: Predicate) {
    p.Ult? || p.Ule? || p.Ugt? || p.Uge?
  }

  function SignedPredicate(p: Predicate): Predicate {
    match p
    case Ult => Slt
    case Ule => Sle
    case Ugt => Sgt
    case Uge => Sge
    case _ => p
  }

  function Swapped(p: Predicate): (r: Predicate)
    ensures forall v: int, k: int :: Holds(p, v, k) <==> Holds(r, k, v)
  {
    match p
    case Eq => Eq
    case Ne => Ne
    case Slt => Sgt
    case Sgt => Slt
    case Sle => Sge
    case Sge => Sle
    case Ult => Ugt
    case Ugt => Ult
    case Ule => Uge
    case Uge => Ule
  }

  // ----- The two tables -----

  predicate IsAtom(s: Sign) {
    s.Zero? || s.GreaterThanZero? || s.LessThanZero?
  }

  /** Keyed by a signed predicate and the sign of the constant. */
  function PredicateComplement(p: Predicate, k: Sign): Elements
    requires !IsUnsigned(p) && IsAtom(k)
  {
    match k
    case Zero =>
      (match p
       case Slt => Elements(LessThanZero, GreaterThanEqualZero)
       case Sgt => Elements(GreaterThanZero, LessThanEqualZero)
       case Sle => Elements(LessThanEqualZero, GreaterThanZero)
       case Sge => Elements(GreaterThanEqualZero, LessThanZero)
       case Eq => Elements(Zero, NotZero)
       case Ne => Elements(NotZero, Zero))
    case GreaterThanZero =>
      (match p
       case Slt => Elements(Top, GreaterThanZero)
       case Sgt => Elements(GreaterThanZero, Top)
       case Sle => Elements(Top, GreaterThanZero)
       case Sge => Elements(GreaterThanZero, Top)
       case Eq => Elements(GreaterThanZero, Top)
       case Ne => Elements(Top, GreaterThanZero))
    case LessThanZero =>
      (match p
       case Slt => Elements(LessThanZero, Top)
       case Sgt => Elements(Top, LessThanZero)
       case Sle => Elements(LessThanZero, Top)
       case Sge => Elements(Top, LessThanZero)
       case Eq => Elements(LessThanZero, Top)
       case Ne => Elements(Top, LessThanZero))
  }

  function UnsignedReplacement(s: Sign): Sign
    requires s != Bottom
  {
    match s
    case LessThanZero => Bottom
    case GreaterThanZero => GreaterThanZero
    case LessThanEqualZero => Zero
    case GreaterThanEqualZero => GreaterThanEqualZero
    case Zero => Zero
    case NotZero => GreaterThanZero
    case Top => GreaterThanEqualZero
  }

  // ----- AbstractICmp -----

  /** The sign of an integer constant; i1 `true` is negative. */
  function ConstantIntSign(v: Value): Option<Sign> {
    match v
    case ConstInt(k) => Some(AbstractInteger(k))
    case ConstBool(p) => Some(if p then LessThanZero else Zero)
    case _ => None
  }

  predicate IsTestConstant(v: Value) {
    v.ConstInt? || v.ConstBool? || v.Null?
  }

  /** The elements for the taken and the untaken branch. An integer constant is
      looked for in the second operand first; a null pointer overrides it. */
  function AbstractICmp(p: Predicate, x: Value, y: Value): Elements {
    var signed := SignedPredicate(p);
    var num := if ConstantIntSign(y).Some? then ConstantIntSign(y) else ConstantIntSign(x);
    var numPredicate := if ConstantIntSign(y).Some? then signed else Swapped(signed);
    var operand := if y.Null? || x.Null? then Some(Zero) else num;
    var predicate_ := if y.Null? then numPredicate else if x.Null? then Swapped(numPredicate) else numPredicate;
    if operand.None? then
      Elements(Top, Top)
    else
      var result := PredicateComplement(predicate_, operand.value);
      if IsUnsigned(p) then
        Elements(UnsignedReplacement(result.onTrue), UnsignedReplacement(result.onFalse))
      else
        result
  }

  // ----- Soundness and optimality -----

  /** `v` can be compared with a constant of sign `k` with the given outcome. */
  ghost predicate Admits(p: Predicate, k: Sign, outcome: bool, v: int) {
    exists c: int :: CompareWith(p, k, outcome, v, c)
  }

  ghost predicate CompareWith(p: Predicate, k: Sign, outcome: bool, v: int, c: int) {
    In(c, k) && Holds(p, v, c) == outcome
  }

  function Outcome(e: Elements, outcome: bool): Sign {
    if outcome then e.onTrue else e.onFalse
  }

  lemma TableIsSound(p: Predicate, k: Sign, outcome: bool, v: int)
    requires !IsUnsigned(p) && IsAtom(k)
    requires Admits(p, k, outcome, v)
    ensures In(v, Outcome(PredicateComplement(p, k), outcome))
  {
  }

  /** The table entry is the least element that contains every admitted integer. */
  lemma TableIsLeast(p: Predicate, k: Sign, outcome: bool, s: Sign)
    requires !IsUnsigned(p) && IsAtom(k)
    requires forall v: int :: Admits(p, k, outcome, v) ==> In(v, s)
    ensures Leq(Outcome(PredicateComplement(p, k), outcome), s)
  {
    forall v: int, c: int | CompareWith(p, k, outcome, v, c)
      ensures In(v, s)
    {
      assert Admits(p, k, outcome, v);
    }
    var near := if k == Zero then 0 else if k == GreaterThanZero then 1 else -1;
    var far := 2 * near;
    assert CompareWith(p, k, outcome, -2, near) ==> In(-2, s);
    assert CompareWith(p, k, outcome, -1, near) ==> In(-1, s);
    assert CompareWith(p, k, outcome, -1, far) ==> In(-1, s);
    assert CompareWith(p, k, outcome, 0, near) ==> In(0, s);
    assert CompareWith(p, k, outcome, 1, near) ==> In(1, s);
    assert CompareWith(p, k, outcome, 1, far) ==> In(1, s);
    assert CompareWith(p, k, outcome, 2, near) ==> In(2, s);
  }

  /** A comparison of an operand with an integer constant, either way round: the
      two elements contain exactly the signs the operand can have. */
  lemma AbstractICmpIsExact(p: Predicate, operand: Value, c: int, constantFirst: bool, outcome: bool)
    requires !IsUnsigned(p) && !IsTestConstant(operand)
    ensures
      var elements := if constantFirst then AbstractICmp(p, ConstInt(c), operand) else AbstractICmp(p, operand, ConstInt(c));
      var asWritten := if constantFirst then Swapped(p) else p;
      && (forall v: int :: Holds(asWritten, v, c) == outcome ==> In(v, Outcome(elements, outcome)))
      && (forall s: Sign ::
            (forall v: int :: Admits(asWritten, AbstractInteger(c), outcome, v) ==> In(v, s)) ==>
            Leq(Outcome(elements, outcome), s))
  {
    var asWritten := if constantFirst then Swapped(p) else p;
    var k := AbstractInteger(c);
    forall v: int | Holds(asWritten, v, c) == outcome
      ensures In(v, Outcome(PredicateComplement(asWritten, k), outcome))
    {
      assert CompareWith(asWritten, k, outcome, v, c);
      TableIsSound(asWritten, k, outcome, v);
    }
    forall s: Sign | forall v: int :: Admits(asWritten, k, outcome, v) ==> In(v, s)
      ensures Leq(Outcome(PredicateComplement(asWritten, k), outcome), s)
    {
      TableIsLeast(asWritten, k, outcome, s);
    }
  }

  /** The integer a constant operand stands for. */
  function ConstantValue(v: Value): Option<int> {
    match v
    case ConstInt(k) => Some(k)
    case ConstBool(p) => Some(if p then -1 else 0)
    case Null => Some(0)
    case StringLiteral(a) => Some(a)
    case _ => None
  }

  /** A null pointer compared for order.  When the second operand is not an integer
      constant the predicate is swapped before the null check, which does not swap
      it back, so an order test against null is read the wrong way round. */
  predicate IsOrderedNullTest(p: Predicate, x: Value, y: Value) {
    (x.Null? || y.Null?) && !p.Eq? && !p.Ne?
  }

  /** Unless the test is unsigned or is an order test against null, an operand that is not
      a test constant ends up in the element of the branch that is taken. */
  lemma AbstractICmpIsSound(p: Predicate, x: Value, y: Value, xv: int, yv: int)
    requires !IsUnsigned(p) && !IsOrderedNullTest(p, x, y)
    requires IsTestConstant(x) ==> ConstantValue(x) == Some(xv)
    requires IsTestConstant(y) ==> ConstantValue(y) == Some(yv)
    ensures var taken := Outcome(AbstractICmp(p, x, y), Holds(p, xv, yv));
            && (!IsTestConstant(x) ==> In(xv, taken))
            && (!IsTestConstant(y) ==> In(yv, taken))
  {
    var outcome := Holds(p, xv, yv);
    if IsTestConstant(y) {
      var k := AbstractInteger(yv);
      assert CompareWith(p, k, outcome, xv, yv);
      TableIsSound(p, k, outcome, xv);
    } else if IsTestConstant(x) {
      var k := AbstractInteger(xv);
      assert Holds(Swapped(p), yv, xv) == outcome;
      assert CompareWith(Swapped(p), k, outcome, yv, xv);
      TableIsSound(Swapped(p), k, outcome, yv);
    }
  }

  /** The order test `x < null` claims `x > 0` where it holds, so -1 is lost. */
  lemma OrderedNullTestsAreUnsound()
    ensures Holds(Slt, -1, 0)
    ensures !In(-1, AbstractICmp(Slt, Arg(0), Null).onTrue)
  {
  }

  /** An unsigned test against null goes the other way round too: `x >u null` claims
      "never" where it holds, so every other pointer is lost. */
  lemma UnsignedNullTestsLoseEverything(v: int)
    requires v != 0
    ensures Holds(Ugt, v, 0)
    ensures AbstractICmp(Ugt, Arg(0), Null).onTrue == Bottom && !In(v, AbstractICmp(Ugt, Arg(0), Null).onTrue)
  {
  }

  /** Exactly when a test against null, signed or not, keeps the operand: it is an equality
      test, or the operand is null itself. */
  lemma NullTestIsSoundExactly(p: Predicate, operand: Value, v: int, nullFirst: bool)
    requires !IsTestConstant(operand)
    ensures
      var elements := if nullFirst then AbstractICmp(p, Null, operand) else AbstractICmp(p, operand, Null);
      var outcome := if nullFirst then Holds(p, 0, v) else Holds(p, v, 0);
      In(v, Outcome(elements, outcome)) <==> p.Eq? || p.Ne? || v == 0
  {
  }

  /** The unsigned replacement is not sound for signed values either: under `x <u 1`
      the untaken branch claims `x > 0`, yet the signed value -1 goes there. */
  lemma UnsignedTestsAreUnsound()
    ensures !Holds(Ult, -1, 1)
    ensures !In(-1, AbstractICmp(Ult, Arg(0), ConstInt(1)).onFalse)
  {
  }

  /** Exactly when an unsigned test against an integer constant, in either order, keeps the
      operand: neither side is negative. */
  lemma UnsignedTestIsSoundExactly(p: Predicate, operand: Value, v: int, k: Value, constantFirst: bool)
    requires IsUnsigned(p) && !IsTestConstant(operand) && (k.ConstInt? || k.ConstBool?)
    ensures
      var c := ConstantValue(k).value;
      var elements := if constantFirst then AbstractICmp(p, k, operand) else AbstractICmp(p, operand, k);
      var outcome := if constantFirst then Holds(p, c, v) else Holds(p, v, c);
      In(v, Outcome(elements, outcome)) <==> v >= 0 && c >= 0
  {
  }

  /** When a comparison with `other`, of value `c`, keeps an operand of value `v`. A test
      against anything that is not a constant narrows nothing. */
  predicate KeepsOperand(p: Predicate, other: Value, v: int, c: int) {
    if other.Null? then p.Eq? || p.Ne? || v == 0
    else if other.ConstInt? || other.ConstBool? then IsUnsigned(p) ==> v >= 0 && c >= 0
    else true
  }

  /** For every predicate and all operands: an operand that is not a test constant is in
      the element of the branch that is taken if and only if the condition above holds. */
  lemma AbstractICmpIsSoundExactly(p: Predicate, x: Value, y: Value, xv: int, yv: int)
    requires IsTestConstant(x) ==> ConstantValue(x) == Some(xv)
    requires IsTestConstant(y) ==> ConstantValue(y) == Some(yv)
    ensures var taken := Outcome(AbstractICmp(p, x, y), Holds(p, xv, yv));
            && (!IsTestConstant(x) ==> (In(xv, taken) <==> KeepsOperand(p, y, xv, yv)))
            && (!IsTestConstant(y) ==> (In(yv, taken) <==> KeepsOperand(p, x, yv, xv)))
  {
    if !IsTestConstant(x) {
      OneOperandExactly(p, x, y, xv, yv, false);
    }
    if !IsTestConstant(y) {
      OneOperandExactly(p, y, x, yv, xv, true);
    }
  }

  lemma OneOperandExactly(p: Predicate, operand: Value, other: Value, v: int, c: int, otherFirst: bool)
    requires !IsTestConstant(operand) && (IsTestConstant(other) ==> ConstantValue(other) == Some(c))
    ensures
      var elements := if otherFirst then AbstractICmp(p, other, operand) else AbstractICmp(p, operand, other);
      var outcome := if otherFirst then Holds(p, c, v) else Holds(p, v, c);
      In(v, Outcome(elements, outcome)) <==> KeepsOperand(p, other, v, c)
  {
    if other.Null? {
      NullTestIsSoundExactly(p, operand, v, otherFirst);
    } else if IsTestConstant(other) {
      if IsUnsigned(p) {
        UnsignedTestIsSoundExactly(p, operand, v, other, otherFirst);
      } else if otherFirst {
        AbstractICmpIsSound(p, other, operand, c, v);
      } else {
        AbstractICmpIsSound(p, operand, other, v, c);
      }
    }
  }
}
