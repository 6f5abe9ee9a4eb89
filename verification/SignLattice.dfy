/** The eight-element sign lattice and its bit-vector encoding.

    The meaning of an element is a set of integers (`In`).  `Meet`, `Join` and
    `IsLessThan` work on bit vectors, one row of a closure table per element;
    `Glb`, `Lub` and `Leq` are the set-level reading that the rest of the
    development reasons with, and the bit-vector forms are proved equal to it. */
module SignLattice {
  datatype Sign =
    | Bottom
    | LessThanZero
    | GreaterThanZero
    | Zero
    | LessThanEqualZero
    | GreaterThanEqualZero
    | NotZero
    | Top

  /** The integers an element stands for. */
  predicate In(v: int, s: Sign) {
    match s
    case Bottom => false
    case LessThanZero => v < 0
    case GreaterThanZero => v > 0
    case Zero => v == 0
    case LessThanEqualZero => v <= 0
    case GreaterThanEqualZero => v >= 0
    case NotZero => v != 0
    case Top => true
  }

  // The three atoms of the lattice.

  predicate HasNegative(s: Sign) {
    s.LessThanZero? || s.LessThanEqualZero? || s.NotZero? || s.Top?
  }

  predicate HasZero(s: Sign) {
    s.Zero? || s.LessThanEqualZero? || s.GreaterThanEqualZero? || s.Top?
  }

  predicate HasPositive(s: Sign) {
    s.GreaterThanZero? || s.GreaterThanEqualZero? || s.NotZero? || s.Top?
  }

  function FromAtoms(negative: bool, zero: bool, positive: bool): (s: Sign)
    ensures HasNegative(s) == negative && HasZero(s) == zero && HasPositive(s) == positive
  {
    if negative then
      if zero then (if positive then Top else LessThanEqualZero)
      else (if positive then NotZero else LessThanZero)
    else
      if zero then (if positive then GreaterThanEqualZero else Zero)
      else (if positive then GreaterThanZero else Bottom)
  }

  predicate Leq(x: Sign, y: Sign) {
    && (HasNegative(x) ==> HasNegative(y))
    && (HasZero(x) ==> HasZero(y))
    && (HasPositive(x) ==> HasPositive(y))
  }

  function Lub(x: Sign, y: Sign): Sign {
    FromAtoms(HasNegative(x) || HasNegative(y), HasZero(x) || HasZero(y), HasPositive(x) || HasPositive(y))
  }

  function Glb(x: Sign, y: Sign): Sign {
    FromAtoms(HasNegative(x) && HasNegative(y), HasZero(x) && HasZero(y), HasPositive(x) && HasPositive(y))
  }

  /** The sign of one integer. */
  function AbstractInteger(v: int): (s: Sign)
    ensures forall t :: In(v, t) <==> Leq(s, t)
  {
    if v < 0 then LessThanZero else if v == 0 then Zero else GreaterThanZero
  }

  // ----- Closure tables -----

  /** Rows of the "greater than" closure: a meet is a bitwise AND of rows. */
  function MeetRow(s: Sign): bv8 {
    match s
    case Bottom => 0x80
    case LessThanZero => 0xC0
    case GreaterThanZero => 0xA0
    case Zero => 0x90
    case LessThanEqualZero => 0xD8
    case GreaterThanEqualZero => 0xB4
    case NotZero => 0xE2
    case Top => 0xFF
  }

  /** Rows of the "less than" closure: a join is a bitwise AND of rows. */
  function JoinRow(s: Sign): bv8 {
    match s
    case Bottom => 0xFF
    case LessThanZero => 0x4B
    case GreaterThanZero => 0x27
    case Zero => 0x1D
    case LessThanEqualZero => 0x09
    case GreaterThanEqualZero => 0x05
    case NotZero => 0x03
    case Top => 0x01
  }

  /** The bit of a join row that belongs to an element. */
  function Offset(s: Sign): bv8 {
    match s
    case Bottom => 0x80
    case LessThanZero => 0x40
    case GreaterThanZero => 0x20
    case Zero => 0x10
    case LessThanEqualZero => 0x08
    case GreaterThanEqualZero => 0x04
    case NotZero => 0x02
    case Top => 0x01
  }

  datatype Decoded = NoRow | Row(element: Sign)

  function DecodeMeetRow(row: bv8): Decoded {
    if row == 0x80 then Row(Bottom)
    else if row == 0xC0 then Row(LessThanZero)
    else if row == 0xA0 then Row(GreaterThanZero)
    else if row == 0x90 then Row(Zero)
    else if row == 0xD8 then Row(LessThanEqualZero)
    else if row == 0xB4 then Row(GreaterThanEqualZero)
    else if row == 0xE2 then Row(NotZero)
    else if row == 0xFF then Row(Top)
    else NoRow
  }

  function DecodeJoinRow(row: bv8): Decoded {
    if row == 0xFF then Row(Bottom)
    else if row == 0x4B then Row(LessThanZero)
    else if row == 0x27 then Row(GreaterThanZero)
    else if row == 0x1D then Row(Zero)
    else if row == 0x09 then Row(LessThanEqualZero)
    else if row == 0x05 then Row(GreaterThanEqualZero)
    else if row == 0x03 then Row(NotZero)
    else if row == 0x01 then Row(Top)
    else NoRow
  }

  lemma MeetRowsDecode(x: Sign, y: Sign)
    ensures DecodeMeetRow(MeetRow(x) & MeetRow(y)) == Row(Glb(x, y))
  {
  }

  lemma JoinRowsDecode(x: Sign, y: Sign)
    ensures DecodeJoinRow(JoinRow(x) & JoinRow(y)) == Row(Lub(x, y))
  {
  }

  /** The table lookup never misses, and the answer is exactly the intersection. */
  function Meet(x: Sign, y: Sign): (r: Sign)
    ensures r == Glb(x, y)
    ensures forall v: int :: In(v, r) <==> In(v, x) && In(v, y)
  {
    MeetRowsDecode(x, y);
    DecodeMeetRow(MeetRow(x) & MeetRow(y)).element
  }

  /** The table lookup never misses, and the answer contains both operands. */
  function Join(x: Sign, y: Sign): (r: Sign)
    ensures r == Lub(x, y)
    ensures forall v: int :: In(v, x) || In(v, y) ==> In(v, r)
  {
    JoinRowsDecode(x, y);
    DecodeJoinRow(JoinRow(x) & JoinRow(y)).element
  }

  /** Bit `Offset(y)` of the join row of `x` decides inclusion of meanings. */
  predicate IsLessThan(x: Sign, y: Sign) {
    JoinRow(x) & Offset(y) != 0
  }

  function Complement(x: Sign): (r: Sign)
    ensures forall v: int :: In(v, r) <==> !In(v, x)
  {
    match x
    case Bottom => Top
    case LessThanZero => GreaterThanEqualZero
    case GreaterThanZero => LessThanEqualZero
    case LessThanEqualZero => GreaterThanZero
    case GreaterThanEqualZero => LessThanZero
    case Zero => NotZero
    case NotZero => Zero
    case Top => Bottom
  }

  function Difference(x: Sign, y: Sign): (r: Sign)
    ensures forall v: int :: In(v, r) <==> In(v, x) && !In(v, y)
  {
    Meet(x, Complement(y))
  }

  /** The two elements share an atom; `IntersectsIsMeet` ties this to the bit vectors. */
  predicate Intersects(x: Sign, y: Sign) {
    || (HasNegative(x) && HasNegative(y))
    || (HasZero(x) && HasZero(y))
    || (HasPositive(x) && HasPositive(y))
  }

  // ----- What the operations mean -----

  /** The order, as the set inclusion it stands for. */
  lemma LeqIsInclusion(x: Sign, y: Sign)
    ensures Leq(x, y) <==> forall v: int :: In(v, x) ==> In(v, y)
  {
    if forall v: int :: In(v, x) ==> In(v, y) {
      assert In(-1, x) ==> In(-1, y);
      assert In(0, x) ==> In(0, y);
      assert In(1, x) ==> In(1, y);
    }
  }

  lemma IsLessThanIsInclusion(x: Sign, y: Sign)
    ensures IsLessThan(x, y) <==> forall v: int :: In(v, x) ==> In(v, y)
  {
    LeqIsInclusion(x, y);
  }

  /** The join is the best element above both operands (`Join` computes `Lub`). */
  lemma JoinIsLeast(x: Sign, y: Sign, z: Sign)
    requires forall v: int :: In(v, x) || In(v, y) ==> In(v, z)
    ensures forall v: int :: In(v, Lub(x, y)) ==> In(v, z)
  {
    assert forall v: int :: In(v, x) ==> In(v, z);
    assert forall v: int :: In(v, y) ==> In(v, z);
    LeqIsInclusion(x, z);
    LeqIsInclusion(y, z);
    LeqIsInclusion(Lub(x, y), z);
  }

  lemma InByAtoms(v: int, s: Sign)
    ensures In(v, s) <==> (v < 0 && HasNegative(s)) || (v == 0 && HasZero(s)) || (v > 0 && HasPositive(s))
  {
  }

  lemma InGlb(v: int, x: Sign, y: Sign)
    ensures In(v, Glb(x, y)) <==> In(v, x) && In(v, y)
  {
    InByAtoms(v, x);
    InByAtoms(v, y);
    InByAtoms(v, Glb(x, y));
  }

  lemma IntersectsIsMeet(x: Sign, y: Sign)
    ensures Intersects(x, y) <==> Meet(x, y) != Bottom
  {
    IntersectsIsGlb(x, y);
    var m := Meet(x, y);
    assert m == Glb(x, y);
  }

  lemma IntersectsIsGlb(x: Sign, y: Sign)
    ensures Intersects(x, y) <==> Glb(x, y) != Bottom
  {
  }

  /** Two elements intersect exactly when some integer belongs to both. */
  lemma IntersectsIsOverlap(x: Sign, y: Sign)
    ensures Intersects(x, y) <==> exists v: int :: In(v, x) && In(v, y)
  {
    var m := Glb(x, y);
    var sample := if HasNegative(m) then -1 else if HasZero(m) then 0 else 1;
    InByAtoms(sample, m);
    InGlb(sample, x, y);
    if v: int :| In(v, x) && In(v, y) {
      InGlb(v, x, y);
    }
  }

  lemma LeqAntisymmetric(x: Sign, y: Sign)
    requires Leq(x, y) && Leq(y, x)
    ensures x == y
  {
  }
}
