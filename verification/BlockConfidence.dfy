/** What one basic block says about its function's error values: the contributions that
    block confidence joins, as a set. Nothing here depends on the order in which calls,
    returnable values or constraints are visited. */
module BlockConfidence {
  import opened SignLattice
  import opened Tuples = ConfidenceLattice
  import opened TupleJoins
  import opened IR
  import RV = ReturnedValues
  import RP = ReturnPropagation
  import RC = ReturnConstraints

  // ----- Inputs -----

  /** The domain knowledge: error-only functions, the return codes with the submodules
      each belongs to (none means every file), and the smart-zero heuristic. */
  datatype Knowledge = Knowledge(errorOnly: set<string>, errorCodes: map<int, set<string>>,
                                 successCodes: map<int, set<string>>, smartZero: bool)

  /** A function, its source file, the facts of the three passes over it, and which of
      its calls are error-only and which have an integer or pointer result. */
  datatype Body = Body(fn: Function, file: string, returned: RV.Facts, held: RP.Facts,
                       constraints: RC.Facts, errorOnlyCalls: set<Point>, valuedCalls: set<Point>) {
    ghost predicate Valid() {
      && WellFormed(fn)
      && returned.Keys == Points(fn) && held.Keys == Points(fn) && constraints.Keys == Points(fn)
    }
  }

  /** A body, with the knowledge and the specifications it is judged by. */
  datatype Scene = Scene(knowledge: Knowledge, body: Body, specifications: map<string, Tuple>) {
    ghost predicate Valid() {
      body.Valid()
    }

    function Name(): string { body.fn.name }
  }

  // ----- Lookups -----

  predicate HasCode(codes: map<int, set<string>>, value: int, file: string) {
    value in codes &&
    (codes[value] == {} || exists part | part in codes[value] :: RV.ContainsSubstring(file, part))
  }

  /** The smart-zero heuristic: 0 is a success code here, and the function is known to
      return codes. */
  predicate DropsZero(s: Scene, codes: set<string>) {
    s.knowledge.smartZero && HasCode(s.knowledge.successCodes, 0, s.body.file) && s.Name() in codes
  }

  predicate IsSuccessCode(s: Scene, codes: set<string>, value: int) {
    if s.knowledge.smartZero && value == 0 then DropsZero(s, codes)
    else HasCode(s.knowledge.successCodes, value, s.body.file)
  }

  predicate IsErrorCode(s: Scene, value: int) {
    HasCode(s.knowledge.errorCodes, value, s.body.file)
  }

  function Specification(specifications: map<string, Tuple>, name: string): Tuple {
    if name in specifications then specifications[name] else UNKNOWN
  }

  /** A call without a name has no specification. */
  function CallSpecification(specifications: map<string, Tuple>, name: string): Tuple {
    if name == "" then UNKNOWN else Specification(specifications, name)
  }

  /** The value of an integer constant; `true` is read as -1. */
  function IntegerOf(v: Value): Option<int> {
    match v
    case ConstInt(k) => Some(k)
    case ConstBool(p) => Some(if p then -1 else 0)
    case _ => None
  }

  // ----- Calls -----

  /** Full confidence in one error value, or nothing for an error-only function. */
  function ErrorValue(s: Scene, value: int): Tuple {
    if s.Name() in s.knowledge.errorOnly then EMPTYSET else FromSign(AbstractInteger(value), 0)
  }

  /** What an error-only call makes of a value that can be returned from it. */
  function ErrorOnlyReturn(s: Scene, codes: set<string>, v: Value): Option<Tuple> {
    match v
    case ConstBool(p) => Some(FromSign(if p then NotZero else Zero, 0))
    case ConstInt(k) => if IsSuccessCode(s, codes, k) then None else Some(ErrorValue(s, k))
    case Null => Some(ErrorValue(s, 0))
    case _ => None
  }

  /** An ordinary call says "no errors" only if its callee is known to have none, or has
      no name and no result. */
  function OrdinaryCall(s: Scene, b: nat, i: nat): Tuple
    requires IsInstruction(s.body.fn, b, i) && s.body.fn.blocks[b][i].Call?
  {
    var name := RC.CalleeName(s.body.fn.blocks[b][i]);
    if name == "" && Point(b, i) in s.body.valuedCalls then UNKNOWN
    else if name == "" || IsEmptyset(CallSpecification(s.specifications, name)) then EMPTYSET
    else UNKNOWN
  }

  ghost function Returner(s: Scene, codes: set<string>): Value -> Option<Tuple> {
    v => ErrorOnlyReturn(s, codes, v)
  }

  ghost function ReturnContributions(s: Scene, codes: set<string>, values: set<Value>): set<Tuple> {
    {EMPTYSET} + Collected(Returner(s, codes), values)
  }

  ghost function CallContributions(s: Scene, codes: set<string>, b: nat, i: nat): set<Tuple>
    requires s.Valid() && IsInstruction(s.body.fn, b, i) && s.body.fn.blocks[b][i].Call?
  {
    if Point(b, i) in s.body.errorOnlyCalls then ReturnContributions(s, codes, s.body.returned[Point(b, i)])
    else {OrdinaryCall(s, b, i)}
  }

  /** The calls among the first `n` instructions of a block. */
  ghost function CallsUpTo(s: Scene, codes: set<string>, b: nat, n: nat): set<Tuple>
    requires s.Valid() && b < |s.body.fn.blocks| && n <= |s.body.fn.blocks[b]|
  {
    if n == 0 then {EMPTYSET}
    else
      CallsUpTo(s, codes, b, n - 1) +
      (if s.body.fn.blocks[b][n - 1].Call? then CallContributions(s, codes, b, n - 1) else {})
  }

  /** The names called among the first `n` instructions of a block. */
  function CalledIn(fn: Function, b: nat, n: nat): set<string>
    requires b < |fn.blocks| && n <= |fn.blocks[b]|
  {
    set i | 0 <= i < n && fn.blocks[b][i].Call? :: RC.CalleeName(fn.blocks[b][i])
  }

  // ----- Constraints -----

  /** Where the returned value comes from at the end of the block. */
  datatype Origin =
    | Unheld
    | Ambiguous
    | FromCall(name: string)
    | HeldInteger(k: int)
    | HeldNull
    | HeldOther

  ghost function OriginOfHeld(fn: Function, held: set<Value>): Origin {
    if |held| > 1 then Ambiguous
    else if held == {} then Unheld
    else
      var v :| v in held;
      HeldKind(fn, v)
  }

  function HeldKind(fn: Function, v: Value): Origin {
    match v
    case ConstInt(k) => HeldInteger(k)
    case ConstBool(p) => HeldInteger(if p then -1 else 0)
    case Null => HeldNull
    case _ => if RC.IsCallResult(fn, v) then FromCall(RC.CalleeName(Definition(fn, v).value)) else HeldOther
  }

  ghost function OriginOf(y: Body, b: nat, v: Value): Origin
    requires y.Valid() && b < |y.fn.blocks|
  {
    if RC.IsCallResult(y.fn, v) then FromCall(RC.CalleeName(Definition(y.fn, v).value))
    else
      var held := y.held[End(y.fn, b)];
      if v in held then OriginOfHeld(y.fn, held[v]) else Unheld
  }

  /** The constraining function's strongest confidence, moved to the sign of a constant. */
  function ForInteger(k: int, inter: Tuple): Tuple {
    var m := GetMax(inter);
    if k == 0 then Tuple(m, 0, 0, inter.emptyset)
    else if k > 0 then Tuple(0, 0, m, inter.emptyset)
    else Tuple(0, m, 0, inter.emptyset)
  }

  function ForConstant(v: Value, inter: Tuple): Tuple {
    var m := GetMax(inter);
    match v
    case ConstBool(p) => if p then Tuple(0, m, m, inter.emptyset) else Tuple(m, 0, 0, inter.emptyset)
    case ConstInt(k) => ForInteger(k, inter)
    case Null => Tuple(m, 0, 0, inter.emptyset)
    case StringLiteral(_) => Tuple(0, m, m, inter.emptyset)
    case _ => UNKNOWN
  }

  /** The result of a call, cut down to what the constraint allows if it is on that
      very function. */
  function ForCall(callee: string, confidence: Tuple, name: string, inter: Tuple): Tuple {
    if callee == name then Tuples.Meet(confidence, inter) else confidence
  }

  function WithoutZero(drop: bool, t: Tuple): Tuple {
    if drop then Tuples.Difference(t, FromSign(Zero, 0)) else t
  }

  predicate IsInformative(inter: Tuple) {
    !IsUnknown(inter) && !IsEmptyset(inter)
  }

  /** The value has a known call as its origin, and that callee returns codes. */
  predicate BringsCodes(s: Scene, codes: set<string>, origin: Origin) {
    origin.FromCall? && !IsUnknown(CallSpecification(s.specifications, origin.name)) && origin.name in codes
  }

  function WithCodes(s: Scene, codes: set<string>, origin: Origin): set<string> {
    if BringsCodes(s, codes, origin) then codes + {s.Name()} else codes
  }

  /** What a returned value says under an informative constraint on a function; nothing
      if the value may come from several places. */
  function Propagated(s: Scene, codes: set<string>, v: Value, origin: Origin,
                      name: string, sign: Sign, inter: Tuple): Option<Tuple> {
    var constant := if sign != Top then ForConstant(v, inter) else UNKNOWN;
    var drop := DropsZero(s, WithCodes(s, codes, origin));
    match origin
    case Ambiguous => None
    case Unheld => Some(constant)
    case HeldInteger(k) => Some(WithoutZero(drop, ForInteger(k, inter)))
    case HeldNull => Some(WithoutZero(drop, ForInteger(0, inter)))
    case HeldOther => Some(WithoutZero(drop, constant))
    case FromCall(callee) =>
      var confidence := CallSpecification(s.specifications, callee);
      if IsUnknown(confidence) then Some(constant)
      else Some(WithoutZero(drop, ForCall(callee, confidence, name, inter)))
  }

  /** What one constraint of the block contributes. */
  function ConstraintContribution(s: Scene, codes: set<string>, v: Value, origin: Origin,
                                  name: string, sign: Sign): Option<Tuple> {
    var inter := Intersection(Specification(s.specifications, name), sign);
    if !IsInformative(inter) then Some(inter)
    else
      var r := Propagated(s, codes, v, origin, name, sign, inter);
      if r.Some? && !IsUnknown(r.value) then r else None
  }

  /** What the constraint on a named function contributes; one on a call without a name
      contributes nothing. */
  ghost function Contributor(s: Scene, codes: set<string>, v: Value, origin: Origin,
                             constraints: map<string, Sign>): string -> Option<Tuple> {
    name => if name == "" || name !in constraints then None
            else ConstraintContribution(s, codes, v, origin, name, constraints[name])
  }

  ghost function ConstraintContributions(s: Scene, codes: set<string>, v: Value, origin: Origin,
                                         constraints: map<string, Sign>): set<Tuple> {
    Collected(Contributor(s, codes, v, origin, constraints), constraints.Keys)
  }

  predicate HasInformative(s: Scene, constraints: map<string, Sign>, names: set<string>)
    requires names <= constraints.Keys
  {
    exists name | name in names ::
      name != "" && IsInformative(Intersection(Specification(s.specifications, name), constraints[name]))
  }

  /** The names known to return codes after the constraints have been visited. */
  function CodesAfterConstraints(s: Scene, codes: set<string>, origin: Origin,
                                 constraints: map<string, Sign>, names: set<string>): set<string>
    requires names <= constraints.Keys
  {
    if HasInformative(s, constraints, names) then WithCodes(s, codes, origin) else codes
  }

  // ----- Blocks -----

  /** The value that must be returned once a block executes, if there is just one. */
  ghost function OnlyReturned(y: Body, b: nat): Option<Value>
    requires y.Valid() && b < |y.fn.blocks|
  {
    var values := y.returned[Point(b, 0)];
    if |values| == 1 then var v :| v in values; Some(v) else None
  }

  datatype CodeKind = ErrorCode | SuccessCode | NoCode

  function KindOf(s: Scene, codes: set<string>, v: Value): CodeKind {
    var k := IntegerOf(v);
    if k.None? then NoCode
    else if IsErrorCode(s, k.value) then ErrorCode
    else if IsSuccessCode(s, codes, k.value) then SuccessCode
    else NoCode
  }

  ghost function CodeContributions(s: Scene, codes: set<string>, v: Value): set<Tuple> {
    if KindOf(s, codes, v).ErrorCode? then {ErrorValue(s, IntegerOf(v).value)} else {}
  }

  function CodesAfterKind(s: Scene, codes: set<string>, v: Value): set<string> {
    if KindOf(s, codes, v).NoCode? then codes else codes + {s.Name()}
  }

  /** All that is joined into the confidence of a block. */
  ghost function BlockContributions(s: Scene, codes: set<string>, b: nat): set<Tuple>
    requires s.Valid() && b < |s.body.fn.blocks|
  {
    var calls := CallsUpTo(s, codes, b, |s.body.fn.blocks[b]|);
    var only := OnlyReturned(s.body, b);
    if only.None? then calls
    else
      var v := only.value;
      if KindOf(s, codes, v).SuccessCode? then calls
      else
        var constraints := s.body.constraints[End(s.body.fn, b)];
        calls + CodeContributions(s, codes, v) +
        ConstraintContributions(s, CodesAfterKind(s, codes, v), v, OriginOf(s.body, b, v), constraints)
  }

  ghost function CodesAfterBlock(s: Scene, codes: set<string>, b: nat): set<string>
    requires s.Valid() && b < |s.body.fn.blocks|
  {
    var only := OnlyReturned(s.body, b);
    if only.None? then codes
    else
      var v := only.value;
      var after := CodesAfterKind(s, codes, v);
      if KindOf(s, codes, v).SuccessCode? then after
      else
        var constraints := s.body.constraints[End(s.body.fn, b)];
        CodesAfterConstraints(s, after, OriginOf(s.body, b, v), constraints, constraints.Keys)
  }

  lemma {:induction false} CallsAreNeverNone(s: Scene, codes: set<string>, b: nat, n: nat)
    requires s.Valid() && b < |s.body.fn.blocks| && n <= |s.body.fn.blocks[b]|
    ensures EMPTYSET in CallsUpTo(s, codes, b, n)
  {
    if n > 0 {
      CallsAreNeverNone(s, codes, b, n - 1);
    }
  }

  ghost function BlockTuple(s: Scene, codes: set<string>, b: nat): Tuple
    requires s.Valid() && b < |s.body.fn.blocks|
  {
    CallsAreNeverNone(s, codes, b, |s.body.fn.blocks[b]|);
    JoinSet(BlockContributions(s, codes, b))
  }

  // ----- What every contribution keeps -----

  ghost predicate AllExclusive(specifications: map<string, Tuple>) {
    forall name | name in specifications :: Exclusive(specifications[name])
  }

  ghost predicate AllBinary(specifications: map<string, Tuple>) {
    forall name | name in specifications :: IsBinary(specifications[name])
  }

  /** Exclusive; and, if so asked, none or full in every component. */
  predicate Keeps(t: Tuple, binary: bool) {
    Exclusive(t) && (binary ==> IsBinary(t))
  }

  ghost predicate AllKept(contributions: set<Tuple>, binary: bool) {
    forall t | t in contributions :: Keeps(t, binary)
  }

  lemma FromSignKeeps(x: Sign, binary: bool)
    ensures Keeps(FromSign(x, 0), binary)
  {
  }

  lemma ConstantsKeep(v: Value, k: int, inter: Tuple, binary: bool)
    requires Keeps(inter, binary)
    ensures Keeps(ForConstant(v, inter), binary) && Keeps(ForInteger(k, inter), binary)
  {
  }

  lemma CallsKeep(callee: string, confidence: Tuple, name: string, inter: Tuple, binary: bool)
    requires Keeps(confidence, binary) && Keeps(inter, binary)
    ensures Keeps(ForCall(callee, confidence, name, inter), binary)
  {
  }

  lemma WithoutZeroKeeps(drop: bool, t: Tuple, binary: bool)
    requires Keeps(t, binary)
    ensures Keeps(WithoutZero(drop, t), binary)
  {
  }

  lemma IntersectionKeeps(x: Tuple, sign: Sign, binary: bool)
    requires Keeps(x, binary)
    ensures Keeps(Intersection(x, sign), binary)
  {
  }

  lemma SpecificationKeeps(specifications: map<string, Tuple>, name: string, binary: bool)
    requires AllExclusive(specifications) && (binary ==> AllBinary(specifications))
    ensures Keeps(Specification(specifications, name), binary)
    ensures Keeps(CallSpecification(specifications, name), binary)
  {
  }

  lemma PropagatedKeeps(s: Scene, codes: set<string>, v: Value, origin: Origin, name: string, sign: Sign,
                        inter: Tuple, binary: bool)
    requires AllExclusive(s.specifications) && (binary ==> AllBinary(s.specifications)) && Keeps(inter, binary)
    ensures var r := Propagated(s, codes, v, origin, name, sign, inter);
            r.Some? ==> Keeps(r.value, binary)
  {
    var constant := if sign != Top then ForConstant(v, inter) else UNKNOWN;
    var drop := DropsZero(s, WithCodes(s, codes, origin));
    ConstantsKeep(v, 0, inter, binary);
    assert Keeps(constant, binary);
    match origin
    case Ambiguous =>
    case Unheld =>
    case HeldInteger(k) =>
      ConstantsKeep(v, k, inter, binary);
      WithoutZeroKeeps(drop, ForInteger(k, inter), binary);
    case HeldNull => WithoutZeroKeeps(drop, ForInteger(0, inter), binary);
    case HeldOther => WithoutZeroKeeps(drop, constant, binary);
    case FromCall(callee) =>
      var confidence := CallSpecification(s.specifications, callee);
      SpecificationKeeps(s.specifications, callee, binary);
      CallsKeep(callee, confidence, name, inter, binary);
      WithoutZeroKeeps(drop, ForCall(callee, confidence, name, inter), binary);
  }

  lemma ConstraintKeeps(s: Scene, codes: set<string>, v: Value, origin: Origin, name: string, sign: Sign, binary: bool)
    requires AllExclusive(s.specifications) && (binary ==> AllBinary(s.specifications))
    ensures var r := ConstraintContribution(s, codes, v, origin, name, sign);
            r.Some? ==> Keeps(r.value, binary)
  {
    var inter := Intersection(Specification(s.specifications, name), sign);
    SpecificationKeeps(s.specifications, name, binary);
    IntersectionKeeps(Specification(s.specifications, name), sign, binary);
    PropagatedKeeps(s, codes, v, origin, name, sign, inter, binary);
  }

  lemma ErrorValueKeeps(s: Scene, value: int, binary: bool)
    ensures Keeps(ErrorValue(s, value), binary)
  {
    FromSignKeeps(AbstractInteger(value), binary);
  }

  lemma ErrorOnlyReturnKeeps(s: Scene, codes: set<string>, v: Value, binary: bool)
    ensures var r := ErrorOnlyReturn(s, codes, v);
            r.Some? ==> Keeps(r.value, binary)
  {
    FromSignKeeps(NotZero, binary);
    FromSignKeeps(Zero, binary);
    ErrorValueKeeps(s, 0, binary);
    if v.ConstInt? {
      ErrorValueKeeps(s, v.k, binary);
    }
  }

  lemma ReturnsKeep(s: Scene, codes: set<string>, values: set<Value>, binary: bool)
    ensures AllKept(ReturnContributions(s, codes, values), binary)
  {
    forall v | v in values && ErrorOnlyReturn(s, codes, v).Some?
      ensures Keeps(ErrorOnlyReturn(s, codes, v).value, binary)
    {
      ErrorOnlyReturnKeeps(s, codes, v, binary);
    }
  }

  lemma {:induction false} CallsUpToKeep(s: Scene, codes: set<string>, b: nat, n: nat, binary: bool)
    requires s.Valid() && b < |s.body.fn.blocks| && n <= |s.body.fn.blocks[b]|
    ensures AllKept(CallsUpTo(s, codes, b, n), binary)
  {
    if n > 0 {
      CallsUpToKeep(s, codes, b, n - 1, binary);
      if s.body.fn.blocks[b][n - 1].Call? {
        ReturnsKeep(s, codes, s.body.returned[Point(b, n - 1)], binary);
      }
    }
  }

  lemma ConstraintsKeep(s: Scene, codes: set<string>, v: Value, origin: Origin, constraints: map<string, Sign>, binary: bool)
    requires AllExclusive(s.specifications) && (binary ==> AllBinary(s.specifications))
    ensures AllKept(ConstraintContributions(s, codes, v, origin, constraints), binary)
  {
    forall name | name in constraints && ConstraintContribution(s, codes, v, origin, name, constraints[name]).Some?
      ensures Keeps(ConstraintContribution(s, codes, v, origin, name, constraints[name]).value, binary)
    {
      ConstraintKeeps(s, codes, v, origin, name, constraints[name], binary);
    }
  }

  lemma BlockContributionsKeep(s: Scene, codes: set<string>, b: nat, binary: bool)
    requires s.Valid() && b < |s.body.fn.blocks|
    requires AllExclusive(s.specifications) && (binary ==> AllBinary(s.specifications))
    ensures AllKept(BlockContributions(s, codes, b), binary)
  {
    CallsUpToKeep(s, codes, b, |s.body.fn.blocks[b]|, binary);
    var only := OnlyReturned(s.body, b);
    if only.Some? && !KindOf(s, codes, only.value).SuccessCode? {
      var v := only.value;
      if KindOf(s, codes, v).ErrorCode? {
        ErrorValueKeeps(s, IntegerOf(v).value, binary);
      }
      var constraints := s.body.constraints[End(s.body.fn, b)];
      ConstraintsKeep(s, CodesAfterKind(s, codes, v), v, OriginOf(s.body, b, v), constraints, binary);
    }
  }

  /** The confidence of a block is exclusive, and none or full throughout if the stored
      specifications are. */
  lemma BlockKeeps(s: Scene, codes: set<string>, b: nat, binary: bool)
    requires s.Valid() && b < |s.body.fn.blocks|
    requires AllExclusive(s.specifications) && (binary ==> AllBinary(s.specifications))
    ensures Keeps(BlockTuple(s, codes, b), binary)
  {
    CallsAreNeverNone(s, codes, b, |s.body.fn.blocks[b]|);
    BlockContributionsKeep(s, codes, b, binary);
    JoinKeeps(BlockContributions(s, codes, b), binary);
  }

  lemma JoinKeeps(contributions: set<Tuple>, binary: bool)
    requires contributions != {} && AllKept(contributions, binary)
    ensures Keeps(JoinSet(contributions), binary)
  {
    assert forall t | t in contributions :: Keeps(t, binary);
    JoinSetIsExclusive(JoinSet(contributions), contributions);
    if binary {
      JoinSetIsBinary(JoinSet(contributions), contributions);
    }
  }
}
