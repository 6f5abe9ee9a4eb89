/** What a constraint contributes to a block, said sign by sign: whose confidence it hands
    on, how it is cut down, and when 0 is dropped. Nothing here is defined by the functions
    of `BlockConfidence`; each is proved to mean what is said here. */
module BlockMeaning {
  import opened SignLattice
  import opened Tuples = ConfidenceLattice
  import opened Cardinality
  import opened IR
  import opened BranchTests
  import opened BlockConfidence
  import RC = ReturnConstraints
  import RV = ReturnedValues

  // ----- Domain knowledge -----

  /** The code is listed for every file, or for a part of the name of this one. */
  ghost predicate IsListed(codes: map<int, set<string>>, value: int, file: string) {
    value in codes && (codes[value] == {} || exists part :: part in codes[value] && RV.Occurs(part, file))
  }

  lemma HasCodeMeans(codes: map<int, set<string>>, value: int, file: string)
    ensures HasCode(codes, value, file) <==> IsListed(codes, value, file)
  {
    if value in codes {
      forall part
        ensures RV.ContainsSubstring(file, part) <==> RV.Occurs(part, file)
      {
        RV.ContainsIsOccurs(file, part);
      }
    }
  }

  /** Under the smart heuristic 0 is only a success code of functions known to return codes. */
  ghost predicate IsSuccess(s: Scene, codes: set<string>, value: int) {
    && IsListed(s.knowledge.successCodes, value, s.body.file)
    && (s.knowledge.smartZero && value == 0 ==> s.Name() in codes)
  }

  lemma CodesMean(s: Scene, codes: set<string>, value: int)
    ensures IsSuccessCode(s, codes, value) <==> IsSuccess(s, codes, value)
    ensures IsErrorCode(s, value) <==> IsListed(s.knowledge.errorCodes, value, s.body.file)
    ensures DropsZero(s, codes) <==> s.knowledge.smartZero && IsSuccess(s, codes, 0)
  {
    HasCodeMeans(s.knowledge.successCodes, value, s.body.file);
    HasCodeMeans(s.knowledge.successCodes, 0, s.body.file);
    HasCodeMeans(s.knowledge.errorCodes, value, s.body.file);
  }

  // ----- Stored confidences -----

  /** The confidence of a function in the sign of an integer, and in "no errors". */
  function Stored(s: Scene, name: string, k: int): Confidence {
    if name in s.specifications then At(s.specifications[name], k) else 0
  }

  function StoredNone(s: Scene, name: string): Confidence {
    if name in s.specifications then s.specifications[name].emptyset else 0
  }

  /** What is left of it under a constraint. */
  function Left(s: Scene, name: string, sign: Sign, k: int): Confidence {
    if In(k, sign) then Stored(s, name, k) else 0
  }

  ghost predicate IsStrongestLeft(s: Scene, name: string, sign: Sign, m: Confidence) {
    (exists k :: Left(s, name, sign, k) == m) && forall k :: Left(s, name, sign, k) <= m
  }

  /** The constraint leaves something of the specification, and that is not "no errors". */
  ghost predicate Informs(s: Scene, name: string, sign: Sign) {
    StoredNone(s, name) != 100 && (StoredNone(s, name) > 0 || exists k :: Left(s, name, sign, k) > 0)
  }

  lemma LeftAt(s: Scene, name: string, sign: Sign, k: int)
    ensures var inter := Intersection(Specification(s.specifications, name), sign);
            At(inter, k) == Left(s, name, sign, k) && inter.emptyset == StoredNone(s, name)
  {
    var x := Specification(s.specifications, name);
    CutsAt(x, x, sign, k);
  }

  /** The tuple has in each sign what the constraint leaves. */
  ghost predicate IsLeft(s: Scene, name: string, sign: Sign, t: Tuple) {
    t.emptyset == StoredNone(s, name) && forall k :: At(t, k) == Left(s, name, sign, k)
  }

  lemma StrongestLeft(s: Scene, name: string, sign: Sign, t: Tuple, m: Confidence)
    requires IsLeft(s, name, sign, t)
    ensures IsStrongestLeft(s, name, sign, m) <==> m == GetMax(t)
  {
    GetMaxIsStrongest(t);
    assert IsStrongestLeft(s, name, sign, m) ==> IsStrongest(m, t) by {
      if IsStrongestLeft(s, name, sign, m) {
        var k :| Left(s, name, sign, k) == m;
        assert At(t, k) == m;
      }
    }
    assert IsStrongest(m, t) ==> IsStrongestLeft(s, name, sign, m) by {
      if IsStrongest(m, t) {
        var k :| At(t, k) == m;
        assert Left(s, name, sign, k) == m;
      }
    }
  }

  lemma LeftInforms(s: Scene, name: string, sign: Sign, t: Tuple)
    requires IsLeft(s, name, sign, t)
    ensures IsInformative(t) <==> Informs(s, name, sign)
  {
    TestsAt(t);
  }

  lemma LeftIsIntersection(s: Scene, name: string, sign: Sign)
    ensures var inter := Intersection(Specification(s.specifications, name), sign);
            && IsLeft(s, name, sign, inter) && (IsInformative(inter) <==> Informs(s, name, sign))
            && (forall m: Confidence :: IsStrongestLeft(s, name, sign, m) <==> m == GetMax(inter))
  {
    var inter := Intersection(Specification(s.specifications, name), sign);
    forall k
      ensures At(inter, k) == Left(s, name, sign, k) && inter.emptyset == StoredNone(s, name)
    {
      LeftAt(s, name, sign, k);
    }
    LeftAt(s, name, sign, 0);
    LeftInforms(s, name, sign, inter);
    forall m: Confidence
      ensures IsStrongestLeft(s, name, sign, m) <==> m == GetMax(inter)
    {
      StrongestLeft(s, name, sign, inter, m);
    }
  }

  // ----- Values -----

  predicate IsConstant(v: Value) {
    v.ConstInt? || v.ConstBool? || v.Null? || v.StringLiteral?
  }

  /** The signs of a constant as an operand: `true` is anything but zero. */
  predicate HasSign(v: Value, k: int) {
    match v
    case ConstInt(x) => SameSign(k, x)
    case ConstBool(p) => p <==> k != 0
    case Null => k == 0
    case StringLiteral(_) => k != 0
    case _ => false
  }

  /** The signs of a constant that is held: `true` is read as -1. */
  predicate HoldsSign(v: Value, k: int) {
    match v
    case ConstInt(x) => SameSign(k, x)
    case ConstBool(p) => if p then k < 0 else k == 0
    case Null => k == 0
    case _ => false
  }

  predicate IsHeldConstant(v: Value) {
    v.ConstInt? || v.ConstBool? || v.Null?
  }

  /** What the returned value is at the end of the block: itself if it is a call, or else
      the one value it is known to hold there. */
  ghost predicate Carries(y: Body, b: nat, v: Value, w: Value)
    requires y.Valid() && b < |y.fn.blocks|
  {
    var held := y.held[End(y.fn, b)];
    if RC.IsCallResult(y.fn, v) then w == v else v in held && held[v] == {w}
  }

  ghost predicate CarriesSeveral(y: Body, b: nat, v: Value)
    requires y.Valid() && b < |y.fn.blocks|
  {
    var held := y.held[End(y.fn, b)];
    !RC.IsCallResult(y.fn, v) && v in held && exists w, u :: w in held[v] && u in held[v] && w != u
  }

  ghost predicate CarriesNothing(y: Body, b: nat, v: Value)
    requires y.Valid() && b < |y.fn.blocks|
  {
    var held := y.held[End(y.fn, b)];
    !RC.IsCallResult(y.fn, v) && (v in held ==> held[v] == {})
  }

  lemma OriginOfCarried(y: Body, b: nat, v: Value, w: Value)
    requires y.Valid() && b < |y.fn.blocks| && Carries(y, b, v, w)
    ensures OriginOf(y, b, v) == HeldKind(y.fn, w)
  {
  }

  lemma OriginOfOthers(y: Body, b: nat, v: Value)
    requires y.Valid() && b < |y.fn.blocks|
    ensures CarriesSeveral(y, b, v) ==> OriginOf(y, b, v) == Ambiguous
    ensures CarriesNothing(y, b, v) ==> OriginOf(y, b, v) == Unheld
  {
    var held := y.held[End(y.fn, b)];
    if CarriesSeveral(y, b, v) {
      var w, u :| w in held[v] && u in held[v] && w != u;
      TwoElements(held[v], w, u);
    }
  }

  /** The value is the result of a call whose callee is named and has a specification. */
  ghost predicate IsKnownCall(s: Scene, w: Value, g: string) {
    && RC.IsCallNamed(s.body.fn, w, g) && g != "" && g in s.specifications
    && (StoredNone(s, g) > 0 || exists k :: Stored(s, g, k) > 0)
  }

  /** The smart heuristic drops 0: it is a success code here, and the function is known to
      return codes, or hands on the result of one that is. */
  ghost predicate Zeroless(s: Scene, codes: set<string>, w: Value) {
    && s.knowledge.smartZero && IsListed(s.knowledge.successCodes, 0, s.body.file)
    && (s.Name() in codes || exists g :: IsKnownCall(s, w, g) && g in codes)
  }

  // ----- What is said of one sign -----

  /** The strongest confidence that a constraint leaves. */
  ghost predicate IsStrongestOnly(s: Scene, name: string, sign: Sign, c: int) {
    c >= 0 && forall m: Confidence :: IsStrongestLeft(s, name, sign, m) <==> m == c
  }

  /** What the returned value says by itself: if it is a constant, the strongest confidence
      left, in the signs of the constant. */
  ghost predicate SaysItself(s: Scene, v: Value, name: string, sign: Sign, k: int, c: int) {
    if sign != Top && HasSign(v, k) then IsStrongestOnly(s, name, sign, c) else c == 0
  }

  /** What a call says: a known callee's confidence, met with what is left under a
      constraint on the callee itself; no 0, if the heuristic drops it. */
  ghost predicate CallSays(s: Scene, codes: set<string>, v: Value, w: Value, name: string, sign: Sign, k: int, c: int) {
    && (forall g :: IsKnownCall(s, w, g) ==>
          if k == 0 && Zeroless(s, codes, w) then c == 0
          else if g == name then IsLesser(c, Stored(s, g, k), Left(s, name, sign, k))
          else c == Stored(s, g, k))
    && ((forall g :: !IsKnownCall(s, w, g)) ==> SaysItself(s, v, name, sign, k, c))
  }

  /** What a held value says that is no call. */
  ghost predicate HeldSays(s: Scene, codes: set<string>, v: Value, w: Value, name: string, sign: Sign, k: int, c: int) {
    if k == 0 && Zeroless(s, codes, w) then c == 0
    else if HoldsSign(w, k) then IsStrongestOnly(s, name, sign, c)
    else if IsHeldConstant(w) then c == 0
    else SaysItself(s, v, name, sign, k, c)
  }

  /** The confidence in the sign of `k` that comes with the value carried. */
  ghost predicate Says(s: Scene, codes: set<string>, v: Value, w: Value, name: string, sign: Sign, k: int, c: int) {
    if RC.IsCallResult(s.body.fn, w) then CallSays(s, codes, v, w, name, sign, k, c)
    else HeldSays(s, codes, v, w, name, sign, k, c)
  }

  predicate IsLesser(c: int, x: int, y: int) {
    c <= x && c <= y && (c == x || c == y)
  }

  predicate IsGreater(c: int, x: int, y: int) {
    c >= x && c >= y && (c == x || c == y)
  }

  predicate SaysNoneItself(s: Scene, v: Value, name: string, sign: Sign, c: int) {
    c == if sign != Top && IsConstant(v) then StoredNone(s, name) else 0
  }

  ghost predicate CallSaysNone(s: Scene, v: Value, w: Value, name: string, sign: Sign, c: int) {
    && (forall g :: IsKnownCall(s, w, g) ==>
          if g == name then IsGreater(c, StoredNone(s, g), StoredNone(s, name)) else c == StoredNone(s, g))
    && ((forall g :: !IsKnownCall(s, w, g)) ==> SaysNoneItself(s, v, name, sign, c))
  }

  /** The confidence in "no errors" that comes with it. */
  ghost predicate SaysNone(s: Scene, v: Value, w: Value, name: string, sign: Sign, c: int) {
    if RC.IsCallResult(s.body.fn, w) then CallSaysNone(s, v, w, name, sign, c)
    else if IsHeldConstant(w) then c == StoredNone(s, name)
    else SaysNoneItself(s, v, name, sign, c)
  }

  /** The tuple says this of the value carried. */
  ghost predicate SaysOf(s: Scene, codes: set<string>, v: Value, w: Value, name: string, sign: Sign, t: Tuple) {
    SaysNone(s, v, w, name, sign, t.emptyset) && forall k :: Says(s, codes, v, w, name, sign, k, At(t, k))
  }

  ghost predicate SaysOfItself(s: Scene, v: Value, name: string, sign: Sign, t: Tuple) {
    SaysNoneItself(s, v, name, sign, t.emptyset) && forall k :: SaysItself(s, v, name, sign, k, At(t, k))
  }

  lemma ConstantSays(s: Scene, v: Value, name: string, sign: Sign)
    ensures var inter := Intersection(Specification(s.specifications, name), sign);
            SaysOfItself(s, v, name, sign, if sign != Top then ForConstant(v, inter) else UNKNOWN)
  {
    LeftIsIntersection(s, name, sign);
    var inter := Intersection(Specification(s.specifications, name), sign);
    var t := if sign != Top then ForConstant(v, inter) else UNKNOWN;
    forall k
      ensures SaysItself(s, v, name, sign, k, At(t, k))
    {
    }
  }

  lemma HeldIntegerSays(s: Scene, w: Value, i: int, name: string, sign: Sign, k: int)
    requires (IntegerOf(w) == Some(i)) || (w.Null? && i == 0)
    ensures var inter := Intersection(Specification(s.specifications, name), sign);
            var c := At(ForInteger(i, inter), k);
            && ForInteger(i, inter).emptyset == StoredNone(s, name)
            && if HoldsSign(w, k) then IsStrongestOnly(s, name, sign, c) else c == 0
  {
    LeftIsIntersection(s, name, sign);
  }

  lemma WithoutZeroAt(drop: bool, t: Tuple, k: int)
    ensures At(WithoutZero(drop, t), k) == if drop && k == 0 then 0 else At(t, k)
    ensures WithoutZero(drop, t).emptyset == t.emptyset
  {
    CutsAt(t, FromSign(Zero, 0), Top, k);
    ScaledAt(Zero, 0, 0, k);
  }

  lemma ForCallAt(callee: string, confidence: Tuple, name: string, inter: Tuple, k: int)
    ensures var c := At(ForCall(callee, confidence, name, inter), k);
            if callee == name then IsLesser(c, At(confidence, k), At(inter, k)) else c == At(confidence, k)
    ensures var c := ForCall(callee, confidence, name, inter).emptyset;
            if callee == name then IsGreater(c, confidence.emptyset, inter.emptyset) else c == confidence.emptyset
  {
  }

  /** Which callee a call has, if it is known. */
  lemma KnownCallIs(s: Scene, codes: set<string>, w: Value)
    requires RC.IsCallResult(s.body.fn, w)
    ensures var callee := RC.CalleeName(Definition(s.body.fn, w).value);
            && HeldKind(s.body.fn, w) == FromCall(callee)
            && (forall g :: IsKnownCall(s, w, g) ==> g == callee)
            && (IsUnknown(CallSpecification(s.specifications, callee)) <==> !IsKnownCall(s, w, callee))
  {
    var callee := RC.CalleeName(Definition(s.body.fn, w).value);
    TestsAt(CallSpecification(s.specifications, callee));
    if callee in s.specifications {
      var x := s.specifications[callee];
      assert forall k :: Stored(s, callee, k) == At(x, k);
    }
  }

  lemma ZerolessIsDrop(s: Scene, codes: set<string>, w: Value)
    ensures DropsZero(s, WithCodes(s, codes, HeldKind(s.body.fn, w))) <==> Zeroless(s, codes, w)
  {
    CodesMean(s, WithCodes(s, codes, HeldKind(s.body.fn, w)), 0);
    if RC.IsCallResult(s.body.fn, w) {
      KnownCallIs(s, codes, w);
    }
  }

  /** A known call that is carried. */
  lemma KnownCallSays(s: Scene, codes: set<string>, v: Value, w: Value, name: string, sign: Sign)
    requires RC.IsCallResult(s.body.fn, w) && Informs(s, name, sign)
    requires IsKnownCall(s, w, RC.CalleeName(Definition(s.body.fn, w).value))
    ensures var inter := Intersection(Specification(s.specifications, name), sign);
            var r := Propagated(s, codes, v, HeldKind(s.body.fn, w), name, sign, inter);
            r.Some? && SaysOf(s, codes, v, w, name, sign, r.value)
  {
    var inter := Intersection(Specification(s.specifications, name), sign);
    LeftIsIntersection(s, name, sign);
    ZerolessIsDrop(s, codes, w);
    KnownCallIs(s, codes, w);
    var callee := RC.CalleeName(Definition(s.body.fn, w).value);
    var confidence := CallSpecification(s.specifications, callee);
    var drop := DropsZero(s, WithCodes(s, codes, HeldKind(s.body.fn, w)));
    var t := WithoutZero(drop, ForCall(callee, confidence, name, inter));
    forall k
      ensures Says(s, codes, v, w, name, sign, k, At(t, k)) && SaysNone(s, v, w, name, sign, t.emptyset)
    {
      ForCallAt(callee, confidence, name, inter, k);
      WithoutZeroAt(drop, ForCall(callee, confidence, name, inter), k);
    }
    assert SaysNone(s, v, w, name, sign, t.emptyset) by {
      ForCallAt(callee, confidence, name, inter, 0);
      WithoutZeroAt(drop, ForCall(callee, confidence, name, inter), 0);
    }
  }

  lemma HeldConstantSaysAt(s: Scene, codes: set<string>, v: Value, w: Value, name: string, sign: Sign, drop: bool,
                           t: Tuple, k: int)
    requires IsHeldConstant(w) && t.emptyset == StoredNone(s, name)
    requires if HoldsSign(w, k) then IsStrongestOnly(s, name, sign, At(t, k)) else At(t, k) == 0
    requires drop <==> Zeroless(s, codes, w)
    ensures Says(s, codes, v, w, name, sign, k, At(WithoutZero(drop, t), k))
    ensures SaysNone(s, v, w, name, sign, WithoutZero(drop, t).emptyset)
  {
    WithoutZeroAt(drop, t, k);
  }

  /** A constant that is held. */
  lemma HeldConstantSays(s: Scene, codes: set<string>, v: Value, w: Value, i: int, name: string, sign: Sign, drop: bool)
    requires IntegerOf(w) == Some(i) || (w.Null? && i == 0)
    requires drop <==> Zeroless(s, codes, w)
    ensures var inter := Intersection(Specification(s.specifications, name), sign);
            SaysOf(s, codes, v, w, name, sign, WithoutZero(drop, ForInteger(i, inter)))
  {
    var t := ForInteger(i, Intersection(Specification(s.specifications, name), sign));
    forall k
      ensures Says(s, codes, v, w, name, sign, k, At(WithoutZero(drop, t), k))
      ensures SaysNone(s, v, w, name, sign, WithoutZero(drop, t).emptyset)
    {
      HeldIntegerSays(s, w, i, name, sign, k);
      HeldConstantSaysAt(s, codes, v, w, name, sign, drop, t, k);
    }
    HeldIntegerSays(s, w, i, name, sign, 0);
    HeldConstantSaysAt(s, codes, v, w, name, sign, drop, t, 0);
  }

  /** Anything else that is carried, and is no call. */
  lemma OtherValueSays(s: Scene, codes: set<string>, v: Value, w: Value, name: string, sign: Sign, drop: bool, t: Tuple)
    requires !RC.IsCallResult(s.body.fn, w) && !IsHeldConstant(w) && SaysOfItself(s, v, name, sign, t)
    requires drop <==> Zeroless(s, codes, w)
    ensures SaysOf(s, codes, v, w, name, sign, WithoutZero(drop, t))
  {
    forall k
      ensures Says(s, codes, v, w, name, sign, k, At(WithoutZero(drop, t), k))
    {
      WithoutZeroAt(drop, t, k);
      assert SaysItself(s, v, name, sign, k, At(t, k));
    }
    WithoutZeroAt(drop, t, 0);
  }

  /** A call that is carried, of a function that nothing is known of. */
  lemma UnknownCallSays(s: Scene, codes: set<string>, v: Value, w: Value, name: string, sign: Sign)
    requires RC.IsCallResult(s.body.fn, w)
    requires !IsKnownCall(s, w, RC.CalleeName(Definition(s.body.fn, w).value))
    ensures var inter := Intersection(Specification(s.specifications, name), sign);
            var r := Propagated(s, codes, v, HeldKind(s.body.fn, w), name, sign, inter);
            r.Some? && SaysOf(s, codes, v, w, name, sign, r.value)
  {
    KnownCallIs(s, codes, w);
    ConstantSays(s, v, name, sign);
    var t := if sign != Top then ForConstant(v, Intersection(Specification(s.specifications, name), sign)) else UNKNOWN;
    forall k
      ensures Says(s, codes, v, w, name, sign, k, At(t, k))
    {
      assert SaysItself(s, v, name, sign, k, At(t, k));
    }
  }

  /** A value that is carried and is no call. */
  lemma NoCallSays(s: Scene, codes: set<string>, v: Value, w: Value, name: string, sign: Sign)
    requires !RC.IsCallResult(s.body.fn, w)
    ensures var inter := Intersection(Specification(s.specifications, name), sign);
            var r := Propagated(s, codes, v, HeldKind(s.body.fn, w), name, sign, inter);
            r.Some? && SaysOf(s, codes, v, w, name, sign, r.value)
  {
    ZerolessIsDrop(s, codes, w);
    var drop := DropsZero(s, WithCodes(s, codes, HeldKind(s.body.fn, w)));
    if IsHeldConstant(w) {
      HeldConstantSays(s, codes, v, w, if IntegerOf(w).Some? then IntegerOf(w).value else 0, name, sign, drop);
    } else {
      ConstantSays(s, v, name, sign);
      var inter := Intersection(Specification(s.specifications, name), sign);
      OtherValueSays(s, codes, v, w, name, sign, drop, if sign != Top then ForConstant(v, inter) else UNKNOWN);
    }
  }

  lemma CarriedSays(s: Scene, codes: set<string>, v: Value, w: Value, name: string, sign: Sign)
    requires Informs(s, name, sign)
    ensures var inter := Intersection(Specification(s.specifications, name), sign);
            var r := Propagated(s, codes, v, HeldKind(s.body.fn, w), name, sign, inter);
            r.Some? && SaysOf(s, codes, v, w, name, sign, r.value)
  {
    if !RC.IsCallResult(s.body.fn, w) {
      NoCallSays(s, codes, v, w, name, sign);
    } else if IsKnownCall(s, w, RC.CalleeName(Definition(s.body.fn, w).value)) {
      KnownCallSays(s, codes, v, w, name, sign);
    } else {
      UnknownCallSays(s, codes, v, w, name, sign);
    }
  }

  // ----- What a constraint contributes -----

  function ValueOf(r: Option<Tuple>): Tuple {
    if r.Some? then r.value else UNKNOWN
  }

  /** A constraint that does not inform contributes what it leaves; another one what is
      carried, or what the value says by itself if nothing is known to be; nothing if
      several values may be carried, and nothing if nothing is said. */
  ghost predicate IsContribution(s: Scene, codes: set<string>, b: nat, v: Value, name: string, sign: Sign, r: Option<Tuple>)
    requires s.Valid() && b < |s.body.fn.blocks|
  {
    if !Informs(s, name, sign) then
      r.Some? && r.value.emptyset == StoredNone(s, name) && forall k :: At(r.value, k) == Left(s, name, sign, k)
    else
      && (CarriesSeveral(s.body, b, v) ==> r.None?)
      && (forall w :: Carries(s.body, b, v, w) ==> SaysOf(s, codes, v, w, name, sign, ValueOf(r)))
      && (CarriesNothing(s.body, b, v) ==> SaysOfItself(s, v, name, sign, ValueOf(r)))
      && (r.Some? ==> r.value.emptyset > 0 || exists k :: At(r.value, k) > 0)
  }

  lemma ContributionMeans(s: Scene, codes: set<string>, b: nat, v: Value, name: string, sign: Sign)
    requires s.Valid() && b < |s.body.fn.blocks|
    ensures IsContribution(s, codes, b, v, name, sign,
                           ConstraintContribution(s, codes, v, OriginOf(s.body, b, v), name, sign))
  {
    LeftIsIntersection(s, name, sign);
    var inter := Intersection(Specification(s.specifications, name), sign);
    if Informs(s, name, sign) {
      var origin := OriginOf(s.body, b, v);
      var r := Propagated(s, codes, v, origin, name, sign, inter);
      OriginOfOthers(s.body, b, v);
      ConstantSays(s, v, name, sign);
      if r.Some? {
        TestsAt(r.value);
      }
      forall w | Carries(s.body, b, v, w)
        ensures SaysOf(s, codes, v, w, name, sign, ValueOf(ConstraintContribution(s, codes, v, origin, name, sign)))
      {
        OriginOfCarried(s.body, b, v, w);
        CarriedSays(s, codes, v, w, name, sign);
        UnknownIsNone(r.value);
      }
    }
  }

  lemma UnknownIsNone(t: Tuple)
    ensures IsUnknown(t) <==> t == UNKNOWN
  {
  }

  // ----- A call that is carried -----

  /** The contribution of a known call that is carried, under an informative constraint:
      the callee's confidence in each sign; no more than the constraint leaves, if it is on
      the callee itself; and none in 0 if the heuristic drops that. */
  ghost predicate HandsOn(s: Scene, codes: set<string>, w: Value, g: string, name: string, sign: Sign, t: Tuple) {
    && (forall k ::
          && At(t, k) <= Stored(s, g, k)
          && (g == name ==> At(t, k) <= Left(s, name, sign, k))
          && (At(t, k) == (if g == name && Left(s, name, sign, k) < Stored(s, g, k) then Left(s, name, sign, k)
                           else Stored(s, g, k))
              || (k == 0 && At(t, k) == 0 && Zeroless(s, codes, w))))
    && (g == name ==> forall k :: At(t, k) > 0 ==> In(k, sign))
  }

  lemma CarriedCallIsHandedOn(s: Scene, codes: set<string>, b: nat, v: Value, w: Value, g: string,
                              name: string, sign: Sign, r: Option<Tuple>)
    requires s.Valid() && b < |s.body.fn.blocks| && IsContribution(s, codes, b, v, name, sign, r)
    requires Informs(s, name, sign) && Carries(s.body, b, v, w) && IsKnownCall(s, w, g)
    ensures HandsOn(s, codes, w, g, name, sign, ValueOf(r))
  {
    assert forall k :: Says(s, codes, v, w, name, sign, k, At(ValueOf(r), k));
  }

  /** Under a constraint on the returned callee itself, informative or not, no sign is
      claimed that the constraint excludes. */
  lemma OwnConstraintBoundsClaim(s: Scene, codes: set<string>, b: nat, v: Value, w: Value, name: string,
                                 sign: Sign, r: Option<Tuple>, k: int)
    requires s.Valid() && b < |s.body.fn.blocks| && IsContribution(s, codes, b, v, name, sign, r)
    requires Carries(s.body, b, v, w) && IsKnownCall(s, w, name) && At(ValueOf(r), k) > 0
    ensures In(k, sign)
  {
    if Informs(s, name, sign) {
      CarriedCallIsHandedOn(s, codes, b, v, w, name, name, sign, r);
    }
  }
}
