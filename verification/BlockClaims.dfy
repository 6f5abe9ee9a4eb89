/** What a block can claim at most: the signs of the value it must return, as far as that
    value is a constant, holds one, or is the result of a known function. */
module BlockClaims {
  import opened SignLattice
  import opened Tuples = ConfidenceLattice
  import opened TupleJoins
  import opened IR
  import opened BlockConfidence

  /** The signs of a constant, as a return value; none if it is not one. */
  function ConstantSign(v: Value): Sign {
    match v
    case ConstInt(k) => AbstractInteger(k)
    case ConstBool(p) => if p then NotZero else Zero
    case Null => Zero
    case StringLiteral(_) => NotZero
    case _ => Bottom
  }

  /** The signs that come with the place a returned value comes from. */
  function OriginSign(s: Scene, origin: Origin): Sign {
    match origin
    case HeldInteger(k) => AbstractInteger(k)
    case HeldNull => Zero
    case FromCall(callee) => Support(CallSpecification(s.specifications, callee))
    case _ => Bottom
  }

  function Claimable(s: Scene, v: Value, origin: Origin): Sign {
    Lub(ConstantSign(v), OriginSign(s, origin))
  }

  predicate Claims(t: Tuple, x: Sign) {
    Leq(Support(t), x)
  }

  ghost predicate AllClaim(contributions: set<Tuple>, x: Sign) {
    forall t | t in contributions :: Claims(t, x)
  }

  lemma ClaimsMore(t: Tuple, x: Sign, y: Sign)
    requires Claims(t, x) || Claims(t, y)
    ensures Claims(t, Lub(x, y))
  {
  }

  lemma NoSigns(t: Tuple, x: Sign)
    requires GetMax(t) == 0
    ensures Claims(t, x)
  {
  }

  lemma IntegerClaims(k: int, inter: Tuple)
    ensures Claims(ForInteger(k, inter), AbstractInteger(k))
  {
  }

  lemma ConstantClaims(v: Value, inter: Tuple)
    ensures Claims(ForConstant(v, inter), ConstantSign(v))
  {
    if v.ConstInt? {
      IntegerClaims(v.k, inter);
    }
  }

  lemma CallClaims(callee: string, confidence: Tuple, name: string, inter: Tuple)
    ensures Claims(ForCall(callee, confidence, name, inter), Support(confidence))
  {
  }

  lemma WithoutZeroClaims(drop: bool, t: Tuple, x: Sign)
    requires Claims(t, x)
    ensures Claims(WithoutZero(drop, t), x)
    ensures drop ==> WithoutZero(drop, t).zero == 0
  {
  }

  lemma PropagatedClaims(s: Scene, codes: set<string>, v: Value, origin: Origin, name: string, sign: Sign, inter: Tuple)
    ensures var r := Propagated(s, codes, v, origin, name, sign, inter);
            r.Some? ==> Claims(r.value, Claimable(s, v, origin))
  {
    var constant := if sign != Top then ForConstant(v, inter) else UNKNOWN;
    var drop := DropsZero(s, WithCodes(s, codes, origin));
    var x, y := ConstantSign(v), OriginSign(s, origin);
    ConstantClaims(v, inter);
    NoSigns(UNKNOWN, x);
    ClaimsMore(constant, x, y);
    match origin
    case Ambiguous =>
    case Unheld =>
    case HeldOther => WithoutZeroClaims(drop, constant, Lub(x, y));
    case HeldInteger(k) =>
      IntegerClaims(k, inter);
      ClaimsMore(ForInteger(k, inter), x, y);
      WithoutZeroClaims(drop, ForInteger(k, inter), Lub(x, y));
    case HeldNull =>
      IntegerClaims(0, inter);
      ClaimsMore(ForInteger(0, inter), x, y);
      WithoutZeroClaims(drop, ForInteger(0, inter), Lub(x, y));
    case FromCall(callee) =>
      var confidence := CallSpecification(s.specifications, callee);
      CallClaims(callee, confidence, name, inter);
      ClaimsMore(ForCall(callee, confidence, name, inter), x, y);
      WithoutZeroClaims(drop, ForCall(callee, confidence, name, inter), Lub(x, y));
  }

  lemma ConstraintClaims(s: Scene, codes: set<string>, v: Value, origin: Origin, name: string, sign: Sign)
    requires AllExclusive(s.specifications)
    ensures var r := ConstraintContribution(s, codes, v, origin, name, sign);
            r.Some? ==> Claims(r.value, Claimable(s, v, origin))
  {
    var inter := Intersection(Specification(s.specifications, name), sign);
    if IsInformative(inter) {
      PropagatedClaims(s, codes, v, origin, name, sign, inter);
    } else {
      SpecificationKeeps(s.specifications, name, false);
      IntersectionKeeps(Specification(s.specifications, name), sign, false);
      NoSigns(inter, Claimable(s, v, origin));
    }
  }

  lemma ConstraintsClaim(s: Scene, codes: set<string>, v: Value, origin: Origin, constraints: map<string, Sign>)
    requires AllExclusive(s.specifications)
    ensures AllClaim(ConstraintContributions(s, codes, v, origin, constraints), Claimable(s, v, origin))
  {
    forall name | name in constraints && ConstraintContribution(s, codes, v, origin, name, constraints[name]).Some?
      ensures Claims(ConstraintContribution(s, codes, v, origin, name, constraints[name]).value, Claimable(s, v, origin))
    {
      ConstraintClaims(s, codes, v, origin, name, constraints[name]);
    }
  }

  ghost predicate NoErrorOnlyCalls(y: Body, b: nat) {
    forall i: nat :: Point(b, i) !in y.errorOnlyCalls
  }

  lemma {:induction false} CallsClaimNothing(s: Scene, codes: set<string>, b: nat, n: nat, x: Sign)
    requires s.Valid() && b < |s.body.fn.blocks| && n <= |s.body.fn.blocks[b]| && NoErrorOnlyCalls(s.body, b)
    ensures AllClaim(CallsUpTo(s, codes, b, n), x)
  {
    NoSigns(EMPTYSET, x);
    NoSigns(UNKNOWN, x);
    if n > 0 {
      CallsClaimNothing(s, codes, b, n - 1, x);
      assert Point(b, n - 1) !in s.body.errorOnlyCalls;
    }
  }

  lemma ErrorValueClaims(s: Scene, v: Value)
    requires IntegerOf(v).Some?
    ensures Claims(ErrorValue(s, IntegerOf(v).value), ConstantSign(v))
  {
    NoSigns(EMPTYSET, ConstantSign(v));
  }

  lemma JoinClaims(contributions: set<Tuple>, x: Sign)
    requires contributions != {} && AllClaim(contributions, x)
    ensures Claims(JoinSet(contributions), x)
  {
    assert forall t | t in contributions :: Claims(t, x);
  }

  /** A block without error-only calls claims no sign that the value it must return does
      not have; and none at all if there is no such value. */
  lemma BlockClaimsOnlyItsValue(s: Scene, codes: set<string>, b: nat)
    requires s.Valid() && b < |s.body.fn.blocks| && AllExclusive(s.specifications)
    requires NoErrorOnlyCalls(s.body, b)
    ensures var only := OnlyReturned(s.body, b);
            Claims(BlockTuple(s, codes, b),
                   if only.None? then Bottom else Claimable(s, only.value, OriginOf(s.body, b, only.value)))
  {
    var n := |s.body.fn.blocks[b]|;
    var only := OnlyReturned(s.body, b);
    CallsAreNeverNone(s, codes, b, n);
    if only.None? {
      CallsClaimNothing(s, codes, b, n, Bottom);
      JoinClaims(BlockContributions(s, codes, b), Bottom);
    } else {
      var v, origin := only.value, OriginOf(s.body, b, only.value);
      var x := Claimable(s, v, origin);
      CallsClaimNothing(s, codes, b, n, x);
      if KindOf(s, codes, v).ErrorCode? {
        ErrorValueClaims(s, v);
        ClaimsMore(ErrorValue(s, IntegerOf(v).value), ConstantSign(v), OriginSign(s, origin));
      }
      ConstraintsClaim(s, CodesAfterKind(s, codes, v), v, origin, s.body.constraints[End(s.body.fn, b)]);
      JoinClaims(BlockContributions(s, codes, b), x);
    }
  }
}
