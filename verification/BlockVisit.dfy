/** The visitors of the error-blocks pass for one block, in the loops of the pass: over
    the instructions, the returnable values and the constraints, in whatever order the
    containers give them. They compute the joins of `BlockConfidence`. */
module BlockVisit {
  import opened SignLattice
  import opened Tuples = ConfidenceLattice
  import opened TupleJoins
  import opened Cardinality
  import opened IR
  import opened BlockConfidence
  import opened BlockMeaning
  import opened BlockCauses
  import RC = ReturnConstraints

  // ----- Calls -----

  /** Joins one value that can be returned from an error-only call, if it is an error. */
  method JoinErrorReturn(s: Scene, codes: set<string>, v: Value, start: Tuple) returns (r: Tuple)
    ensures var t := ErrorOnlyReturn(s, codes, v);
            r == if t.Some? then Tuples.Join(t.value, start) else start
  {
    r := start;
    if v.ConstBool? {
      var delta := if v.p then FromSign(NotZero, 0) else FromSign(Zero, 0);
      r := Tuples.Join(delta, r);
    } else if v.ConstInt? {
      if !IsSuccessCode(s, codes, v.k) {
        r := Tuples.Join(ErrorValue(s, v.k), r);
      }
    } else if v.Null? {
      r := Tuples.Join(ErrorValue(s, 0), r);
    }
  }

  /** Joins the error values that can be returned from an error-only call. */
  method VisitErrorOnlyCall(s: Scene, codes: set<string>, values: set<Value>) returns (r: Tuple)
    ensures IsJoinOf(r, ReturnContributions(s, codes, values))
  {
    r := EMPTYSET;
    var todo := values;
    ghost var f := Returner(s, codes);
    JoinOfOne(EMPTYSET);
    assert {EMPTYSET} + Collected(f, values - todo) == {EMPTYSET};
    while todo != {}
      invariant todo <= values
      invariant IsJoinOf(r, {EMPTYSET} + Collected(f, values - todo))
      decreases |todo|
    {
      var v :| v in todo;
      CollectOne(f, values - todo, v, {EMPTYSET}, r);
      assert values - todo + {v} == values - (todo - {v});
      r := JoinErrorReturn(s, codes, v, r);
      todo := todo - {v};
    }
    assert values - todo == values;
  }

  method VisitCallInst(s: Scene, codes: set<string>, b: nat, i: nat) returns (r: Tuple)
    requires s.Valid() && IsInstruction(s.body.fn, b, i) && s.body.fn.blocks[b][i].Call?
    ensures IsJoinOf(r, CallContributions(s, codes, b, i))
  {
    if Point(b, i) !in s.body.errorOnlyCalls {
      var name := RC.CalleeName(s.body.fn.blocks[b][i]);
      var emptyset: Confidence := 0;
      if name == "" && Point(b, i) in s.body.valuedCalls {
        emptyset := 0;
      } else if name == "" || IsEmptyset(CallSpecification(s.specifications, name)) {
        emptyset := MAX_CONFIDENCE;
      }
      r := Tuple(0, 0, 0, emptyset);
      JoinOfOne(r);
    } else {
      r := VisitErrorOnlyCall(s, codes, s.body.returned[Point(b, i)]);
    }
  }

  lemma CallsStep(s: Scene, codes: set<string>, b: nat, i: nat, r: Tuple, t: Tuple)
    requires s.Valid() && IsInstruction(s.body.fn, b, i) && s.body.fn.blocks[b][i].Call?
    requires IsJoinOf(r, CallsUpTo(s, codes, b, i)) && IsJoinOf(t, CallContributions(s, codes, b, i))
    ensures IsJoinOf(Tuples.Join(t, r), CallsUpTo(s, codes, b, i + 1))
  {
    JoinOfUnion(r, CallsUpTo(s, codes, b, i), t, CallContributions(s, codes, b, i));
  }

  lemma CalledStep(fn: Function, b: nat, i: nat)
    requires IsInstruction(fn, b, i)
    ensures CalledIn(fn, b, i + 1) ==
            CalledIn(fn, b, i) + (if fn.blocks[b][i].Call? then {RC.CalleeName(fn.blocks[b][i])} else {})
  {
  }

  /** Joins the calls of a block, and collects the names called. */
  method VisitCalls(s: Scene, codes: set<string>, b: nat) returns (r: Tuple, called: set<string>)
    requires s.Valid() && b < |s.body.fn.blocks|
    ensures IsJoinOf(r, CallsUpTo(s, codes, b, |s.body.fn.blocks[b]|))
    ensures called == CalledIn(s.body.fn, b, |s.body.fn.blocks[b]|)
  {
    r := EMPTYSET;
    called := {};
    JoinOfOne(EMPTYSET);
    var i := 0;
    while i < |s.body.fn.blocks[b]|
      invariant i <= |s.body.fn.blocks[b]|
      invariant IsJoinOf(r, CallsUpTo(s, codes, b, i)) && called == CalledIn(s.body.fn, b, i)
    {
      var inst := s.body.fn.blocks[b][i];
      CalledStep(s.body.fn, b, i);
      if inst.Call? {
        var t := VisitCallInst(s, codes, b, i);
        CallsStep(s, codes, b, i, r, t);
        r := Tuples.Join(t, r);
        called := called + {RC.CalleeName(inst)};
      }
      i := i + 1;
    }
  }

  // ----- Constraints -----

  lemma OnlyHeld(fn: Function, held: set<Value>, v: Value)
    requires |held| == 1 && v in held
    ensures OriginOfHeld(fn, held) == HeldKind(fn, v)
  {
    var w :| w in held && OriginOfHeld(fn, held) == HeldKind(fn, w);
    if v != w {
      TwoElements(held, v, w);
    }
  }

  /** Where the returned value comes from: itself, if it is a call, or else the one value
      that it holds at the end of the block. */
  method VisitOrigin(s: Scene, codes: set<string>, v: Value, constant: Tuple, name: string, inter: Tuple)
    returns (r: Tuple, after: set<string>)
    ensures var origin := HeldKind(s.body.fn, v);
            && after == WithCodes(s, codes, origin)
            && r == match origin
                    case HeldInteger(k) => WithoutZero(DropsZero(s, after), ForInteger(k, inter))
                    case HeldNull => WithoutZero(DropsZero(s, after), ForInteger(0, inter))
                    case FromCall(callee) =>
                      var confidence := CallSpecification(s.specifications, callee);
                      if IsUnknown(confidence) then constant
                      else WithoutZero(DropsZero(s, after), ForCall(callee, confidence, name, inter))
                    case _ => WithoutZero(DropsZero(s, after), constant)
  {
    r, after := constant, codes;
    var k := IntegerOf(v);
    if k.Some? {
      r := ForInteger(k.value, inter);
    } else if v.Null? {
      r := Tuple(GetMax(inter), 0, 0, inter.emptyset);
    } else if RC.IsCallResult(s.body.fn, v) {
      var callee := RC.CalleeName(Definition(s.body.fn, v).value);
      var confidence := CallSpecification(s.specifications, callee);
      if IsUnknown(confidence) {
        return;
      }
      r := ForCall(callee, confidence, name, inter);
      if callee in codes {
        after := codes + {s.Name()};
      }
    }
    if DropsZero(s, after) {
      r := Tuples.Difference(r, FromSign(Zero, 0));
    }
  }

  /** The returned value, if it is a call, or else what it holds at the end of the block. */
  method VisitCarried(s: Scene, codes: set<string>, b: nat, v: Value, constant: Tuple, name: string, inter: Tuple)
    returns (several: bool, t: Tuple, after: set<string>)
    requires s.Valid() && b < |s.body.fn.blocks|
    ensures var origin := OriginOf(s.body, b, v);
            && after == WithCodes(s, codes, origin)
            && (several <==> origin.Ambiguous?)
            && t == match origin
                    case Ambiguous => constant
                    case Unheld => constant
                    case HeldInteger(k) => WithoutZero(DropsZero(s, after), ForInteger(k, inter))
                    case HeldNull => WithoutZero(DropsZero(s, after), ForInteger(0, inter))
                    case FromCall(callee) =>
                      var confidence := CallSpecification(s.specifications, callee);
                      if IsUnknown(confidence) then constant
                      else WithoutZero(DropsZero(s, after), ForCall(callee, confidence, name, inter))
                    case HeldOther => WithoutZero(DropsZero(s, after), constant)
  {
    several, t, after := false, constant, codes;
    var held := s.body.held[End(s.body.fn, b)];
    if RC.IsCallResult(s.body.fn, v) {
      t, after := VisitOrigin(s, codes, v, t, name, inter);
    } else if v in held {
      if |held[v]| > 1 {
        several := true;
      } else if held[v] != {} {
        var w :| w in held[v];
        assert |held[v]| != 0;
        OnlyHeld(s.body.fn, held[v], w);
        t, after := VisitOrigin(s, codes, w, t, name, inter);
      }
    }
  }

  lemma ContributionIsMeant(s: Scene, codes: set<string>, b: nat, v: Value, name: string, sign: Sign)
    requires s.Valid() && b < |s.body.fn.blocks|
    ensures var r := ConstraintContribution(s, codes, v, OriginOf(s.body, b, v), name, sign);
            && IsContribution(s, codes, b, v, name, sign, r)
            && (forall w, g | Informs(s, name, sign) && Carries(s.body, b, v, w) && IsKnownCall(s, w, g) ::
                  HandsOn(s, codes, w, g, name, sign, ValueOf(r)))
            && (forall w, k | Carries(s.body, b, v, w) && IsKnownCall(s, w, name) && At(ValueOf(r), k) > 0 :: In(k, sign))
  {
    var r := ConstraintContribution(s, codes, v, OriginOf(s.body, b, v), name, sign);
    ContributionMeans(s, codes, b, v, name, sign);
    forall w, g | Informs(s, name, sign) && Carries(s.body, b, v, w) && IsKnownCall(s, w, g)
      ensures HandsOn(s, codes, w, g, name, sign, ValueOf(r))
    {
      CarriedCallIsHandedOn(s, codes, b, v, w, g, name, sign, r);
    }
    forall w, k | Carries(s.body, b, v, w) && IsKnownCall(s, w, name) && At(ValueOf(r), k) > 0
      ensures In(k, sign)
    {
      OwnConstraintBoundsClaim(s, codes, b, v, w, name, sign, r, k);
    }
  }

  /** One constraint of a block: its contribution, if any, and the codes afterwards. A known
      call that is carried is handed on with its callee's confidence, cut down to the
      constraint if that is on the callee itself. */
  method VisitConstraint(s: Scene, codes: set<string>, b: nat, v: Value, name: string, sign: Sign)
    returns (r: Option<Tuple>, after: set<string>)
    requires s.Valid() && b < |s.body.fn.blocks|
    ensures IsContribution(s, codes, b, v, name, sign, r)
    ensures forall w, g | Informs(s, name, sign) && Carries(s.body, b, v, w) && IsKnownCall(s, w, g) ::
              HandsOn(s, codes, w, g, name, sign, ValueOf(r))
    ensures forall w, k | Carries(s.body, b, v, w) && IsKnownCall(s, w, name) && At(ValueOf(r), k) > 0 :: In(k, sign)
    ensures r == ConstraintContribution(s, codes, v, OriginOf(s.body, b, v), name, sign)
    ensures after == if IsInformative(Intersection(Specification(s.specifications, name), sign))
                     then WithCodes(s, codes, OriginOf(s.body, b, v)) else codes
  {
    after := codes;
    var inter := Intersection(Specification(s.specifications, name), sign);
    if IsUnknown(inter) || IsEmptyset(inter) {
      r := Some(inter);
    } else {
      var constant := UNKNOWN;
      if sign != Top {
        constant := ForConstant(v, inter);
      }
      var several, t;
      several, t, after := VisitCarried(s, codes, b, v, constant, name, inter);
      r := if several || IsUnknown(t) then None else Some(t);
    }
    ContributionIsMeant(s, codes, b, v, name, sign);
  }

  /** Visiting earlier constraints can only have added the function itself to the codes,
      on behalf of the same origin; so a contribution does not depend on them. */
  lemma CodesDoNotMatter(s: Scene, codes: set<string>, v: Value, origin: Origin, name: string, sign: Sign)
    ensures ConstraintContribution(s, WithCodes(s, codes, origin), v, origin, name, sign) ==
            ConstraintContribution(s, codes, v, origin, name, sign)
    ensures WithCodes(s, WithCodes(s, codes, origin), origin) == WithCodes(s, codes, origin)
  {
    if !BringsCodes(s, codes, origin) {
      assert WithCodes(s, codes, origin) == codes;
    } else {
      assert WithCodes(s, WithCodes(s, codes, origin), origin) == WithCodes(s, codes, origin);
    }
  }

  lemma CodesStep(s: Scene, codes: set<string>, origin: Origin, constraints: map<string, Sign>, done: set<string>, name: string)
    requires done <= constraints.Keys && name in constraints
    ensures var informative := name != "" &&
              IsInformative(Intersection(Specification(s.specifications, name), constraints[name]));
            CodesAfterConstraints(s, codes, origin, constraints, done + {name}) ==
            if informative then WithCodes(s, codes, origin) else CodesAfterConstraints(s, codes, origin, constraints, done)
  {
    assert name in done + {name};
    assert forall n | n in done :: n in done + {name};
  }

  /** The constraints in `done` have been joined, and their codes noted. */
  ghost predicate JoinedUpTo(s: Scene, codes: set<string>, v: Value, origin: Origin, constraints: map<string, Sign>,
                             base: set<Tuple>, done: set<string>, r: Tuple, after: set<string>)
    requires done <= constraints.Keys
  {
    && IsJoinOf(r, base + Collected(Contributor(s, codes, v, origin, constraints), done))
    && after == CodesAfterConstraints(s, codes, origin, constraints, done)
  }

  lemma JoinedStep(s: Scene, codes: set<string>, v: Value, origin: Origin, constraints: map<string, Sign>,
                   base: set<Tuple>, done: set<string>, r: Tuple, after: set<string>, name: string)
    requires done <= constraints.Keys && name in constraints
    requires JoinedUpTo(s, codes, v, origin, constraints, base, done, r, after)
    ensures name == "" ==> JoinedUpTo(s, codes, v, origin, constraints, base, done + {name}, r, after)
    ensures var t := ConstraintContribution(s, after, v, origin, name, constraints[name]);
            var informative := IsInformative(Intersection(Specification(s.specifications, name), constraints[name]));
            name != "" ==>
              JoinedUpTo(s, codes, v, origin, constraints, base, done + {name},
                         if t.Some? then Tuples.Join(t.value, r) else r,
                         if informative then WithCodes(s, after, origin) else after)
  {
    var f := Contributor(s, codes, v, origin, constraints);
    CollectOne(f, done, name, base, r);
    CodesStep(s, codes, origin, constraints, done, name);
    if name != "" {
      CodesDoNotMatter(s, codes, v, origin, name, constraints[name]);
    }
  }

  /** Joins the constraint on one name; one on a call without a name is skipped. */
  method VisitName(s: Scene, ghost codes: set<string>, b: nat, v: Value, ghost base: set<Tuple>, ghost done: set<string>,
                   start: Tuple, known: set<string>, name: string)
    returns (r: Tuple, after: set<string>)
    requires s.Valid() && b < |s.body.fn.blocks|
    requires var constraints := s.body.constraints[End(s.body.fn, b)];
             && done <= constraints.Keys && name in constraints
             && JoinedUpTo(s, codes, v, OriginOf(s.body, b, v), constraints, base, done, start, known)
    ensures var constraints := s.body.constraints[End(s.body.fn, b)];
            JoinedUpTo(s, codes, v, OriginOf(s.body, b, v), constraints, base, done + {name}, r, after)
  {
    var constraints := s.body.constraints[End(s.body.fn, b)];
    JoinedStep(s, codes, v, OriginOf(s.body, b, v), constraints, base, done, start, known, name);
    r, after := start, known;
    if name != "" {
      var t;
      t, after := VisitConstraint(s, known, b, v, name, constraints[name]);
      if t.Some? {
        r := Tuples.Join(t.value, start);
      }
    }
  }

  /** Joins the constraints of a block into the confidence so far. */
  method VisitConstraints(s: Scene, codes: set<string>, b: nat, v: Value, start: Tuple, ghost base: set<Tuple>)
    returns (r: Tuple, after: set<string>)
    requires s.Valid() && b < |s.body.fn.blocks| && IsJoinOf(start, base)
    ensures var constraints := s.body.constraints[End(s.body.fn, b)];
            JoinedUpTo(s, codes, v, OriginOf(s.body, b, v), constraints, base, constraints.Keys, r, after)
  {
    var constraints := s.body.constraints[End(s.body.fn, b)];
    ghost var origin := OriginOf(s.body, b, v);
    var todo := constraints.Keys;
    ghost var done := {};
    r, after := start, codes;
    assert base + Collected(Contributor(s, codes, v, origin, constraints), {}) == base;
    while todo != {}
      invariant done + todo == constraints.Keys
      invariant JoinedUpTo(s, codes, v, origin, constraints, base, done, r, after)
      decreases |todo|
    {
      var name :| name in todo;
      r, after := VisitName(s, codes, b, v, base, done, r, after, name);
      todo := todo - {name};
      done := done + {name};
    }
    assert done == constraints.Keys;
  }

  // ----- Blocks -----

  lemma OnlyReturnedIs(y: Body, b: nat, v: Value)
    requires y.Valid() && b < |y.fn.blocks| && v in y.returned[Point(b, 0)]
    ensures |y.returned[Point(b, 0)]| == 1 ==> OnlyReturned(y, b) == Some(v)
  {
    var w := OnlyReturned(y, b);
    if w.Some? && w.value != v {
      TwoElements(y.returned[Point(b, 0)], v, w.value);
    }
  }

  lemma CalledMeans(fn: Function, b: nat)
    requires b < |fn.blocks|
    ensures forall name :: name in CalledIn(fn, b, |fn.blocks[b]|) <==> exists i: nat :: RC.IsCallNamed(fn, Reg(b, i), name)
  {
    forall name
      ensures name in CalledIn(fn, b, |fn.blocks[b]|) <==> exists i: nat :: RC.IsCallNamed(fn, Reg(b, i), name)
    {
      if i: nat :| RC.IsCallNamed(fn, Reg(b, i), name) {
        assert RC.CalleeName(fn.blocks[b][i]) == name;
      }
      if name in CalledIn(fn, b, |fn.blocks[b]|) {
        var i :| 0 <= i < |fn.blocks[b]| && fn.blocks[b][i].Call? && RC.CalleeName(fn.blocks[b][i]) == name;
        assert RC.IsCallNamed(fn, Reg(b, i), name);
      }
    }
  }

  lemma BlockIsMeant(s: Scene, codes: set<string>, b: nat)
    requires s.Valid() && b < |s.body.fn.blocks|
    ensures forall k, c | 1 <= c <= 100 :: At(BlockTuple(s, codes, b), k) >= c <==> Claimed(s, codes, b, k, c)
    ensures forall c | 1 <= c <= 100 :: BlockTuple(s, codes, b).emptyset >= c <==> ClaimedNone(s, codes, b, c)
    ensures forall name :: name in CodesAfterBlock(s, codes, b) <==>
              name in codes || (name == s.Name() && exists v :: LearnsCodes(s, codes, b, v))
  {
    forall k, c | 1 <= c <= 100
      ensures At(BlockTuple(s, codes, b), k) >= c <==> Claimed(s, codes, b, k, c)
    {
      BlockMeans(s, codes, b, k, c);
    }
    forall c | 1 <= c <= 100
      ensures BlockTuple(s, codes, b).emptyset >= c <==> ClaimedNone(s, codes, b, c)
    {
      BlockMeans(s, codes, b, 0, c);
    }
    forall name
      ensures name in CodesAfterBlock(s, codes, b) <==>
                name in codes || (name == s.Name() && exists v :: LearnsCodes(s, codes, b, v))
    {
      CodesAfterMeans(s, codes, b, name);
    }
  }

  /** Joins what the value that must be returned says, if there is one. */
  method VisitReturned(s: Scene, codes: set<string>, b: nat, start: Tuple) returns (r: Tuple, after: set<string>)
    requires s.Valid() && b < |s.body.fn.blocks| && IsJoinOf(start, CallsUpTo(s, codes, b, |s.body.fn.blocks[b]|))
    ensures r == BlockTuple(s, codes, b) && after == CodesAfterBlock(s, codes, b)
  {
    r, after := start, codes;
    ghost var base := CallsUpTo(s, codes, b, |s.body.fn.blocks[b]|);
    CallsAreNeverNone(s, codes, b, |s.body.fn.blocks[b]|);
    var values := s.body.returned[Point(b, 0)];
    if |values| != 1 {
      JoinIsUnique(r, BlockTuple(s, codes, b), base);
      return;
    }
    var v :| v in values;
    OnlyReturnedIs(s.body, b, v);
    var k := IntegerOf(v);
    if k.Some? {
      if IsErrorCode(s, k.value) {
        after := codes + {s.Name()};
        JoinWithOne(r, base, ErrorValue(s, k.value));
        base := base + {ErrorValue(s, k.value)};
        r := Tuples.Join(ErrorValue(s, k.value), r);
      } else if IsSuccessCode(s, codes, k.value) {
        after := codes + {s.Name()};
        JoinIsUnique(r, BlockTuple(s, codes, b), base);
        return;
      }
    }
    ghost var constraints := s.body.constraints[End(s.body.fn, b)];
    ghost var contributions := ConstraintContributions(s, after, v, OriginOf(s.body, b, v), constraints);
    assert base == CallsUpTo(s, codes, b, |s.body.fn.blocks[b]|) + CodeContributions(s, codes, v);
    r, after := VisitConstraints(s, after, b, v, r, base);
    JoinIsUnique(r, BlockTuple(s, codes, b), base + contributions);
  }

  /** The confidence of a block, the codes after it, and the names it calls. The block claims
      a sign as strongly as some cause in it does, and "no errors" as strongly as
      everything in it allows. */
  method VisitBlock(s: Scene, codes: set<string>, b: nat) returns (r: Tuple, after: set<string>, called: set<string>)
    requires s.Valid() && b < |s.body.fn.blocks|
    ensures r == BlockTuple(s, codes, b) && after == CodesAfterBlock(s, codes, b)
    ensures forall k, c | 1 <= c <= 100 :: At(r, k) >= c <==> Claimed(s, codes, b, k, c)
    ensures forall c | 1 <= c <= 100 :: r.emptyset >= c <==> ClaimedNone(s, codes, b, c)
    ensures forall name :: name in after <==>
              name in codes || (name == s.Name() && exists v :: LearnsCodes(s, codes, b, v))
    ensures forall name :: name in called <==> exists i: nat :: RC.IsCallNamed(s.body.fn, Reg(b, i), name)
    ensures called == CalledIn(s.body.fn, b, |s.body.fn.blocks[b]|)
  {
    r, called := VisitCalls(s, codes, b);
    r, after := VisitReturned(s, codes, b, r);
    BlockIsMeant(s, codes, b);
    CalledMeans(s.body.fn, b);
  }
}
