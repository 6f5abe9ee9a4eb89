/** Why a block claims what it claims: every confidence in a sign has a cause in the block
    (an error-only call, an error code, or a constraint), and "no errors" is claimed as
    long as nothing in the block speaks against it. */
module BlockCauses {
  import opened SignLattice
  import opened Tuples = ConfidenceLattice
  import opened TupleJoins
  import opened Cardinality
  import opened IR
  import opened BranchTests
  import opened BlockConfidence
  import opened BlockMeaning
  import RC = ReturnConstraints

  // ----- A contribution is determined -----

  lemma ItselfIsUnique(s: Scene, v: Value, name: string, sign: Sign, k: int, c: Confidence, d: Confidence)
    requires SaysItself(s, v, name, sign, k, c) && SaysItself(s, v, name, sign, k, d)
    ensures c == d
  {
    assert IsStrongestLeft(s, name, sign, c) || c == 0;
    assert IsStrongestLeft(s, name, sign, d) || d == 0;
  }

  lemma SaysIsUnique(s: Scene, codes: set<string>, v: Value, w: Value, name: string, sign: Sign, k: int,
                     c: Confidence, d: Confidence)
    requires Says(s, codes, v, w, name, sign, k, c) && Says(s, codes, v, w, name, sign, k, d)
    ensures c == d
  {
    if RC.IsCallResult(s.body.fn, w) {
      if g :| IsKnownCall(s, w, g) {
      } else {
        ItselfIsUnique(s, v, name, sign, k, c, d);
      }
    } else if !(k == 0 && Zeroless(s, codes, w)) && !HoldsSign(w, k) && !IsHeldConstant(w) {
      ItselfIsUnique(s, v, name, sign, k, c, d);
    } else if !(k == 0 && Zeroless(s, codes, w)) && HoldsSign(w, k) {
      assert IsStrongestLeft(s, name, sign, c) && IsStrongestLeft(s, name, sign, d);
    }
  }

  lemma SaysNoneIsUnique(s: Scene, v: Value, w: Value, name: string, sign: Sign, c: int, d: int)
    requires SaysNone(s, v, w, name, sign, c) && SaysNone(s, v, w, name, sign, d)
    ensures c == d
  {
    if RC.IsCallResult(s.body.fn, w) {
      if g :| IsKnownCall(s, w, g) {
      }
    }
  }

  lemma SaysOfIsUnique(s: Scene, codes: set<string>, v: Value, w: Value, name: string, sign: Sign, x: Tuple, y: Tuple)
    requires SaysOf(s, codes, v, w, name, sign, x) && SaysOf(s, codes, v, w, name, sign, y)
    ensures x == y
  {
    SaysNoneIsUnique(s, v, w, name, sign, x.emptyset, y.emptyset);
    forall k
      ensures At(x, k) == At(y, k)
    {
      SaysIsUnique(s, codes, v, w, name, sign, k, At(x, k), At(y, k));
    }
    SameEverywhere(x, y);
  }

  lemma SaysOfItselfIsUnique(s: Scene, v: Value, name: string, sign: Sign, x: Tuple, y: Tuple)
    requires SaysOfItself(s, v, name, sign, x) && SaysOfItself(s, v, name, sign, y)
    ensures x == y
  {
    forall k
      ensures At(x, k) == At(y, k)
    {
      ItselfIsUnique(s, v, name, sign, k, At(x, k), At(y, k));
    }
    SameEverywhere(x, y);
  }

  lemma CarriesSomething(y: Body, b: nat, v: Value)
    requires y.Valid() && b < |y.fn.blocks| && !CarriesSeveral(y, b, v) && !CarriesNothing(y, b, v)
    ensures exists w :: Carries(y, b, v, w)
  {
    if RC.IsCallResult(y.fn, v) {
      assert Carries(y, b, v, v);
    } else {
      var held := y.held[End(y.fn, b)];
      var w :| w in held[v];
      assert held[v] == {w};
      assert Carries(y, b, v, w);
    }
  }

  lemma ValueDetermines(x: Option<Tuple>, y: Option<Tuple>)
    requires ValueOf(x) == ValueOf(y)
    requires x.Some? ==> x.value.emptyset > 0 || exists k :: At(x.value, k) > 0
    requires y.Some? ==> y.value.emptyset > 0 || exists k :: At(y.value, k) > 0
    ensures x == y
  {
  }

  /** There is one contribution of a constraint. */
  lemma ContributionIsUnique(s: Scene, codes: set<string>, b: nat, v: Value, name: string, sign: Sign,
                             x: Option<Tuple>, y: Option<Tuple>)
    requires s.Valid() && b < |s.body.fn.blocks|
    requires IsContribution(s, codes, b, v, name, sign, x) && IsContribution(s, codes, b, v, name, sign, y)
    ensures x == y
  {
    if !Informs(s, name, sign) {
      SameEverywhere(x.value, y.value);
    } else if !CarriesSeveral(s.body, b, v) {
      if CarriesNothing(s.body, b, v) {
        SaysOfItselfIsUnique(s, v, name, sign, ValueOf(x), ValueOf(y));
      } else {
        CarriesSomething(s.body, b, v);
        var w :| Carries(s.body, b, v, w);
        SaysOfIsUnique(s, codes, v, w, name, sign, ValueOf(x), ValueOf(y));
      }
      ValueDetermines(x, y);
    }
  }

  // ----- Joins, sign by sign -----

  lemma JoinAt(r: Tuple, ts: set<Tuple>, k: int, c: int)
    requires IsJoinOf(r, ts)
    ensures At(r, k) >= c <==> Reaches(ts, k, c)
    ensures r.emptyset >= c <==> AllowNone(ts, c)
  {
    assert forall t | t in ts :: Bounds(r, t);
    if k == 0 {
      var t :| t in ts && t.zero == r.zero;
      assert At(t, k) == At(r, k);
    } else if k < 0 {
      var t :| t in ts && t.negative == r.negative;
      assert At(t, k) == At(r, k);
    } else {
      var t :| t in ts && t.positive == r.positive;
      assert At(t, k) == At(r, k);
    }
  }

  ghost predicate Reaches(ts: set<Tuple>, k: int, c: int) {
    exists t :: t in ts && At(t, k) >= c
  }

  ghost predicate AllowNone(ts: set<Tuple>, c: int) {
    forall t :: t in ts ==> t.emptyset >= c
  }

  lemma UnionReaches(x: set<Tuple>, y: set<Tuple>, k: int, c: int)
    ensures Reaches(x + y, k, c) <==> Reaches(x, k, c) || Reaches(y, k, c)
    ensures AllowNone(x + y, c) <==> AllowNone(x, c) && AllowNone(y, c)
  {
    if t :| t in x && At(t, k) >= c {
      assert t in x + y;
    }
    if t :| t in y && At(t, k) >= c {
      assert t in x + y;
    }
  }

  lemma OneReaches(t: Tuple, k: int, c: int)
    ensures Reaches({t}, k, c) <==> At(t, k) >= c
    ensures AllowNone({t}, c) <==> t.emptyset >= c
  {
    assert t in {t};
  }

  lemma CollectedReaches<K(!new)>(f: K -> Option<Tuple>, keys: set<K>, k: int, c: int)
    ensures Reaches(Collected(f, keys), k, c) <==> exists key :: key in keys && f(key).Some? && At(f(key).value, k) >= c
    ensures AllowNone(Collected(f, keys), c) <==> forall key :: key in keys && f(key).Some? ==> f(key).value.emptyset >= c
  {
    if key :| key in keys && f(key).Some? && At(f(key).value, k) >= c {
      assert f(key).value in Collected(f, keys);
    }
    forall key | key in keys && f(key).Some?
      ensures f(key).value in Collected(f, keys)
    {
    }
  }

  // ----- Calls -----

  predicate IsCallAt(y: Body, b: nat, i: nat) {
    IsInstruction(y.fn, b, i) && y.fn.blocks[b][i].Call?
  }

  /** A value returned after an error-only call makes its sign an error: a boolean always,
      an integer that is no success code and null unless the function itself is error-only. */
  ghost predicate IsErrorReturn(s: Scene, codes: set<string>, w: Value, k: int) {
    || (w.ConstBool? && HasSign(w, k))
    || (w.ConstInt? && HasSign(w, k) && !IsSuccess(s, codes, w.k) && s.Name() !in s.knowledge.errorOnly)
    || (w.Null? && HasSign(w, k) && s.Name() !in s.knowledge.errorOnly)
  }

  ghost predicate ErrorOnlyCause(s: Scene, codes: set<string>, b: nat, i: nat, w: Value, k: int)
    requires s.Valid()
  {
    && IsCallAt(s.body, b, i) && Point(b, i) in s.body.errorOnlyCalls
    && w in s.body.returned[Point(b, i)] && IsErrorReturn(s, codes, w, k)
  }

  /** The call says "no errors": after an error-only call nothing is returned that is an
      error; the callee of another is known to have none, or has no name and no result. */
  ghost predicate CallHasNone(s: Scene, codes: set<string>, b: nat, i: nat)
    requires s.Valid() && IsCallAt(s.body, b, i)
  {
    if Point(b, i) in s.body.errorOnlyCalls then
      forall w, k :: !ErrorOnlyCause(s, codes, b, i, w, k)
    else
      forall name :: RC.IsCallNamed(s.body.fn, Reg(b, i), name) ==>
                       if name == "" then Point(b, i) !in s.body.valuedCalls else StoredNone(s, name) == 100
  }

  lemma ErrorReturnMeans(s: Scene, codes: set<string>, w: Value, k: int, c: Confidence)
    requires c >= 1
    ensures var r := ErrorOnlyReturn(s, codes, w);
            && (r.Some? && At(r.value, k) >= c <==> IsErrorReturn(s, codes, w, k))
            && (r.Some? && IsErrorReturn(s, codes, w, k) ==> r.value.emptyset == 0)
            && (r.Some? && r.value.emptyset < c ==> exists j :: IsErrorReturn(s, codes, w, j))
  {
    var r := ErrorOnlyReturn(s, codes, w);
    ScaledAt(NotZero, 0, 0, k);
    ScaledAt(Zero, 0, 0, k);
    match w
    case ConstBool(p) =>
      assert IsErrorReturn(s, codes, w, if p then 1 else 0);
    case ConstInt(x) =>
      CodesMean(s, codes, x);
      AbstractIntegerMeans(k, x);
      ScaledAt(AbstractInteger(x), 0, 0, k);
      assert HasSign(w, x) && (r.Some? && s.Name() !in s.knowledge.errorOnly ==> IsErrorReturn(s, codes, w, x));
    case Null =>
      AbstractIntegerMeans(k, 0);
      ScaledAt(AbstractInteger(0), 0, 0, k);
      assert s.Name() !in s.knowledge.errorOnly ==> IsErrorReturn(s, codes, w, 0);
    case _ =>
  }

  lemma CallMeans(s: Scene, codes: set<string>, b: nat, i: nat, k: int, c: Confidence)
    requires s.Valid() && IsCallAt(s.body, b, i) && c >= 1
    ensures Reaches(CallContributions(s, codes, b, i), k, c) <==> exists w :: ErrorOnlyCause(s, codes, b, i, w, k)
    ensures AllowNone(CallContributions(s, codes, b, i), c) <==> CallHasNone(s, codes, b, i)
  {
    if Point(b, i) in s.body.errorOnlyCalls {
      var values := s.body.returned[Point(b, i)];
      OneReaches(EMPTYSET, k, c);
      CollectedReaches(Returner(s, codes), values, k, c);
      UnionReaches({EMPTYSET}, Collected(Returner(s, codes), values), k, c);
      ErrorOnlyReaches(s, codes, b, i, k, c);
      ErrorOnlyHasNone(s, codes, b, i, c);
    } else {
      OneReaches(OrdinaryCall(s, b, i), k, c);
      OrdinaryCallMeans(s, codes, b, i);
    }
  }

  lemma ErrorOnlyReaches(s: Scene, codes: set<string>, b: nat, i: nat, k: int, c: Confidence)
    requires s.Valid() && IsCallAt(s.body, b, i) && c >= 1 && Point(b, i) in s.body.errorOnlyCalls
    ensures var f := Returner(s, codes);
            (exists w :: w in s.body.returned[Point(b, i)] && f(w).Some? && At(f(w).value, k) >= c) <==>
              exists w :: ErrorOnlyCause(s, codes, b, i, w, k)
  {
    var f := Returner(s, codes);
    forall w
      ensures f(w).Some? && At(f(w).value, k) >= c <==> IsErrorReturn(s, codes, w, k)
    {
      ErrorReturnMeans(s, codes, w, k, c);
    }
    if w :| ErrorOnlyCause(s, codes, b, i, w, k) {
      assert f(w).Some? && At(f(w).value, k) >= c;
    }
    if w :| w in s.body.returned[Point(b, i)] && f(w).Some? && At(f(w).value, k) >= c {
      assert ErrorOnlyCause(s, codes, b, i, w, k);
    }
  }

  lemma ErrorOnlyHasNone(s: Scene, codes: set<string>, b: nat, i: nat, c: Confidence)
    requires s.Valid() && IsCallAt(s.body, b, i) && c >= 1 && Point(b, i) in s.body.errorOnlyCalls
    ensures var f := Returner(s, codes);
            (forall w :: w in s.body.returned[Point(b, i)] && f(w).Some? ==> f(w).value.emptyset >= c) <==>
              CallHasNone(s, codes, b, i)
  {
    var f := Returner(s, codes);
    assert forall w :: f(w) == ErrorOnlyReturn(s, codes, w);
    forall w, j | ErrorOnlyCause(s, codes, b, i, w, j)
      ensures ErrorOnlyReturn(s, codes, w).Some? && ErrorOnlyReturn(s, codes, w).value.emptyset == 0
    {
      ErrorReturnMeans(s, codes, w, j, c);
    }
    forall w | w in s.body.returned[Point(b, i)] && ErrorOnlyReturn(s, codes, w).Some? &&
               ErrorOnlyReturn(s, codes, w).value.emptyset < c
      ensures exists j :: ErrorOnlyCause(s, codes, b, i, w, j)
    {
      ErrorReturnMeans(s, codes, w, 0, c);
      var j :| IsErrorReturn(s, codes, w, j);
      assert ErrorOnlyCause(s, codes, b, i, w, j);
    }
  }

  lemma OrdinaryCallMeans(s: Scene, codes: set<string>, b: nat, i: nat)
    requires s.Valid() && IsCallAt(s.body, b, i) && Point(b, i) !in s.body.errorOnlyCalls
    ensures forall k :: At(OrdinaryCall(s, b, i), k) == 0
    ensures OrdinaryCall(s, b, i).emptyset == if CallHasNone(s, codes, b, i) then 100 else 0
  {
    var name := RC.CalleeName(s.body.fn.blocks[b][i]);
    assert Definition(s.body.fn, Reg(b, i)) == Some(s.body.fn.blocks[b][i]);
    assert RC.IsCallNamed(s.body.fn, Reg(b, i), name);
    assert forall other :: RC.IsCallNamed(s.body.fn, Reg(b, i), other) ==> other == name;
    TestsAt(CallSpecification(s.specifications, name));
  }

  /** Some call among the first `n` instructions is a cause, or speaks against "no errors". */
  ghost predicate SomeCallCauses(s: Scene, codes: set<string>, b: nat, n: nat, k: int)
    requires s.Valid()
  {
    exists i: nat, w :: i < n && ErrorOnlyCause(s, codes, b, i, w, k)
  }

  ghost predicate AllCallsHaveNone(s: Scene, codes: set<string>, b: nat, n: nat)
    requires s.Valid()
  {
    forall i: nat :: i < n && IsCallAt(s.body, b, i) ==> CallHasNone(s, codes, b, i)
  }

  lemma {:induction false} CallsMean(s: Scene, codes: set<string>, b: nat, n: nat, k: int, c: Confidence)
    requires s.Valid() && b < |s.body.fn.blocks| && n <= |s.body.fn.blocks[b]| && c >= 1
    ensures Reaches(CallsUpTo(s, codes, b, n), k, c) <==> SomeCallCauses(s, codes, b, n, k)
    ensures AllowNone(CallsUpTo(s, codes, b, n), c) <==> AllCallsHaveNone(s, codes, b, n)
  {
    if n == 0 {
      OneReaches(EMPTYSET, k, c);
    } else {
      CallsMean(s, codes, b, n - 1, k, c);
      if IsCallAt(s.body, b, n - 1) {
        CallMeans(s, codes, b, n - 1, k, c);
        UnionReaches(CallsUpTo(s, codes, b, n - 1), CallContributions(s, codes, b, n - 1), k, c);
      } else {
        assert CallsUpTo(s, codes, b, n) == CallsUpTo(s, codes, b, n - 1);
      }
    }
  }

  // ----- Codes -----

  /** The one value that is returned once the block executes. */
  ghost predicate MustReturn(y: Body, b: nat, v: Value)
    requires y.Valid() && b < |y.fn.blocks|
  {
    y.returned[Point(b, 0)] == {v}
  }

  predicate IsInteger(v: Value, x: int) {
    (v.ConstInt? && x == v.k) || (v.ConstBool? && x == if v.p then -1 else 0)
  }

  ghost predicate ReturnsErrorCode(s: Scene, v: Value) {
    exists x :: IsInteger(v, x) && IsListed(s.knowledge.errorCodes, x, s.body.file)
  }

  ghost predicate ReturnsSuccessCode(s: Scene, codes: set<string>, v: Value) {
    !ReturnsErrorCode(s, v) && exists x :: IsInteger(v, x) && IsSuccess(s, codes, x)
  }

  lemma KindMeans(s: Scene, codes: set<string>, v: Value)
    ensures KindOf(s, codes, v).ErrorCode? <==> ReturnsErrorCode(s, v)
    ensures KindOf(s, codes, v).SuccessCode? <==> ReturnsSuccessCode(s, codes, v)
  {
    assert forall x :: IsInteger(v, x) <==> IntegerOf(v) == Some(x);
    if IntegerOf(v).Some? {
      CodesMean(s, codes, IntegerOf(v).value);
    }
  }

  lemma OnlyReturnedMeans(y: Body, b: nat, v: Value)
    requires y.Valid() && b < |y.fn.blocks|
    ensures OnlyReturned(y, b) == Some(v) <==> MustReturn(y, b, v)
  {
    var values := y.returned[Point(b, 0)];
    if OnlyReturned(y, b) == Some(v) {
      forall w | w in values
        ensures w == v
      {
        if w != v {
          TwoElements(values, v, w);
        }
      }
      assert values == {v};
    }
  }

  /** The codes known once the returned value has been looked at. */
  ghost function CodesWith(s: Scene, codes: set<string>, v: Value): set<string> {
    if ReturnsErrorCode(s, v) then codes + {s.Name()} else codes
  }

  ghost predicate CodeCause(s: Scene, v: Value, k: int) {
    s.Name() !in s.knowledge.errorOnly &&
    exists x :: IsInteger(v, x) && SameSign(k, x) && IsListed(s.knowledge.errorCodes, x, s.body.file)
  }

  lemma CodeMeans(s: Scene, codes: set<string>, v: Value, k: int, c: Confidence)
    requires c >= 1
    ensures Reaches(CodeContributions(s, codes, v), k, c) <==> CodeCause(s, v, k)
    ensures AllowNone(CodeContributions(s, codes, v), c) <==> forall j :: !CodeCause(s, v, j)
  {
    KindMeans(s, codes, v);
    if ReturnsErrorCode(s, v) {
      var x :| IsInteger(v, x) && IsListed(s.knowledge.errorCodes, x, s.body.file);
      assert IntegerOf(v) == Some(x);
      OneReaches(ErrorValue(s, x), k, c);
      AbstractIntegerMeans(k, x);
      ScaledAt(AbstractInteger(x), 0, 0, k);
      assert SameSign(x, x);
      assert s.Name() !in s.knowledge.errorOnly ==> CodeCause(s, v, x);
    }
  }

  // ----- Constraints -----

  ghost predicate ConstraintApplies(s: Scene, codes: set<string>, b: nat, v: Value, name: string, r: Option<Tuple>)
    requires s.Valid() && b < |s.body.fn.blocks|
  {
    var constraints := s.body.constraints[End(s.body.fn, b)];
    name != "" && name in constraints && r.Some? &&
    IsContribution(s, CodesWith(s, codes, v), b, v, name, constraints[name], r)
  }

  ghost predicate ConstraintCause(s: Scene, codes: set<string>, b: nat, v: Value, name: string, k: int, c: int)
    requires s.Valid() && b < |s.body.fn.blocks|
  {
    exists r :: ConstraintApplies(s, codes, b, v, name, r) && At(r.value, k) >= c
  }

  lemma ContributorMeans(s: Scene, codes: set<string>, b: nat, v: Value, name: string, r: Option<Tuple>)
    requires s.Valid() && b < |s.body.fn.blocks|
    ensures var constraints := s.body.constraints[End(s.body.fn, b)];
            ConstraintApplies(s, codes, b, v, name, r) <==>
              r.Some? && Contributor(s, CodesWith(s, codes, v), v, OriginOf(s.body, b, v), constraints)(name) == r
  {
    var constraints := s.body.constraints[End(s.body.fn, b)];
    if name != "" && name in constraints {
      var actual := ConstraintContribution(s, CodesWith(s, codes, v), v, OriginOf(s.body, b, v), name, constraints[name]);
      ContributionMeans(s, CodesWith(s, codes, v), b, v, name, constraints[name]);
      if ConstraintApplies(s, codes, b, v, name, r) {
        ContributionIsUnique(s, CodesWith(s, codes, v), b, v, name, constraints[name], r, actual);
      }
    }
  }

  lemma ConstraintsMean(s: Scene, codes: set<string>, b: nat, v: Value, k: int, c: int)
    requires s.Valid() && b < |s.body.fn.blocks|
    ensures var ts := ConstraintContributions(s, CodesWith(s, codes, v), v, OriginOf(s.body, b, v),
                                              s.body.constraints[End(s.body.fn, b)]);
            && (Reaches(ts, k, c) <==> exists name :: ConstraintCause(s, codes, b, v, name, k, c))
            && (AllowNone(ts, c) <==> forall name, r :: ConstraintApplies(s, codes, b, v, name, r) ==> r.value.emptyset >= c)
  {
    var constraints := s.body.constraints[End(s.body.fn, b)];
    var f := Contributor(s, CodesWith(s, codes, v), v, OriginOf(s.body, b, v), constraints);
    CollectedReaches(f, constraints.Keys, k, c);
    forall name, r
      ensures ConstraintApplies(s, codes, b, v, name, r) <==> r.Some? && f(name) == r
    {
      ContributorMeans(s, codes, b, v, name, r);
    }
    if name :| name in constraints.Keys && f(name).Some? && At(f(name).value, k) >= c {
      assert ConstraintApplies(s, codes, b, v, name, f(name));
      assert ConstraintCause(s, codes, b, v, name, k, c);
    }
    if name :| ConstraintCause(s, codes, b, v, name, k, c) {
      var r :| ConstraintApplies(s, codes, b, v, name, r) && At(r.value, k) >= c;
      assert name in constraints.Keys && f(name) == r;
    }
    forall name | name in constraints.Keys && f(name).Some?
      ensures ConstraintApplies(s, codes, b, v, name, f(name))
    {
    }
  }

  // ----- Blocks -----

  /** The value that must be returned is a cause: it is an error code, or under some
      constraint it has that confidence. */
  ghost predicate ValueCauses(s: Scene, codes: set<string>, b: nat, v: Value, k: int, c: int)
    requires s.Valid() && b < |s.body.fn.blocks|
  {
    && MustReturn(s.body, b, v) && !ReturnsSuccessCode(s, codes, v)
    && (CodeCause(s, v, k) || exists name :: ConstraintCause(s, codes, b, v, name, k, c))
  }

  /** It says "no errors" too, as far as it says anything. */
  ghost predicate ValueHasNone(s: Scene, codes: set<string>, b: nat, v: Value, c: int)
    requires s.Valid() && b < |s.body.fn.blocks|
  {
    MustReturn(s.body, b, v) && !ReturnsSuccessCode(s, codes, v) ==>
      && (forall k :: !CodeCause(s, v, k))
      && forall name, r :: ConstraintApplies(s, codes, b, v, name, r) ==> r.value.emptyset >= c
  }

  /** The block claims the sign of `k` with a confidence of `c` or more. */
  ghost predicate Claimed(s: Scene, codes: set<string>, b: nat, k: int, c: int)
    requires s.Valid() && b < |s.body.fn.blocks|
  {
    SomeCallCauses(s, codes, b, |s.body.fn.blocks[b]|, k) || exists v :: ValueCauses(s, codes, b, v, k, c)
  }

  ghost predicate ClaimedNone(s: Scene, codes: set<string>, b: nat, c: int)
    requires s.Valid() && b < |s.body.fn.blocks|
  {
    AllCallsHaveNone(s, codes, b, |s.body.fn.blocks[b]|) && forall v :: ValueHasNone(s, codes, b, v, c)
  }

  lemma ValueMeans(s: Scene, codes: set<string>, b: nat, v: Value, k: int, c: Confidence)
    requires s.Valid() && b < |s.body.fn.blocks| && c >= 1
    requires MustReturn(s.body, b, v) && !ReturnsSuccessCode(s, codes, v)
    ensures var ts := CodeContributions(s, codes, v) +
                      ConstraintContributions(s, CodesAfterKind(s, codes, v), v, OriginOf(s.body, b, v),
                                              s.body.constraints[End(s.body.fn, b)]);
            && (Reaches(ts, k, c) <==> ValueCauses(s, codes, b, v, k, c))
            && (AllowNone(ts, c) <==> ValueHasNone(s, codes, b, v, c))
  {
    KindMeans(s, codes, v);
    assert CodesAfterKind(s, codes, v) == CodesWith(s, codes, v);
    CodeMeans(s, codes, v, k, c);
    ConstraintsMean(s, codes, b, v, k, c);
    UnionReaches(CodeContributions(s, codes, v),
                 ConstraintContributions(s, CodesWith(s, codes, v), v, OriginOf(s.body, b, v),
                                         s.body.constraints[End(s.body.fn, b)]), k, c);
  }

  /** What the value that must be returned adds to the calls of a block. */
  ghost function Added(s: Scene, codes: set<string>, b: nat): set<Tuple>
    requires s.Valid() && b < |s.body.fn.blocks|
  {
    var only := OnlyReturned(s.body, b);
    if only.None? || KindOf(s, codes, only.value).SuccessCode? then {}
    else
      var v := only.value;
      CodeContributions(s, codes, v) +
      ConstraintContributions(s, CodesAfterKind(s, codes, v), v, OriginOf(s.body, b, v), s.body.constraints[End(s.body.fn, b)])
  }

  lemma ContributionsAre(s: Scene, codes: set<string>, b: nat)
    requires s.Valid() && b < |s.body.fn.blocks|
    ensures BlockContributions(s, codes, b) == CallsUpTo(s, codes, b, |s.body.fn.blocks[b]|) + Added(s, codes, b)
  {
  }

  lemma AddedMeans(s: Scene, codes: set<string>, b: nat, k: int, c: Confidence)
    requires s.Valid() && b < |s.body.fn.blocks| && c >= 1
    ensures Reaches(Added(s, codes, b), k, c) <==> exists v :: ValueCauses(s, codes, b, v, k, c)
    ensures AllowNone(Added(s, codes, b), c) <==> forall v :: ValueHasNone(s, codes, b, v, c)
  {
    forall v
      ensures OnlyReturned(s.body, b) == Some(v) <==> MustReturn(s.body, b, v)
    {
      OnlyReturnedMeans(s.body, b, v);
    }
    var only := OnlyReturned(s.body, b);
    if only.Some? {
      var v := only.value;
      KindMeans(s, codes, v);
      if !ReturnsSuccessCode(s, codes, v) {
        ValueMeans(s, codes, b, v, k, c);
        assert ValueCauses(s, codes, b, v, k, c) <==> exists u :: ValueCauses(s, codes, b, u, k, c);
        assert ValueHasNone(s, codes, b, v, c) <==> forall u :: ValueHasNone(s, codes, b, u, c);
      }
    }
  }

  /** A block claims a sign exactly as strongly as some cause does, and "no errors" exactly
      as strongly as everything in it allows. */
  lemma BlockMeans(s: Scene, codes: set<string>, b: nat, k: int, c: Confidence)
    requires s.Valid() && b < |s.body.fn.blocks| && c >= 1
    ensures At(BlockTuple(s, codes, b), k) >= c <==> Claimed(s, codes, b, k, c)
    ensures BlockTuple(s, codes, b).emptyset >= c <==> ClaimedNone(s, codes, b, c)
  {
    var n := |s.body.fn.blocks[b]|;
    CallsAreNeverNone(s, codes, b, n);
    JoinAt(BlockTuple(s, codes, b), BlockContributions(s, codes, b), k, c);
    ContributionsAre(s, codes, b);
    UnionReaches(CallsUpTo(s, codes, b, n), Added(s, codes, b), k, c);
    CallsMean(s, codes, b, n, k, c);
    AddedMeans(s, codes, b, k, c);
  }

  // ----- Codes after a block -----

  /** The function is known to return codes once the block has been visited: it must return
      a code, or under an informative constraint the result of a known call that does. */
  ghost predicate LearnsCodes(s: Scene, codes: set<string>, b: nat, v: Value)
    requires s.Valid() && b < |s.body.fn.blocks|
  {
    MustReturn(s.body, b, v) &&
    (|| ReturnsErrorCode(s, v) || ReturnsSuccessCode(s, codes, v)
     || (HasInformedConstraint(s, b) && exists w, g :: Carries(s.body, b, v, w) && IsKnownCall(s, w, g) && g in codes))
  }

  ghost predicate HasInformedConstraint(s: Scene, b: nat)
    requires s.Valid() && b < |s.body.fn.blocks|
  {
    var constraints := s.body.constraints[End(s.body.fn, b)];
    exists name :: name != "" && name in constraints && Informs(s, name, constraints[name])
  }

  lemma BringsCodesMeans(s: Scene, codes: set<string>, b: nat, v: Value)
    requires s.Valid() && b < |s.body.fn.blocks|
    ensures BringsCodes(s, codes, OriginOf(s.body, b, v)) <==>
              exists w, g :: Carries(s.body, b, v, w) && IsKnownCall(s, w, g) && g in codes
  {
    OriginOfOthers(s.body, b, v);
    if !CarriesSeveral(s.body, b, v) && !CarriesNothing(s.body, b, v) {
      CarriesSomething(s.body, b, v);
      var w :| Carries(s.body, b, v, w);
      OriginOfCarried(s.body, b, v, w);
      if RC.IsCallResult(s.body.fn, w) {
        KnownCallIs(s, codes, w);
      }
    }
  }

  lemma CodesAfterMeans(s: Scene, codes: set<string>, b: nat, name: string)
    requires s.Valid() && b < |s.body.fn.blocks|
    ensures name in CodesAfterBlock(s, codes, b) <==>
              name in codes || (name == s.Name() && exists v :: LearnsCodes(s, codes, b, v))
  {
    forall v
      ensures OnlyReturned(s.body, b) == Some(v) <==> MustReturn(s.body, b, v)
    {
      OnlyReturnedMeans(s.body, b, v);
    }
    var only := OnlyReturned(s.body, b);
    if only.Some? {
      var v := only.value;
      KindMeans(s, codes, v);
      BringsCodesMeans(s, codes, b, v);
      var constraints := s.body.constraints[End(s.body.fn, b)];
      InformedMeans(s, b);
      assert LearnsCodes(s, codes, b, v) <==> exists u :: LearnsCodes(s, codes, b, u);
    }
  }

  lemma InformedMeans(s: Scene, b: nat)
    requires s.Valid() && b < |s.body.fn.blocks|
    ensures var constraints := s.body.constraints[End(s.body.fn, b)];
            HasInformative(s, constraints, constraints.Keys) <==> HasInformedConstraint(s, b)
  {
    var constraints := s.body.constraints[End(s.body.fn, b)];
    forall name | name in constraints
      ensures IsInformative(Intersection(Specification(s.specifications, name), constraints[name])) <==>
                Informs(s, name, constraints[name])
    {
      LeftIsIntersection(s, name, constraints[name]);
    }
  }
}
