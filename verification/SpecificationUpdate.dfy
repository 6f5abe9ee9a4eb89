/** One update of an error specification, as a function of the stored tuple, the delta
    and the return range; what it keeps, what it can lose, and what it cannot see. */
module SpecificationUpdate {
  import opened SignLattice
  import opened Tuples = ConfidenceLattice

  /** The delta, restricted to the return range and joined with the stored tuple. */
  function Joined(current: Tuple, delta: Tuple, range: Sign): Tuple {
    var inRange := Intersection(delta, range);
    if IsUnknown(current) then inRange else Tuples.Join(current, inRange)
  }

  /** A tuple that would claim the whole range loses its lowest signs, or else all
      signs it is not certain of. */
  function Trimmed(x: Tuple, range: Sign): Tuple {
    if !Equals(x, range) then x
    else
      var lowered := RemoveLowestNonMin(x);
      if Equals(lowered, range) then KeepIfMax(lowered) else lowered
  }

  /** The update is refused if it is certain of the whole range, or ends up unknown. */
  predicate IsRefused(current: Tuple, delta: Tuple, range: Sign) {
    var joined := Joined(current, delta, range);
    MaxEquals(joined, range) || IsUnknown(Trimmed(joined, range))
  }

  /** The tuple stored after the update. */
  function Updated(current: Tuple, delta: Tuple, range: Sign): Tuple {
    if IsRefused(current, delta, range) then current else Trimmed(Joined(current, delta, range), range)
  }

  // ----- What every update keeps -----

  /** A stored specification is known, exclusive, and has strictly fewer signs than the
      function can return. */
  predicate IsStorable(x: Tuple, range: Sign) {
    !IsUnknown(x) && Exclusive(x) && Leq(Support(x), range) && Support(x) != range
  }

  lemma UnknownHasNoSigns(x: Tuple)
    requires IsUnknown(x)
    ensures Support(x) == Bottom && Certain(x) == Bottom
  {
  }

  lemma LubWithBottom(s: Sign)
    ensures Lub(Bottom, s) == s
  {
    SameAtoms(Lub(Bottom, s), s);
  }

  lemma JoinedSigns(current: Tuple, delta: Tuple, range: Sign)
    ensures Certain(Joined(current, delta, range)) == Lub(Certain(current), Glb(Certain(delta), range))
    ensures Support(Joined(current, delta, range)) == Lub(Support(current), Glb(Support(delta), range))
  {
    IntersectionSupport(delta, range);
    if IsUnknown(current) {
      UnknownHasNoSigns(current);
      LubWithBottom(Glb(Certain(delta), range));
      LubWithBottom(Glb(Support(delta), range));
    } else {
      JoinSupport(current, Intersection(delta, range));
    }
  }

  lemma LubWithin(x: Sign, y: Sign, range: Sign)
    requires Leq(x, range)
    ensures Leq(Lub(x, Glb(y, range)), range)
  {
  }

  lemma JoinedExclusive(current: Tuple, delta: Tuple, range: Sign)
    requires Exclusive(current) && Exclusive(delta)
    ensures Exclusive(Joined(current, delta, range))
  {
    OperationsKeepExclusive(delta, delta, range);
    OperationsKeepExclusive(current, Intersection(delta, range), range);
  }

  predicate HasHigher(x: Tuple) {
    var m := LowestNonMin(x);
    x.zero > m || x.negative > m || x.positive > m
  }

  lemma RemovalWithoutHigher(x: Tuple)
    requires Exclusive(x) && !HasHigher(x)
    ensures RemoveLowestNonMin(x) == x
    ensures Certain(x) == Support(x) || IsUnknown(KeepIfMax(x))
  {
    if LowestNonMin(x) == MAX_CONFIDENCE {
      SameAtoms(Certain(x), Support(x));
    }
  }

  lemma RemovalWithHigher(x: Tuple)
    requires HasHigher(x)
    ensures Support(RemoveLowestNonMin(x)) != Support(x)
    ensures Certain(x) != Support(x)
  {
  }

  lemma CertainBetween(x: Tuple, range: Sign)
    requires Leq(Support(x), range) && Certain(x) == range
    ensures Support(x) == range
  {
    SameAtoms(Support(x), range);
  }

  predicate IsKept(current: Tuple, range: Sign) {
    IsUnknown(current) || IsStorable(current, range)
  }

  lemma KeptIsWithin(current: Tuple, range: Sign)
    requires IsKept(current, range)
    ensures Exclusive(current) && Leq(Support(current), range)
  {
    if IsUnknown(current) {
      UnknownHasNoSigns(current);
    }
  }

  /** An update in closed form. A join that leaves some returnable sign out is stored;
      one that covers the range loses its lowest signs if that leaves any; otherwise
      nothing changes. In particular, keeping only the certain signs never helps: an
      update that gets that far is always refused. */
  function ClosedForm(current: Tuple, joined: Tuple, range: Sign): Tuple {
    if Support(joined) != range then (if IsUnknown(joined) then current else joined)
    else if HasHigher(joined) then RemoveLowestNonMin(joined)
    else current
  }

  lemma UpdateInClosedForm(current: Tuple, delta: Tuple, range: Sign)
    requires IsKept(current, range) && Exclusive(delta)
    ensures Exclusive(Joined(current, delta, range)) && Leq(Support(Joined(current, delta, range)), range)
    ensures Updated(current, delta, range) == ClosedForm(current, Joined(current, delta, range), range)
  {
    var joined := Joined(current, delta, range);
    KeptIsWithin(current, range);
    JoinedSigns(current, delta, range);
    LubWithin(Support(current), Support(delta), range);
    JoinedExclusive(current, delta, range);
    ComparisonsAreEqualities(joined, range);
    ClosedFormOfTrimming(current, joined, range);
  }

  lemma ClosedFormOfTrimming(current: Tuple, x: Tuple, range: Sign)
    requires Exclusive(x) && Leq(Support(x), range)
    ensures (if MaxEquals(x, range) || IsUnknown(Trimmed(x, range)) then current else Trimmed(x, range)) ==
            ClosedForm(current, x, range)
  {
    ComparisonsAreEqualities(x, range);
    if Support(x) != range {
      if Certain(x) == range {
        CertainBetween(x, range);
      }
    } else if HasHigher(x) {
      RemovalWithHigher(x);
      ComparisonsAreEqualities(RemoveLowestNonMin(x), range);
    } else {
      RemovalWithoutHigher(x);
    }
  }

  lemma RemovalIsStrict(x: Tuple)
    requires HasHigher(x) && Exclusive(x)
    ensures var r := RemoveLowestNonMin(x);
            !IsUnknown(r) && Exclusive(r) && Leq(Support(r), Support(x)) && Support(r) != Support(x)
  {
    RemovalKeepsExclusive(x);
    RemovalWithHigher(x);
  }

  /** The store invariant is kept by every update, and an update that changes anything
      establishes it. */
  lemma UpdateKeepsStorable(current: Tuple, delta: Tuple, range: Sign)
    requires IsKept(current, range) && Exclusive(delta)
    ensures IsKept(Updated(current, delta, range), range)
    ensures Updated(current, delta, range) != current ==> IsStorable(Updated(current, delta, range), range)
  {
    var joined := Joined(current, delta, range);
    UpdateInClosedForm(current, delta, range);
    if Support(joined) == range && HasHigher(joined) {
      RemovalIsStrict(joined);
    }
  }

  // ----- An update, sign by sign -----

  /** The confidence in the sign of `k` that the stored tuple and the delta come to, if the
      function can return it. */
  function ReachedAt(current: Tuple, delta: Tuple, range: Sign, k: int): Confidence {
    if In(k, range) && At(delta, k) > At(current, k) then At(delta, k) else At(current, k)
  }

  function ReachedNone(current: Tuple, delta: Tuple): Confidence {
    if IsUnknown(current) || delta.emptyset < current.emptyset then delta.emptyset else current.emptyset
  }

  lemma JoinedAt(current: Tuple, delta: Tuple, range: Sign, k: int)
    requires IsKept(current, range) || In(k, range)
    ensures At(Joined(current, delta, range), k) == ReachedAt(current, delta, range, k)
    ensures Joined(current, delta, range).emptyset == ReachedNone(current, delta)
  {
    var inRange := Intersection(delta, range);
    CutsAt(delta, delta, range, k);
    if IsUnknown(current) {
      TestsAt(current);
    } else {
      JoinAndMeetAt(current, inRange, k, 0);
    }
  }

  /** A tuple that has in each sign what is reached. */
  ghost predicate IsReached(current: Tuple, delta: Tuple, range: Sign, x: Tuple) {
    x.emptyset == ReachedNone(current, delta) && forall k :: At(x, k) == ReachedAt(current, delta, range, k)
  }

  lemma JoinedIsReached(current: Tuple, delta: Tuple, range: Sign)
    requires IsKept(current, range)
    ensures IsReached(current, delta, range, Joined(current, delta, range))
  {
    forall k
      ensures At(Joined(current, delta, range), k) == ReachedAt(current, delta, range, k)
    {
      JoinedAt(current, delta, range, k);
    }
    JoinedAt(current, delta, range, 0);
  }

  /** It claims every sign the function can return. */
  ghost predicate Covers(x: Tuple, range: Sign) {
    forall k :: At(x, k) > 0 <==> In(k, range)
  }

  /** No sign that is claimed is claimed with less. */
  ghost predicate IsLowest(x: Tuple, k: int) {
    forall i :: At(x, i) > 0 ==> At(x, k) <= At(x, i)
  }

  ghost predicate AllAreLowest(x: Tuple) {
    forall k :: At(x, k) > 0 ==> IsLowest(x, k)
  }

  ghost predicate SaysNothing(x: Tuple) {
    x.emptyset == 0 && forall k :: At(x, k) == 0
  }

  /** The signs of a tuple without its lowest ones. */
  ghost predicate IsWithoutLowest(x: Tuple, after: Tuple) {
    after.emptyset == x.emptyset && forall k :: At(after, k) == if IsLowest(x, k) then 0 else At(x, k)
  }

  /** The stored tuple after an update that reaches `x`: that, if it leaves some returnable
      sign out and says anything; without its lowest signs, if it covers the range with
      different confidences; and otherwise what was stored before. */
  ghost predicate IsUpdate(current: Tuple, x: Tuple, range: Sign, after: Tuple) {
    if !Covers(x, range) then after == if SaysNothing(x) then current else x
    else if AllAreLowest(x) then after == current
    else IsWithoutLowest(x, after)
  }

  lemma CoversMeans(x: Tuple, range: Sign)
    ensures Covers(x, range) <==> Support(x) == range
  {
    forall k
      ensures In(k, Support(x)) <==> At(x, k) > 0
    {
      SupportAt(x, k);
    }
    if Covers(x, range) {
      LeqIsInclusion(Support(x), range);
      LeqIsInclusion(range, Support(x));
      LeqAntisymmetric(Support(x), range);
    }
  }

  /** The lowest confidence above none. */
  lemma LowestAt(x: Tuple)
    ensures forall k :: At(x, k) > 0 ==> LowestNonMin(x) <= At(x, k)
    ensures HasHigher(x) <==> exists k :: At(x, k) > LowestNonMin(x)
    ensures HasHigher(x) ==> exists k :: At(x, k) == LowestNonMin(x) && At(x, k) > 0
  {
    assert At(x, 0) == x.zero && At(x, -1) == x.negative && At(x, 1) == x.positive;
  }

  lemma LowestMeans(x: Tuple, k: int)
    requires HasHigher(x)
    ensures IsLowest(x, k) <==> At(x, k) <= LowestNonMin(x)
    ensures At(RemoveLowestNonMin(x), k) == if IsLowest(x, k) then 0 else At(x, k)
  {
    LowestAt(x);
    var low :| At(x, low) == LowestNonMin(x) && At(x, low) > 0;
    assert IsLowest(x, k) ==> At(x, k) <= At(x, low);
  }

  lemma HigherMeans(x: Tuple)
    ensures HasHigher(x) <==> !AllAreLowest(x)
  {
    LowestAt(x);
    if HasHigher(x) {
      var high :| At(x, high) > LowestNonMin(x);
      LowestMeans(x, high);
    } else {
      forall k | At(x, k) > 0
        ensures IsLowest(x, k)
      {
        assert At(x, k) <= LowestNonMin(x);
      }
    }
  }

  lemma WithoutLowestMeans(x: Tuple)
    requires HasHigher(x)
    ensures IsWithoutLowest(x, RemoveLowestNonMin(x))
  {
    forall k
      ensures At(RemoveLowestNonMin(x), k) == if IsLowest(x, k) then 0 else At(x, k)
    {
      LowestMeans(x, k);
    }
  }

  /** An update, by meaning. */
  lemma UpdateMeans(current: Tuple, delta: Tuple, range: Sign) returns (joined: Tuple)
    requires IsKept(current, range) && Exclusive(delta)
    ensures IsReached(current, delta, range, joined) && IsUpdate(current, joined, range, Updated(current, delta, range))
  {
    joined := Joined(current, delta, range);
    UpdateInClosedForm(current, delta, range);
    JoinedIsReached(current, delta, range);
    CoversMeans(joined, range);
    HigherMeans(joined);
    TestsAt(joined);
    if HasHigher(joined) {
      WithoutLowestMeans(joined);
    }
  }

  // ----- Certainty does not see what is uncertain -----

  /** How an update moves the set of certain signs. */
  function CertainAfter(current: Sign, delta: Sign, range: Sign): Sign {
    var joined := Lub(current, Glb(delta, range));
    if joined == range then current else joined
  }

  lemma LubKeepsWithin(x: Sign, y: Sign, z: Sign)
    requires Lub(x, y) == z
    ensures Leq(x, z)
  {
  }

  lemma CertainUpdate(current: Tuple, delta: Tuple, range: Sign)
    requires IsKept(current, range) && Exclusive(delta)
    ensures Certain(Updated(current, delta, range)) == CertainAfter(Certain(current), Certain(delta), range)
  {
    JoinedSigns(current, delta, range);
    UpdateInClosedForm(current, delta, range);
    CertainOfUpdate(current, Joined(current, delta, range), Certain(delta), range);
  }

  lemma CertainOfUpdate(current: Tuple, joined: Tuple, delta: Sign, range: Sign)
    requires Leq(Support(joined), range) && Certain(joined) == Lub(Certain(current), Glb(delta, range))
    ensures Certain(ClosedForm(current, joined, range)) == CertainAfter(Certain(current), delta, range)
  {
    LubKeepsWithin(Certain(current), Glb(delta, range), Certain(joined));
    CertainOfClosedForm(current, joined, range);
  }

  lemma CertainOfClosedForm(current: Tuple, joined: Tuple, range: Sign)
    requires Leq(Support(joined), range) && Leq(Certain(current), Certain(joined))
    ensures Certain(ClosedForm(current, joined, range)) ==
            if Certain(joined) == range then Certain(current) else Certain(joined)
  {
    if Support(joined) != range {
      if Certain(joined) == range {
        CertainBetween(joined, range);
      }
      if IsUnknown(joined) {
        UnknownHasNoSigns(joined);
        LeqAntisymmetric(Certain(current), Certain(joined));
      }
    } else if HasHigher(joined) {
      RemovalWithHigher(joined);
      RemovalKeepsCertain(joined);
    } else if Certain(joined) != range {
      UncertainHasNone(joined);
      LeqAntisymmetric(Certain(current), Certain(joined));
    }
  }

  lemma UncertainHasNone(x: Tuple)
    requires !HasHigher(x) && Certain(x) != Support(x)
    ensures Certain(x) == Bottom
  {
    if LowestNonMin(x) == MAX_CONFIDENCE {
      SameAtoms(Certain(x), Support(x));
    }
  }

  // ----- When an update loses something -----

  predicate LosesSign(before: Tuple, after: Tuple) {
    (before.zero > 0 && after.zero == 0) || (before.negative > 0 && after.negative == 0) ||
    (before.positive > 0 && after.positive == 0)
  }

  /** The lowest confidence above zero is that of a sign the stored tuple has. */
  predicate LowestIsHeld(current: Tuple, joined: Tuple) {
    var m := LowestNonMin(joined);
    (current.zero > 0 && joined.zero == m) || (current.negative > 0 && joined.negative == m) ||
    (current.positive > 0 && joined.positive == m)
  }

  predicate Above(x: Tuple, y: Tuple) {
    x.zero >= y.zero && x.negative >= y.negative && x.positive >= y.positive
  }

  lemma JoinedIsAbove(current: Tuple, delta: Tuple, range: Sign)
    ensures Above(Joined(current, delta, range), current)
  {
  }

  /** Updates are not monotone. Exactly when an update drops a sign it had: the join
      covers the whole range, not with one confidence throughout, and a held sign has
      the lowest confidence. */
  lemma LosesExactlyWhen(current: Tuple, delta: Tuple, range: Sign)
    requires IsKept(current, range) && Exclusive(delta)
    ensures var joined := Joined(current, delta, range);
            LosesSign(current, Updated(current, delta, range)) <==>
              Support(joined) == range && HasHigher(joined) && LowestIsHeld(current, joined)
  {
    UpdateInClosedForm(current, delta, range);
    JoinedIsAbove(current, delta, range);
    var joined := Joined(current, delta, range);
    LossOfClosedForm(current, joined, range);
  }

  lemma LossOfClosedForm(current: Tuple, joined: Tuple, range: Sign)
    requires Above(joined, current)
    ensures LosesSign(current, ClosedForm(current, joined, range)) <==>
              Support(joined) == range && HasHigher(joined) && LowestIsHeld(current, joined)
  {
  }

  /** A self-recursive function can lose and regain a sign: with the whole range
      returnable, the two deltas below take each tuple to the other. */
  lemma UpdatesCanAlternate()
    ensures var low, high := Tuple(100, 50, 0, 0), Tuple(100, 0, 0, 0);
            && Updated(low, Tuple(100, 50, 50, 0), Top) == high
            && Updated(high, Tuple(100, 50, 0, 0), Top) == low
  {
  }

  // ----- Ranks -----

  /** How far a tuple has come when its function can return at most two signs. */
  function TwoSignRank(x: Tuple): int {
    if IsUnknown(x) then 0
    else if x.emptyset > 0 then 101 - x.emptyset
    else 100 + GetMax(x)
  }

  predicate AtMostTwoSigns(range: Sign) {
    range != Top
  }

  /** With at most two returnable signs, every update that changes the stored tuple
      raises its rank, even when it drops a sign. */
  lemma TwoSignRankRises(current: Tuple, delta: Tuple, range: Sign)
    requires IsKept(current, range) && Exclusive(delta) && AtMostTwoSigns(range)
    ensures Updated(current, delta, range) != current ==>
              TwoSignRank(Updated(current, delta, range)) > TwoSignRank(current)
  {
    UpdateInClosedForm(current, delta, range);
    var joined := Joined(current, delta, range);
    JoinedIsAbove(current, delta, range);
    if Support(joined) == range && HasHigher(joined) {
      TwoSignsDropOne(current, joined, range);
    }
  }

  lemma TwoSignsDropOne(current: Tuple, joined: Tuple, range: Sign)
    requires IsKept(current, range) && Exclusive(joined) && Above(joined, current)
    requires Support(joined) == range && HasHigher(joined) && AtMostTwoSigns(range)
    ensures var r := RemoveLowestNonMin(joined);
            r != current ==> TwoSignRank(r) > TwoSignRank(current)
  {
  }

  /** How many signs a tuple has a confidence in. */
  function Count(x: Tuple): nat {
    (if x.zero > 0 then 1 else 0) + (if x.negative > 0 then 1 else 0) + (if x.positive > 0 then 1 else 0)
  }

  function BinaryRank(x: Tuple): int {
    if IsUnknown(x) then 0 else 1 + Count(x)
  }

  lemma JoinedIsBinary(current: Tuple, delta: Tuple, range: Sign)
    requires IsBinary(current) && IsBinary(delta)
    ensures IsBinary(Joined(current, delta, range)) && !HasHigher(Joined(current, delta, range))
  {
  }

  /** With confidences that are none or full, an update never drops a sign, and one
      that changes the stored tuple raises its rank. */
  lemma BinaryRankRises(current: Tuple, delta: Tuple, range: Sign)
    requires IsKept(current, range) && Exclusive(delta) && IsBinary(current) && IsBinary(delta)
    ensures IsBinary(Updated(current, delta, range)) && !LosesSign(current, Updated(current, delta, range))
    ensures Updated(current, delta, range) != current ==>
              BinaryRank(Updated(current, delta, range)) > BinaryRank(current)
  {
    UpdateInClosedForm(current, delta, range);
    JoinedIsAbove(current, delta, range);
    JoinedIsBinary(current, delta, range);
  }

  // ----- Traces -----

  /** An update by the static analysis, or by the language model, which is certain neither
      of a sign nor of there being none. */
  datatype Event = Static(delta: Tuple) | Model(delta: Tuple)

  ghost predicate IsEvent(e: Event) {
    Exclusive(e.delta) && (e.Model? ==> Certain(e.delta) == Bottom && !IsEmptyset(e.delta))
  }

  ghost predicate IsTrace(trace: seq<Event>) {
    forall k :: 0 <= k < |trace| ==> IsEvent(trace[k])
  }

  /** The stored tuple of one function after a trace of updates. */
  function AfterTrace(trace: seq<Event>, range: Sign): Tuple
    decreases |trace|
  {
    if trace == [] then UNKNOWN
    else Updated(AfterTrace(trace[..|trace| - 1], range), trace[|trace| - 1].delta, range)
  }

  function WithoutModel(trace: seq<Event>): seq<Event>
    decreases |trace|
  {
    if trace == [] then []
    else
      var rest := WithoutModel(trace[..|trace| - 1]);
      if trace[|trace| - 1].Model? then rest else rest + [trace[|trace| - 1]]
  }

  lemma {:induction false} WithoutModelIsTrace(trace: seq<Event>)
    requires IsTrace(trace)
    ensures IsTrace(WithoutModel(trace))
    decreases |trace|
  {
    if trace != [] {
      WithoutModelIsTrace(trace[..|trace| - 1]);
    }
  }

  /** Every reachable tuple is unknown or meets the store invariant. */
  lemma {:induction false} TraceKeepsStorable(trace: seq<Event>, range: Sign)
    requires IsTrace(trace)
    ensures IsKept(AfterTrace(trace, range), range)
    decreases |trace|
  {
    if trace != [] {
      TraceKeepsStorable(trace[..|trace| - 1], range);
      assert IsEvent(trace[|trace| - 1]);
      UpdateKeepsStorable(AfterTrace(trace[..|trace| - 1], range), trace[|trace| - 1].delta, range);
    }
  }

  /** Non-interference: after any interleaving of updates, the certain signs are those
      of the same trace with all model updates deleted. */
  lemma {:induction false} ModelDoesNotAffectCertainty(trace: seq<Event>, range: Sign)
    requires IsTrace(trace)
    ensures Certain(AfterTrace(trace, range)) == Certain(AfterTrace(WithoutModel(trace), range))
    decreases |trace|
  {
    if trace != [] {
      var before := trace[..|trace| - 1];
      var e := trace[|trace| - 1];
      assert IsEvent(e);
      ModelDoesNotAffectCertainty(before, range);
      WithoutModelIsTrace(before);
      TraceKeepsStorable(before, range);
      TraceKeepsStorable(WithoutModel(before), range);
      CertainUpdate(AfterTrace(before, range), e.delta, range);
      if e.Model? {
        CertainUnmoved(Certain(AfterTrace(before, range)), range);
      } else {
        var kept := WithoutModel(before) + [e];
        assert kept[..|kept| - 1] == WithoutModel(before);
        CertainUpdate(AfterTrace(WithoutModel(before), range), e.delta, range);
      }
    }
  }

  lemma CertainUnmoved(current: Sign, range: Sign)
    ensures CertainAfter(current, Bottom, range) == current
  {
    SameAtoms(Lub(current, Glb(Bottom, range)), current);
  }

  // ----- How often a specification can change -----

  /** The updates of a trace that change what is stored. */
  function Changes(trace: seq<Event>, range: Sign): nat
    decreases |trace|
  {
    if trace == [] then 0
    else
      var before := trace[..|trace| - 1];
      Changes(before, range) + (if AfterTrace(trace, range) != AfterTrace(before, range) then 1 else 0)
  }

  /** However the updates of one function go, its specification settles. */
  ghost predicate AlwaysSettles(range: Sign) {
    exists bound: nat :: ChangesAtMost(range, bound)
  }

  ghost predicate ChangesAtMost(range: Sign, bound: nat) {
    forall trace | IsTrace(trace) :: Changes(trace, range) <= bound
  }

  /** With at most two returnable signs every change uses up a rank. */
  lemma {:induction false} ChangesAreRanked(trace: seq<Event>, range: Sign)
    requires IsTrace(trace) && AtMostTwoSigns(range)
    ensures Changes(trace, range) <= TwoSignRank(AfterTrace(trace, range)) <= 200
    decreases |trace|
  {
    if trace != [] {
      var before, e := trace[..|trace| - 1], trace[|trace| - 1];
      assert IsEvent(e);
      ChangesAreRanked(before, range);
      TraceKeepsStorable(before, range);
      TwoSignRankRises(AfterTrace(before, range), e.delta, range);
    }
  }

  /** Two deltas in turn, for a function that can return all signs. */
  function AlternatingDelta(n: nat): Tuple {
    Tuple(100, 50, if n % 2 == 0 then 0 else 50, 0)
  }

  function AlternatingTuple(n: nat): Tuple {
    if n == 0 then UNKNOWN else if n % 2 == 1 then Tuple(100, 50, 0, 0) else Tuple(100, 0, 0, 0)
  }

  lemma NextTuple(n: nat)
    ensures Updated(AlternatingTuple(n), AlternatingDelta(n), Top) == AlternatingTuple(n + 1)
    ensures AlternatingTuple(n + 1) != AlternatingTuple(n)
  {
    UpdatesCanAlternate();
  }

  lemma OneMoreEvent(before: seq<Event>, e: Event, range: Sign)
    ensures AfterTrace(before + [e], range) == Updated(AfterTrace(before, range), e.delta, range)
    ensures Changes(before + [e], range) ==
              Changes(before, range) + (if AfterTrace(before + [e], range) != AfterTrace(before, range) then 1 else 0)
    ensures IsTrace(before) && IsEvent(e) ==> IsTrace(before + [e])
  {
    assert (before + [e])[..|before|] == before;
  }

  ghost predicate HasAlternated(trace: seq<Event>, n: nat) {
    IsTrace(trace) && Changes(trace, Top) == n && AfterTrace(trace, Top) == AlternatingTuple(n)
  }

  lemma AlternatesOnce(trace: seq<Event>, n: nat)
    requires HasAlternated(trace, n)
    ensures HasAlternated(trace + [Static(AlternatingDelta(n))], n + 1)
  {
    NextTuple(n);
    OneMoreEvent(trace, Static(AlternatingDelta(n)), Top);
  }

  lemma NothingYet()
    ensures HasAlternated([], 0)
  {
  }

  lemma AlternatingChanges(n: nat) returns (trace: seq<Event>)
    ensures HasAlternated(trace, n)
  {
    trace := [];
    NothingYet();
    for k := 0 to n
      invariant HasAlternated(trace, k)
    {
      AlternatesOnce(trace, k);
      trace := trace + [Static(AlternatingDelta(k))];
    }
  }

  /** The specification of a function settles under every sequence of updates if and only
      if the function cannot return every sign; then it changes at most 200 times. */
  lemma SettlesExactly(range: Sign)
    ensures AlwaysSettles(range) <==> range != Top
    ensures range != Top ==> ChangesAtMost(range, 200)
  {
    if range != Top {
      forall trace | IsTrace(trace)
        ensures Changes(trace, range) <= 200
      {
        ChangesAreRanked(trace, range);
      }
      assert ChangesAtMost(range, 200);
    } else {
      forall bound: nat
        ensures !ChangesAtMost(Top, bound)
      {
        var trace := AlternatingChanges(bound + 1);
        assert IsTrace(trace);
      }
    }
  }

  // ----- The emptyset component -----

  /** The delta says something about the range that would be stored if nothing else were:
      it does not cover the whole range with one confidence. */
  predicate Takes(delta: Tuple, range: Sign) {
    IsTaken(Intersection(delta, range), range)
  }

  predicate IsTaken(inRange: Tuple, range: Sign) {
    !IsUnknown(inRange) && (Support(inRange) == range ==> HasHigher(inRange))
  }

  ghost predicate SomeTakes(trace: seq<Event>, range: Sign) {
    exists e :: e in trace && Takes(e.delta, range)
  }

  ghost predicate AllTakersSayNone(trace: seq<Event>, range: Sign) {
    forall e | e in trace && Takes(e.delta, range) :: IsEmptyset(e.delta)
  }

  /** A first delta is stored if and only if it takes; "no errors" gives way exactly to a
      delta that takes and is less certain of it. */
  lemma EmptysetUpdate(current: Tuple, delta: Tuple, range: Sign)
    requires IsKept(current, range) && Exclusive(delta)
    ensures var after := Updated(current, delta, range);
            && (IsUnknown(after) <==> IsUnknown(current) && !Takes(delta, range))
            && (IsEmptyset(after) <==>
                  if Takes(delta, range) then (IsUnknown(current) || IsEmptyset(current)) && IsEmptyset(delta)
                  else IsEmptyset(current))
  {
    UpdateInClosedForm(current, delta, range);
    OperationsKeepExclusive(delta, delta, range);
    if IsUnknown(current) {
      EmptysetOfFirst(current, Intersection(delta, range), range);
    } else if IsEmptyset(current) {
      EmptysetOfNext(current, Intersection(delta, range), range);
    } else {
      EmptysetIsNotRegained(current, Intersection(delta, range), range);
    }
  }

  lemma EmptysetOfFirst(current: Tuple, inRange: Tuple, range: Sign)
    requires IsUnknown(current) && Exclusive(inRange)
    ensures var after := ClosedForm(current, inRange, range);
            && (IsUnknown(after) <==> !IsTaken(inRange, range))
            && (IsEmptyset(after) <==> IsTaken(inRange, range) && IsEmptyset(inRange))
  {
    if HasHigher(inRange) {
      RemovalIsStrict(inRange);
    }
  }

  lemma EmptysetOfNext(current: Tuple, inRange: Tuple, range: Sign)
    requires IsEmptyset(current) && Exclusive(current) && Exclusive(inRange)
    ensures var after := ClosedForm(current, Tuples.Join(current, inRange), range);
            !IsUnknown(after) && (IsEmptyset(after) <==> (IsTaken(inRange, range) ==> IsEmptyset(inRange)))
  {
    assert Tuples.Join(current, inRange) == inRange;
    if HasHigher(inRange) {
      RemovalIsStrict(inRange);
    }
  }

  lemma EmptysetIsNotRegained(current: Tuple, inRange: Tuple, range: Sign)
    requires !IsUnknown(current) && !IsEmptyset(current) && Exclusive(current) && Exclusive(inRange)
    ensures var after := ClosedForm(current, Tuples.Join(current, inRange), range);
            !IsUnknown(after) && !IsEmptyset(after)
  {
    var joined := Tuples.Join(current, inRange);
    OperationsKeepExclusive(current, inRange, range);
    assert !IsEmptyset(joined);
    UncertainEmptysetStays(current, joined, range);
  }

  lemma UncertainEmptysetStays(current: Tuple, joined: Tuple, range: Sign)
    requires !IsUnknown(current) && !IsEmptyset(current) && Exclusive(joined) && !IsEmptyset(joined)
    ensures var after := ClosedForm(current, joined, range); !IsUnknown(after) && !IsEmptyset(after)
  {
    if HasHigher(joined) {
      RemovalIsStrict(joined);
    }
  }

  lemma TakersSplit(before: seq<Event>, e: Event, range: Sign)
    ensures SomeTakes(before + [e], range) <==> SomeTakes(before, range) || Takes(e.delta, range)
    ensures AllTakersSayNone(before + [e], range) <==>
              AllTakersSayNone(before, range) && (Takes(e.delta, range) ==> IsEmptyset(e.delta))
  {
    assert e in before + [e] && forall x | x in before :: x in before + [e];
  }

  /** A trace ends with "no errors" for certain if and only if some update takes, and every
      update that takes says so with full confidence. */
  lemma {:induction false} EmptysetExactlyWhen(trace: seq<Event>, range: Sign)
    requires IsTrace(trace)
    ensures IsUnknown(AfterTrace(trace, range)) <==> !SomeTakes(trace, range)
    ensures IsEmptyset(AfterTrace(trace, range)) <==> SomeTakes(trace, range) && AllTakersSayNone(trace, range)
    decreases |trace|
  {
    if trace != [] {
      var before, e := trace[..|trace| - 1], trace[|trace| - 1];
      assert IsEvent(e) && trace == before + [e];
      EmptysetExactlyWhen(before, range);
      TraceKeepsStorable(before, range);
      EmptysetUpdate(AfterTrace(before, range), e.delta, range);
      TakersSplit(before, e, range);
    }
  }

  /** No update by the model takes. */
  ghost predicate ModelTakesNothing(trace: seq<Event>, range: Sign) {
    forall e | e in trace && e.Model? :: !Takes(e.delta, range)
  }

  lemma {:induction false} WithoutModelHas(trace: seq<Event>, e: Event)
    ensures e in WithoutModel(trace) <==> e in trace && e.Static?
    decreases |trace|
  {
    if trace != [] {
      WithoutModelHas(trace[..|trace| - 1], e);
      assert trace == trace[..|trace| - 1] + [trace[|trace| - 1]];
    }
  }

  /** The emptyset component is protected exactly as far as the model stays out: a certain
      "no errors" of the static updates survives if and only if no model update takes, and
      the model never brings one about. */
  lemma ModelAffectsEmptysetExactlyWhen(trace: seq<Event>, range: Sign)
    requires IsTrace(trace)
    ensures IsEmptyset(AfterTrace(trace, range)) <==>
              IsEmptyset(AfterTrace(WithoutModel(trace), range)) && ModelTakesNothing(trace, range)
  {
    WithoutModelIsTrace(trace);
    EmptysetExactlyWhen(trace, range);
    EmptysetExactlyWhen(WithoutModel(trace), range);
    forall e
      ensures e in WithoutModel(trace) <==> e in trace && e.Static?
    {
      WithoutModelHas(trace, e);
    }
    assert forall e | e in trace && e.Model? :: IsEvent(e);
  }

  /** The emptyset component is not protected in this way: a model that first says
      "no error values" keeps a later static finding from being certain. */
  lemma ModelCanAffectEmptyset()
    ensures var trace := [Model(Tuple(0, 0, 0, 50)), Static(EMPTYSET)];
            && IsTrace(trace)
            && !IsEmptyset(AfterTrace(trace, Top))
            && IsEmptyset(AfterTrace(WithoutModel(trace), Top))
  {
    var m, e := Model(Tuple(0, 0, 0, 50)), Static(EMPTYSET);
    var trace := [m, e];
    assert trace[..1] == [m] && [m][..0] == [] && [e][..0] == [];
    assert WithoutModel([m]) == [];
    assert WithoutModel(trace) == WithoutModel([m]) + [e];
    assert WithoutModel(trace) == [e];
    assert AfterTrace([m], Top) == Tuple(0, 0, 0, 50);
    assert AfterTrace(trace, Top) == Updated(Tuple(0, 0, 0, 50), EMPTYSET, Top);
    assert AfterTrace([e], Top) == EMPTYSET;
  }
}
