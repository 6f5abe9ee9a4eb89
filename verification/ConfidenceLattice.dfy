/** Confidence tuples: one confidence for each of ==0, <0 and >0, and one for the
    function having no error value at all. The constructor's range assertion is the
    type `Confidence`, so it cannot fire wherever a tuple is built here. */
module ConfidenceLattice {
  import opened SignLattice

  const MAX_CONFIDENCE := 100

  type Confidence = c: int | 0 <= c <= MAX_CONFIDENCE

  datatype Tuple = Tuple(zero: Confidence, negative: Confidence, positive: Confidence, emptyset: Confidence)

  const UNKNOWN := Tuple(0, 0, 0, 0)
  const EMPTYSET := Tuple(0, 0, 0, MAX_CONFIDENCE)

  function Max(x: Confidence, y: Confidence): Confidence { if x >= y then x else y }

  function Min(x: Confidence, y: Confidence): Confidence { if x <= y then x else y }

  function GetMax(x: Tuple): Confidence {
    Max(x.zero, Max(x.negative, x.positive))
  }

  /** Tests the emptyset component alone. */
  predicate IsEmptyset(x: Tuple) {
    x.emptyset == MAX_CONFIDENCE
  }

  predicate IsUnknown(x: Tuple) {
    x.zero == 0 && x.negative == 0 && x.positive == 0 && x.emptyset == 0
  }

  // ----- Operations -----

  function Join(x: Tuple, y: Tuple): Tuple {
    Tuple(Max(x.zero, y.zero), Max(x.negative, y.negative), Max(x.positive, y.positive), Min(x.emptyset, y.emptyset))
  }

  function Meet(x: Tuple, y: Tuple): Tuple {
    Tuple(Min(x.zero, y.zero), Min(x.negative, y.negative), Min(x.positive, y.positive), Max(x.emptyset, y.emptyset))
  }

  /** Keeps the confidences of the signs in `y`. */
  function Intersection(x: Tuple, y: Sign): Tuple {
    Tuple(if Intersects(y, Zero) then x.zero else 0,
          if Intersects(y, LessThanZero) then x.negative else 0,
          if Intersects(y, GreaterThanZero) then x.positive else 0,
          x.emptyset)
  }

  /** The signs with a confidence above zero are those of `y`. */
  predicate Equals(x: Tuple, y: Sign) {
    && !((x.zero == 0 && Intersects(y, Zero)) || (x.zero > 0 && !Intersects(y, Zero)))
    && !((x.negative == 0 && Intersects(y, LessThanZero)) || (x.negative > 0 && !Intersects(y, LessThanZero)))
    && !((x.positive == 0 && Intersects(y, GreaterThanZero)) || (x.positive > 0 && !Intersects(y, GreaterThanZero)))
  }

  /** The signs with full confidence are those of `y`. */
  predicate MaxEquals(x: Tuple, y: Sign) {
    && !((x.zero < MAX_CONFIDENCE && Intersects(y, Zero)) || (x.zero == MAX_CONFIDENCE && !Intersects(y, Zero)))
    && !((x.negative < MAX_CONFIDENCE && Intersects(y, LessThanZero)) ||
         (x.negative == MAX_CONFIDENCE && !Intersects(y, LessThanZero)))
    && !((x.positive < MAX_CONFIDENCE && Intersects(y, GreaterThanZero)) ||
         (x.positive == MAX_CONFIDENCE && !Intersects(y, GreaterThanZero)))
  }

  function KeepFull(x: Confidence): Confidence {
    if x == MAX_CONFIDENCE then MAX_CONFIDENCE else 0
  }

  function KeepIfMax(x: Tuple): Tuple {
    Tuple(KeepFull(x.zero), KeepFull(x.negative), KeepFull(x.positive), x.emptyset)
  }

  /** Removes the signs of `y` that have a confidence; `emptyset` is kept. */
  function Difference(x: Tuple, y: Tuple): Tuple {
    Tuple(if x.zero > 0 && y.zero == 0 then x.zero else 0,
          if x.negative > 0 && y.negative == 0 then x.negative else 0,
          if x.positive > 0 && y.positive == 0 then x.positive else 0,
          x.emptyset)
  }

  // ----- RemoveLowestNonMin -----

  /** The least confidence above zero, or the maximum if there is none lower. */
  function LowestNonMin(x: Tuple): Confidence {
    var z := if x.zero != 0 then Min(x.zero, MAX_CONFIDENCE) else MAX_CONFIDENCE;
    var n := if x.negative != 0 then Min(x.negative, z) else z;
    if x.positive != 0 then Min(x.positive, n) else n
  }

  /** Drops every component that equals the lowest one above zero, unless nothing
      above zero is higher. */
  function RemoveLowestNonMin(x: Tuple): Tuple {
    var m := LowestNonMin(x);
    if x.zero <= m && x.negative <= m && x.positive <= m then x
    else
      Tuple(if x.zero > m then x.zero else 0, if x.negative > m then x.negative else 0,
            if x.positive > m then x.positive else 0, x.emptyset)
  }

  /** The same, step by step: a lone sign is kept, then the minimum is found, then the
      components are compared with it one after the other. */
  method RemoveLowest(x: Tuple) returns (r: Tuple)
    ensures r == RemoveLowestNonMin(x)
  {
    var zero, negative, positive := x.zero, x.negative, x.positive;
    var minimum: Confidence := MAX_CONFIDENCE;
    if (zero > 0 && negative == 0 && positive == 0) || (negative > 0 && zero == 0 && positive == 0) ||
       (positive > 0 && negative == 0 && zero == 0)
    {
      return x;
    }
    if zero != 0 && zero < minimum {
      minimum := zero;
    }
    if negative != 0 && negative < minimum {
      minimum := negative;
    }
    if positive != 0 && positive < minimum {
      minimum := positive;
    }
    if x.zero == minimum {
      if x.negative == minimum && (x.positive == 0 || x.positive == minimum) {
        return x;
      }
      if x.positive == minimum && (x.negative == 0 || x.negative == minimum) {
        return x;
      }
      zero := 0;
    }
    if x.negative == minimum {
      if x.zero == minimum && (x.positive == 0 || x.positive == minimum) {
        return x;
      }
      if x.positive == minimum && (x.zero == 0 || x.zero == minimum) {
        return x;
      }
      negative := 0;
    }
    if x.positive == minimum {
      if x.negative == minimum && (x.zero == 0 || x.zero == minimum) {
        return x;
      }
      if x.zero == minimum && (x.negative == 0 || x.negative == minimum) {
        return x;
      }
      positive := 0;
    }
    r := Tuple(zero, negative, positive, x.emptyset);
  }

  // ----- Conversions -----

  /** Full confidence in every sign of an element. */
  function FromSign(s: Sign, emptyset: Confidence): Tuple {
    Scaled(s, emptyset, MAX_CONFIDENCE)
  }

  /** The same confidence in every sign of an element. */
  function Scaled(s: Sign, emptyset: Confidence, confidence: Confidence): Tuple {
    Tuple(if Intersects(s, Zero) then confidence else 0,
          if Intersects(s, LessThanZero) then confidence else 0,
          if Intersects(s, GreaterThanZero) then confidence else 0,
          emptyset)
  }

  /** The element of the signs whose confidence reaches a threshold. */
  function ToSign(x: Tuple, threshold: int): Sign {
    Lub(Lub(Lub(Bottom, if x.zero >= threshold then Zero else Bottom),
            if x.negative >= threshold then LessThanZero else Bottom),
        if x.positive >= threshold then GreaterThanZero else Bottom)
  }

  // ----- Emptyset is exclusive -----

  /** A tuple that may be emptyset says nothing about signs. */
  predicate Exclusive(x: Tuple) {
    x.emptyset > 0 ==> x.zero == 0 && x.negative == 0 && x.positive == 0
  }

  lemma OperationsKeepExclusive(x: Tuple, y: Tuple, s: Sign)
    requires Exclusive(x) && Exclusive(y)
    ensures Exclusive(Join(x, y)) && Exclusive(Meet(x, y)) && Exclusive(Intersection(x, s))
    ensures Exclusive(KeepIfMax(x)) && Exclusive(Difference(x, y))
  {
  }

  lemma RemovalKeepsExclusive(x: Tuple)
    requires Exclusive(x)
    ensures Exclusive(RemoveLowestNonMin(x))
  {
  }

  /** So the test for full emptyset confidence does mean "no signs". */
  lemma EmptysetHasNoSigns(x: Tuple)
    requires Exclusive(x) && IsEmptyset(x)
    ensures x == EMPTYSET
  {
  }

  // ----- Binary tuples -----

  /** Every confidence is none or full. */
  predicate IsBinary(x: Tuple) {
    && (x.zero == 0 || x.zero == MAX_CONFIDENCE) && (x.negative == 0 || x.negative == MAX_CONFIDENCE)
    && (x.positive == 0 || x.positive == MAX_CONFIDENCE) && (x.emptyset == 0 || x.emptyset == MAX_CONFIDENCE)
  }

  // ----- Supports -----

  /** The signs a tuple has any confidence in, and those it is sure of. */
  function Support(x: Tuple): Sign {
    FromAtoms(x.negative > 0, x.zero > 0, x.positive > 0)
  }

  function Certain(x: Tuple): Sign {
    FromAtoms(x.negative == MAX_CONFIDENCE, x.zero == MAX_CONFIDENCE, x.positive == MAX_CONFIDENCE)
  }

  lemma SameAtoms(x: Sign, y: Sign)
    requires HasNegative(x) == HasNegative(y) && HasZero(x) == HasZero(y) && HasPositive(x) == HasPositive(y)
    ensures x == y
  {
  }

  lemma IntersectsAtoms(s: Sign)
    ensures Intersects(s, Zero) <==> HasZero(s)
    ensures Intersects(s, LessThanZero) <==> HasNegative(s)
    ensures Intersects(s, GreaterThanZero) <==> HasPositive(s)
  {
  }

  /** The two comparisons with a range, as equalities of sign sets. */
  lemma ComparisonsAreEqualities(x: Tuple, s: Sign)
    ensures Equals(x, s) <==> Support(x) == s
    ensures MaxEquals(x, s) <==> Certain(x) == s
  {
    IntersectsAtoms(s);
    if Equals(x, s) {
      SameAtoms(Support(x), s);
    }
    if MaxEquals(x, s) {
      SameAtoms(Certain(x), s);
    }
  }

  lemma IntersectionSupport(x: Tuple, s: Sign)
    ensures Support(Intersection(x, s)) == Glb(Support(x), s)
    ensures Certain(Intersection(x, s)) == Glb(Certain(x), s)
  {
    IntersectsAtoms(s);
    SameAtoms(Support(Intersection(x, s)), Glb(Support(x), s));
    SameAtoms(Certain(Intersection(x, s)), Glb(Certain(x), s));
  }

  lemma JoinSupport(x: Tuple, y: Tuple)
    ensures Support(Join(x, y)) == Lub(Support(x), Support(y))
    ensures Certain(Join(x, y)) == Lub(Certain(x), Certain(y))
  {
    SameAtoms(Support(Join(x, y)), Lub(Support(x), Support(y)));
    SameAtoms(Certain(Join(x, y)), Lub(Certain(x), Certain(y)));
  }

  /** Certain signs are never removed from a tuple that is not all certain. */
  lemma RemovalKeepsCertain(x: Tuple)
    requires Certain(x) != Support(x)
    ensures Certain(RemoveLowestNonMin(x)) == Certain(x)
  {
    SameAtoms(Certain(RemoveLowestNonMin(x)), Certain(x));
  }

  lemma ThresholdOneIsSupport(x: Tuple)
    ensures ToSign(x, 1) == Support(x)
  {
    SameAtoms(ToSign(x, 1), Support(x));
  }

  // ----- Sign by sign -----

  /** The confidence a tuple has in the sign of an integer. */
  function At(x: Tuple, k: int): Confidence {
    if k == 0 then x.zero else if k < 0 then x.negative else x.positive
  }

  lemma SameEverywhere(x: Tuple, y: Tuple)
    requires x.emptyset == y.emptyset && forall k :: At(x, k) == At(y, k)
    ensures x == y
  {
    assert At(x, 0) == At(y, 0) && At(x, -1) == At(y, -1) && At(x, 1) == At(y, 1);
  }

  /** A join takes the higher confidence in each sign and the lower one in "no errors"; a
      meet does the opposite. */
  lemma JoinAndMeetAt(x: Tuple, y: Tuple, k: int, c: int)
    ensures c <= At(Join(x, y), k) <==> c <= At(x, k) || c <= At(y, k)
    ensures c <= Join(x, y).emptyset <==> c <= x.emptyset && c <= y.emptyset
    ensures c <= At(Meet(x, y), k) <==> c <= At(x, k) && c <= At(y, k)
    ensures c <= Meet(x, y).emptyset <==> c <= x.emptyset || c <= y.emptyset
  {
  }

  /** An intersection and a difference keep a confidence or leave none. */
  lemma CutsAt(x: Tuple, y: Tuple, s: Sign, k: int)
    ensures At(Intersection(x, s), k) == if In(k, s) then At(x, k) else 0
    ensures At(Difference(x, y), k) == if At(y, k) == 0 then At(x, k) else 0
    ensures At(KeepIfMax(x), k) == if At(x, k) == 100 then 100 else 0
    ensures Intersection(x, s).emptyset == Difference(x, y).emptyset == KeepIfMax(x).emptyset == x.emptyset
  {
    IntersectsAtoms(s);
    InByAtoms(k, s);
  }

  /** A sign is kept if some other is less likely, or if all that are there are equally
      likely. */
  lemma RemovalAt(x: Tuple, k: int)
    ensures var kept := (exists j :: 0 < At(x, j) < At(x, k)) ||
                        forall i, j :: At(x, i) > 0 && At(x, j) > 0 ==> At(x, i) == At(x, j);
            At(RemoveLowestNonMin(x), k) == if kept then At(x, k) else 0
    ensures RemoveLowestNonMin(x).emptyset == x.emptyset
  {
    var z, n, p := At(x, 0), At(x, -1), At(x, 1);
    assert forall j :: At(x, j) == z || At(x, j) == n || At(x, j) == p;
  }

  /** A sign scaled by a confidence has it in each of its integers. */
  lemma ScaledAt(s: Sign, emptyset: Confidence, confidence: Confidence, k: int)
    ensures At(Scaled(s, emptyset, confidence), k) == if In(k, s) then confidence else 0
    ensures At(FromSign(s, emptyset), k) == if In(k, s) then 100 else 0
    ensures Scaled(s, emptyset, confidence).emptyset == FromSign(s, emptyset).emptyset == emptyset
  {
    IntersectsAtoms(s);
    InByAtoms(k, s);
  }

  lemma ToSignAt(x: Tuple, threshold: int, k: int)
    ensures In(k, ToSign(x, threshold)) <==> At(x, k) >= threshold
  {
    InByAtoms(k, ToSign(x, threshold));
  }

  lemma SupportAt(x: Tuple, k: int)
    ensures In(k, Support(x)) <==> At(x, k) > 0
    ensures In(k, Certain(x)) <==> At(x, k) == 100
  {
    InByAtoms(k, Support(x));
    InByAtoms(k, Certain(x));
  }

  /** The strongest confidence in any sign. */
  ghost predicate IsStrongest(m: Confidence, x: Tuple) {
    (exists k :: At(x, k) == m) && forall k :: At(x, k) <= m
  }

  lemma GetMaxIsStrongest(x: Tuple)
    ensures forall m: Confidence :: IsStrongest(m, x) <==> m == GetMax(x)
  {
    assert At(x, 0) == x.zero && At(x, -1) == x.negative && At(x, 1) == x.positive;
  }

  lemma TestsAt(x: Tuple)
    ensures IsUnknown(x) <==> x.emptyset == 0 && forall k :: At(x, k) == 0
    ensures IsEmptyset(x) <==> x.emptyset == 100
  {
    assert At(x, 0) == x.zero && At(x, -1) == x.negative && At(x, 1) == x.positive;
  }
}
