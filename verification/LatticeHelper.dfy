/** The command line's reading of a confidence tuple: a string of three bits, looked up
    in an encoding table. It agrees with the fold of joins that the service uses. */
module LatticeHelper {
  import opened SignLattice
  import opened Tuples = ConfidenceLattice

  datatype Answer = EmptysetAnswer | Element(sign: Sign)

  /** The number a string of binary digits stands for. */
  function BinaryValue(bits: string): nat {
    if bits == "" then 0
    else 2 * BinaryValue(bits[..|bits| - 1]) + (if bits[|bits| - 1] == '1' then 1 else 0)
  }

  const ELEMENT_ENCODING: map<nat, Sign> := map[
    0 := Bottom, 1 := LessThanZero, 2 := GreaterThanZero, 4 := Zero,
    5 := LessThanEqualZero, 6 := GreaterThanEqualZero, 3 := NotZero, 7 := Top]

  function Digit(b: bool): char { if b then '1' else '0' }

  lemma ThreeDigits(x: char, y: char, z: char)
    ensures BinaryValue([x, y, z]) ==
            4 * (if x == '1' then 1 else 0) + 2 * (if y == '1' then 1 else 0) + (if z == '1' then 1 else 0)
  {
    assert [x, y, z][..2] == [x, y] && [x, y][..1] == [x] && [x][..0] == "";
    assert BinaryValue([x]) == (if x == '1' then 1 else 0);
    assert BinaryValue([x, y]) == 2 * BinaryValue([x]) + (if y == '1' then 1 else 0);
  }

  function Code(negative: bool, zero: bool, positive: bool): nat {
    4 * (if zero then 1 else 0) + 2 * (if positive then 1 else 0) + (if negative then 1 else 0)
  }

  /** Every code is in the table, at the element with these atoms. */
  lemma EncodingOfAtoms(negative: bool, zero: bool, positive: bool)
    ensures var code := Code(negative, zero, positive);
            && code in ELEMENT_ENCODING && ELEMENT_ENCODING[code] == FromAtoms(negative, zero, positive)
            && (code == 0 <==> FromAtoms(negative, zero, positive) == Bottom)
  {
  }

  lemma AddAtom(negative: bool, zero: bool, positive: bool)
    ensures Lub(Bottom, if zero then Zero else Bottom) == FromAtoms(false, zero, false)
    ensures Lub(FromAtoms(false, zero, false), if negative then LessThanZero else Bottom) ==
            FromAtoms(negative, zero, false)
    ensures Lub(FromAtoms(negative, zero, false), if positive then GreaterThanZero else Bottom) ==
            FromAtoms(negative, zero, positive)
  {
  }

  lemma FoldIsFromAtoms(x: Tuple, threshold: int)
    ensures ToSign(x, threshold) == FromAtoms(x.negative >= threshold, x.zero >= threshold, x.positive >= threshold)
  {
    AddAtom(x.negative >= threshold, x.zero >= threshold, x.positive >= threshold);
  }

  lemma SignsReach(x: Tuple, threshold: int)
    ensures forall k :: In(k, ToSign(x, threshold)) <==> At(x, k) >= threshold
    ensures ToSign(x, threshold) == Bottom <==> forall k :: At(x, k) < threshold
  {
    forall k
      ensures In(k, ToSign(x, threshold)) <==> At(x, k) >= threshold
    {
      ToSignAt(x, threshold, k);
    }
    var s := ToSign(x, threshold);
    assert In(-1, s) || In(0, s) || In(1, s) || s == Bottom;
  }

  /** The number of a string with one digit for each sign that reaches the threshold. */
  method CodeFromConfidence(x: Tuple, threshold: int) returns (code: nat)
    ensures code == Code(x.negative >= threshold, x.zero >= threshold, x.positive >= threshold)
  {
    var bits := "";
    if x.zero >= threshold {
      bits := bits + "1";
    } else {
      bits := bits + "0";
    }
    if x.positive >= threshold {
      bits := bits + "1";
    } else {
      bits := bits + "0";
    }
    if x.negative >= threshold {
      bits := bits + "1";
    } else {
      bits := bits + "0";
    }
    assert bits == [Digit(x.zero >= threshold), Digit(x.positive >= threshold), Digit(x.negative >= threshold)];
    ThreeDigits(Digit(x.zero >= threshold), Digit(x.positive >= threshold), Digit(x.negative >= threshold));
    code := BinaryValue(bits);
  }

  /** The signs whose confidence reaches the threshold, unless there are none and the
      emptyset confidence reaches it. */
  method LatticeElementFromConfidence(x: Tuple, threshold: int) returns (r: Answer)
    requires threshold > 0
    ensures r.EmptysetAnswer? <==> x.emptyset >= threshold && forall k :: At(x, k) < threshold
    ensures r.Element? ==> forall k :: In(k, r.sign) <==> At(x, k) >= threshold
    ensures r == if x.emptyset >= threshold && ToSign(x, threshold) == Bottom then EmptysetAnswer
                 else Element(ToSign(x, threshold))
  {
    var code := CodeFromConfidence(x, threshold);
    FoldIsFromAtoms(x, threshold);
    EncodingOfAtoms(x.negative >= threshold, x.zero >= threshold, x.positive >= threshold);
    SignsReach(x, threshold);
    if x.emptyset >= threshold && code == 0 {
      return EmptysetAnswer;
    }
    r := Element(ELEMENT_ENCODING[code]);
  }

  /** Lowering the threshold only adds integers to the meaning. */
  lemma LowerThresholdEnlarges(x: Tuple, low: int, high: int, v: int)
    requires low <= high && In(v, ToSign(x, high))
    ensures In(v, ToSign(x, low))
  {
    FoldIsFromAtoms(x, low);
    FoldIsFromAtoms(x, high);
    InByAtoms(v, ToSign(x, low));
    InByAtoms(v, ToSign(x, high));
  }
}
