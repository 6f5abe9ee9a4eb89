/** Maps from keys to signs, shared by the two forward passes.  A key that is absent
    from a fact carries no information, so a join copies the entry of whichever side
    has it. */
module SignFacts {
  import opened SignLattice

  function Joined<K>(x: map<K, Sign>, y: map<K, Sign>): map<K, Sign> {
    map k | k in x.Keys + y.Keys ::
      if k in x && k in y then Lub(x[k], y[k]) else if k in x then x[k] else y[k]
  }

  function Filtered<K>(x: map<K, Sign>, keep: set<K>): map<K, Sign> {
    map k | k in x && k in keep :: x[k]
  }

  ghost predicate Below<K>(x: map<K, Sign>, y: map<K, Sign>) {
    forall k :: k in x ==> k in y && Leq(x[k], y[k])
  }

  ghost predicate Covers<K>(x: map<K, Sign>, k: K, s: Sign) {
    k in x && Leq(s, x[k])
  }

  lemma BelowAntisymmetric<K>(x: map<K, Sign>, y: map<K, Sign>)
    requires Below(x, y) && Below(y, x)
    ensures x == y
  {
    forall k | k in x
      ensures x[k] == y[k]
    {
      LeqAntisymmetric(x[k], y[k]);
    }
  }

  lemma BelowTransitive<K>(x: map<K, Sign>, y: map<K, Sign>, z: map<K, Sign>)
    requires Below(x, y) && Below(y, z)
    ensures Below(x, z)
  {
  }

  /** The join is the least fact above both. */
  lemma JoinedIsLeast<K>(x: map<K, Sign>, y: map<K, Sign>, z: map<K, Sign>)
    ensures Below(x, Joined(x, y)) && Below(y, Joined(x, y))
    ensures Below(x, z) && Below(y, z) ==> Below(Joined(x, y), z)
  {
  }

  /** Joining what is already covered changes nothing. */
  lemma JoinedAbsorbs<K>(x: map<K, Sign>, y: map<K, Sign>)
    requires Below(y, x)
    ensures Joined(x, y) == x
  {
    JoinedIsLeast(x, y, x);
    BelowAntisymmetric(x, Joined(x, y));
  }

  /** What joining one entry makes of a fact. */
  function WithEntry<K>(r: map<K, Sign>, k: K, s: Sign): map<K, Sign> {
    r[k := if k in r then Lub(r[k], s) else s]
  }

  lemma JoinedStep<K>(x: map<K, Sign>, y: map<K, Sign>, done: set<K>, k: K)
    requires k in y && k !in done
    ensures Joined(x, Filtered(y, done + {k})) == WithEntry(Joined(x, Filtered(y, done)), k, y[k])
  {
  }

  lemma JoinedOfNothing<K>(x: map<K, Sign>, y: map<K, Sign>)
    ensures Joined(x, Filtered(y, {})) == x
  {
  }

  lemma FilteredOutside<K>(y: map<K, Sign>, keep: set<K>, done: set<K>)
    requires done * y.Keys == keep * y.Keys
    ensures Filtered(y, done) == Filtered(y, keep)
  {
    assert forall k | k in y :: k in done <==> k in keep * y.Keys;
  }

  /** Joins `y` into `x`, entry by entry, ignoring keys that are not kept. */
  method FilteredJoin<K(==)>(x: map<K, Sign>, y: map<K, Sign>, keep: set<K>) returns (r: map<K, Sign>)
    ensures r == Joined(x, Filtered(y, keep))
  {
    r := x;
    var todo := y.Keys;
    ghost var done := {};
    JoinedOfNothing(x, y);
    while todo != {}
      invariant todo <= y.Keys && done == (y.Keys - todo) * keep
      invariant r == Joined(x, Filtered(y, done))
      decreases todo
    {
      var k :| k in todo;
      if k in keep {
        JoinedStep(x, y, done, k);
        if k in r {
          r := r[k := Join(r[k], y[k])];
        } else {
          r := r[k := y[k]];
        }
        done := done + {k};
      }
      todo := todo - {k};
    }
    FilteredOutside(y, keep, done);
  }

  /** Joins `y` into `x`, entry by entry. */
  method JoinInto<K(==)>(x: map<K, Sign>, y: map<K, Sign>) returns (r: map<K, Sign>)
    ensures r == Joined(x, y)
  {
    r := x;
    var todo := y.Keys;
    ghost var done := {};
    JoinedOfNothing(x, y);
    while todo != {}
      invariant done + todo == y.Keys && done !! todo
      invariant r == Joined(x, Filtered(y, done))
      decreases todo
    {
      var k :| k in todo;
      JoinedStep(x, y, done, k);
      if k in r {
        r := r[k := Join(r[k], y[k])];
      } else {
        r := r[k := y[k]];
      }
      done := done + {k};
      todo := todo - {k};
    }
    assert Filtered(y, done) == y;
  }

  // ----- Height -----

  /** What a fact says about one key: that it is there, and which atoms it allows. */
  datatype Bit = Present | NegativeBit | ZeroBit | PositiveBit

  function Bits(s: Sign): set<Bit> {
    {Present} + (if HasNegative(s) then {NegativeBit} else {})
    + (if HasZero(s) then {ZeroBit} else {}) + (if HasPositive(s) then {PositiveBit} else {})
  }

  function AllBits(): set<Bit> {
    {Present, NegativeBit, ZeroBit, PositiveBit}
  }

  ghost predicate HasBit<K>(x: map<K, Sign>, k: K, bit: Bit) {
    k in x && bit in Bits(x[k])
  }

  /** A fact that grows and changes gains a bit and loses none. */
  lemma GrowthGainsBit<K>(x: map<K, Sign>, y: map<K, Sign>) returns (k: K, bit: Bit)
    requires Below(x, y) && x != y
    ensures k in y && HasBit(y, k, bit) && !HasBit(x, k, bit)
  {
    if y.Keys != x.Keys {
      k :| k in y && k !in x;
      bit := Present;
    } else {
      k :| k in y && x[k] != y[k];
      if !Leq(y[k], x[k]) {
        bit := if HasNegative(y[k]) && !HasNegative(x[k]) then NegativeBit
               else if HasZero(y[k]) && !HasZero(x[k]) then ZeroBit
               else PositiveBit;
      } else {
        LeqAntisymmetric(x[k], y[k]);
      }
    }
  }

  lemma GrowthKeepsBits<K>(x: map<K, Sign>, y: map<K, Sign>, k: K, bit: Bit)
    requires Below(x, y) && HasBit(x, k, bit)
    ensures HasBit(y, k, bit)
  {
  }
}
