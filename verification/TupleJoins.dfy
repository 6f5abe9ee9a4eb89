/** Joins of whole sets of confidence tuples. A join has no order: it is determined by
    the set, one component at a time. */
module TupleJoins {
  import opened Tuples = ConfidenceLattice
  import opened IR

  predicate Bounds(r: Tuple, t: Tuple) {
    r.zero >= t.zero && r.negative >= t.negative && r.positive >= t.positive && r.emptyset <= t.emptyset
  }

  /** Each component of `r` bounds that of every tuple of the set, and some tuple has it. */
  ghost predicate IsJoinOf(r: Tuple, s: set<Tuple>) {
    && (forall t | t in s :: Bounds(r, t))
    && (exists t | t in s :: t.zero == r.zero)
    && (exists t | t in s :: t.negative == r.negative)
    && (exists t | t in s :: t.positive == r.positive)
    && (exists t | t in s :: t.emptyset == r.emptyset)
  }

  lemma JoinIsUnique(x: Tuple, y: Tuple, s: set<Tuple>)
    requires IsJoinOf(x, s) && IsJoinOf(y, s)
    ensures x == y
  {
    assert forall t | t in s :: Bounds(x, t) && Bounds(y, t);
  }

  lemma JoinOfOne(t: Tuple)
    ensures IsJoinOf(t, {t})
  {
    assert t in {t};
  }

  lemma JoinOfUnion(x: Tuple, s: set<Tuple>, y: Tuple, t: set<Tuple>)
    requires IsJoinOf(x, s) && IsJoinOf(y, t)
    ensures IsJoinOf(Join(x, y), s + t) && IsJoinOf(Join(y, x), s + t)
  {
    var r := Join(x, y);
    assert r == Join(y, x);
    forall u | u in s + t
      ensures Bounds(r, u)
    {
      assert (u in s && Bounds(x, u)) || (u in t && Bounds(y, u));
    }
    assert forall u | u in s :: u in s + t;
    assert forall u | u in t :: u in s + t;
  }

  lemma JoinWithOne(x: Tuple, s: set<Tuple>, t: Tuple)
    requires IsJoinOf(x, s)
    ensures IsJoinOf(Join(t, x), s + {t})
  {
    JoinOfOne(t);
    JoinOfUnion(x, s, t, {t});
  }

  /** The join of a set. */
  ghost function JoinSet(s: set<Tuple>): (r: Tuple)
    requires s != {}
    ensures IsJoinOf(r, s)
  {
    var t :| t in s;
    if s == {t} then
      JoinOfOne(t);
      t
    else
      var rest := s - {t};
      assert s == rest + {t};
      JoinWithOne(JoinSet(rest), rest, t);
      Join(t, JoinSet(rest))
  }

  /** A join of tuples that are each exclusive is exclusive. */
  lemma JoinSetIsExclusive(r: Tuple, s: set<Tuple>)
    requires IsJoinOf(r, s) && forall t | t in s :: Exclusive(t)
    ensures Exclusive(r)
  {
    if r.emptyset > 0 {
      forall t | t in s
        ensures t.zero == 0 && t.negative == 0 && t.positive == 0
      {
        assert Bounds(r, t) && Exclusive(t);
      }
    }
  }

  lemma JoinSetIsBinary(r: Tuple, s: set<Tuple>)
    requires IsJoinOf(r, s) && forall t | t in s :: IsBinary(t)
    ensures IsBinary(r)
  {
  }

  // ----- Joins over keys -----

  /** The tuples that some keys contribute. */
  ghost function Collected<K(!new)>(f: K -> Option<Tuple>, keys: set<K>): set<Tuple> {
    set k | k in keys && f(k).Some? :: f(k).value
  }

  /** One more key: its tuple, if it has one, is joined in. */
  lemma CollectOne<K(!new)>(f: K -> Option<Tuple>, done: set<K>, k: K, base: set<Tuple>, r: Tuple)
    requires IsJoinOf(r, base + Collected(f, done))
    ensures IsJoinOf(if f(k).Some? then Join(f(k).value, r) else r, base + Collected(f, done + {k}))
  {
    var before := base + Collected(f, done);
    if f(k).Some? {
      JoinWithOne(r, before, f(k).value);
      assert base + Collected(f, done + {k}) == before + {f(k).value};
    } else {
      assert Collected(f, done + {k}) == Collected(f, done);
    }
  }

  lemma SameCollected<K(!new)>(f: K -> Option<Tuple>, g: K -> Option<Tuple>, keys: set<K>)
    requires forall k | k in keys :: f(k) == g(k)
    ensures Collected(f, keys) == Collected(g, keys)
  {
  }
}
