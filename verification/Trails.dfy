/** What can be reached step by step from a start. */
module Trails {
  ghost predicate IsTrail<T(!new)>(starts: T -> bool, steps: (T, T) -> bool, trail: seq<T>) {
    && trail != [] && starts(trail[0])
    && forall k :: 0 <= k < |trail| - 1 ==> steps(trail[k], trail[k + 1])
  }

  ghost predicate Reaches<T(!new)>(starts: T -> bool, steps: (T, T) -> bool, t: T) {
    exists trail :: IsTrail(starts, steps, trail) && trail[|trail| - 1] == t
  }

  lemma ReachesStart<T(!new)>(starts: T -> bool, steps: (T, T) -> bool, t: T)
    requires starts(t)
    ensures Reaches(starts, steps, t)
  {
    assert IsTrail(starts, steps, [t]);
  }

  lemma ReachesNext<T(!new)>(starts: T -> bool, steps: (T, T) -> bool, s: T, t: T)
    requires Reaches(starts, steps, s) && steps(s, t)
    ensures Reaches(starts, steps, t)
  {
    var trail :| IsTrail(starts, steps, trail) && trail[|trail| - 1] == s;
    var longer := trail + [t];
    forall k | 0 <= k < |longer| - 1
      ensures steps(longer[k], longer[k + 1])
    {
      assert k < |trail| - 1 ==> steps(trail[k], trail[k + 1]);
    }
    assert IsTrail(starts, steps, longer);
  }

  /** What is reached is a start, or is reached by a step. */
  lemma ReachedFrom<T(!new)>(starts: T -> bool, steps: (T, T) -> bool, t: T)
    requires Reaches(starts, steps, t)
    ensures starts(t) || exists s :: Reaches(starts, steps, s) && steps(s, t)
  {
    var trail :| IsTrail(starts, steps, trail) && trail[|trail| - 1] == t;
    if |trail| > 1 {
      var shorter := trail[..|trail| - 1];
      assert IsTrail(starts, steps, shorter);
      var s := shorter[|shorter| - 1];
      assert Reaches(starts, steps, s) && steps(s, trail[|trail| - 1]);
    }
  }
}
