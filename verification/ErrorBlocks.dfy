/** The error-blocks pass: the store of error specifications, the two kinds of update it
    receives, and the bottom-up traversal of the call graph.

    Every inferred specification stays within its function's return range and leaves at
    least one returnable sign out; the initial specifications never change; a loop over
    a recursive component ends in each of two regimes. */
module ErrorBlocks {
  import opened SignLattice
  import opened Tuples = ConfidenceLattice
  import opened SpecificationUpdate
  import opened BlockConfidence
  import opened FunctionConfidence
  import BlockVisit

  datatype FunctionInfo = FunctionInfo(isIntrinsic: bool, isVoid: bool, body: Body)

  type Store = map<string, Tuple>

  ghost predicate HasBodies(functions: map<string, FunctionInfo>) {
    forall name | name in functions :: functions[name].body.Valid() && functions[name].body.fn.name == name
  }

  /** The module, the return ranges found for it, and the domain knowledge. A function
      without blocks is external. */
  datatype Program = Program(knowledge: Knowledge, functions: map<string, FunctionInfo>,
                             ranges: map<string, Sign>, initial: Store) {
    ghost predicate Valid() {
      && HasBodies(functions)
      && AllExclusive(initial) && AllBinary(initial)
      && (forall name | name in initial :: !IsUnknown(initial[name]))
    }

    /** Unresolved, intrinsic and void functions, and those with an initial specification. */
    predicate Ignores(name: string) {
      name !in functions || functions[name].isIntrinsic || name in initial || functions[name].isVoid
    }

    /** External functions can return anything. */
    function Range(name: string): Sign {
      if name in ranges then ranges[name] else Top
    }

    function SceneOf(name: string, store: Store): Scene
      requires name in functions
    {
      Scene(knowledge, functions[name].body, store)
    }
  }

  // ----- The store -----

  /** Initial specifications are in the store unchanged, and every other entry was
      inferred for a function that is analysed, and is storable. */
  ghost predicate IsStore(p: Program, store: Store) {
    && (forall name | name in p.initial :: name in store && store[name] == p.initial[name])
    && (forall name | name in store && name !in p.initial ::
          !p.Ignores(name) && IsStorable(store[name], p.Range(name)))
  }

  lemma StoreIsExclusive(p: Program, store: Store)
    requires p.Valid() && IsStore(p, store)
    ensures AllExclusive(store)
  {
    forall name | name in store
      ensures Exclusive(store[name])
    {
      if name !in p.initial {
        assert IsStorable(store[name], p.Range(name));
      }
    }
  }

  lemma StoredIsKept(p: Program, store: Store, name: string)
    requires p.Valid() && IsStore(p, store) && !p.Ignores(name)
    ensures IsKept(Specification(store, name), p.Range(name))
  {
  }

  /** The store after an update of one function. */
  function Stored(p: Program, store: Store, name: string, delta: Tuple): Store {
    if p.Ignores(name) || IsRefused(Specification(store, name), delta, p.Range(name)) then store
    else store[name := Trimmed(Joined(Specification(store, name), delta, p.Range(name)), p.Range(name))]
  }

  /** An update keeps the store invariant, moves only the function it names, and moves
      that one as `Updated` says. */
  lemma StoredKeepsStore(p: Program, store: Store, name: string, delta: Tuple)
    requires p.Valid() && IsStore(p, store) && Exclusive(delta)
    ensures IsStore(p, Stored(p, store, name, delta))
    ensures !p.Ignores(name) ==>
              Specification(Stored(p, store, name, delta), name) ==
              Updated(Specification(store, name), delta, p.Range(name))
    ensures forall other :: other != name || p.Ignores(name) ==>
              Specification(Stored(p, store, name, delta), other) == Specification(store, other)
    ensures Stored(p, store, name, delta) == store <==>
              Specification(Stored(p, store, name, delta), name) == Specification(store, name)
  {
    if !p.Ignores(name) {
      StoredIsKept(p, store, name);
      UpdateKeepsStorable(Specification(store, name), delta, p.Range(name));
    }
  }

  /** A function that is not resolved, has no body of its own, returns nothing, or was
      specified initially. */
  predicate IsLeftAlone(p: Program, name: string) {
    || name !in p.functions || name in p.initial
    || p.functions[name].isIntrinsic || p.functions[name].isVoid
  }

  /** What is stored under a name, if anything. */
  function StoredFor(store: Store, name: string): Tuple {
    if name in store then store[name] else Tuple(0, 0, 0, 0)
  }

  /** What the function can return, as far as that is known. */
  function MayReturn(p: Program, name: string): Sign {
    if name in p.ranges then p.ranges[name] else Top
  }

  /** The function's entry is what the update reaches within the return range, cut down if
      that is the whole range. */
  ghost predicate IsUpdateOf(p: Program, before: Store, name: string, delta: Tuple, after: Store) {
    exists x :: IsReached(StoredFor(before, name), delta, MayReturn(p, name), x) &&
                IsUpdate(StoredFor(before, name), x, MayReturn(p, name), StoredFor(after, name))
  }

  lemma StoredMeans(p: Program, store: Store, name: string, delta: Tuple)
    requires p.Valid() && IsStore(p, store) && Exclusive(delta)
    ensures p.Ignores(name) <==> IsLeftAlone(p, name)
    ensures !IsLeftAlone(p, name) ==> IsUpdateOf(p, store, name, delta, Stored(p, store, name, delta))
  {
    if !p.Ignores(name) {
      StoredIsKept(p, store, name);
      var x := UpdateMeans(StoredFor(store, name), delta, MayReturn(p, name));
      StoredKeepsStore(p, store, name, delta);
    }
  }

  lemma StoredKeepsBinary(p: Program, store: Store, name: string, delta: Tuple)
    requires p.Valid() && IsStore(p, store) && AllBinary(store) && Keeps(delta, true)
    ensures AllBinary(Stored(p, store, name, delta))
  {
    if !p.Ignores(name) {
      StoredIsKept(p, store, name);
      BinaryRankRises(Specification(store, name), delta, p.Range(name));
    }
  }

  /** An uncertain delta leaves the certain signs of every function as they are. */
  lemma UncertainKeepsCertain(p: Program, store: Store, name: string, delta: Tuple, other: string)
    requires p.Valid() && IsStore(p, store) && Exclusive(delta) && Certain(delta) == Bottom
    ensures Certain(Specification(Stored(p, store, name, delta), other)) == Certain(Specification(store, other))
  {
    StoredKeepsStore(p, store, name, delta);
    if !p.Ignores(name) && other == name {
      StoredIsKept(p, store, name);
      CertainUpdate(Specification(store, name), delta, p.Range(name));
      CertainUnmoved(Certain(Specification(store, name)), p.Range(name));
    }
  }

  // ----- One function -----

  ghost function DeltaOf(p: Program, store: Store, codes: set<string>, name: string): Tuple
    requires p.Valid() && name in p.functions
  {
    Delta(p.SceneOf(name, store), codes)
  }

  /** The store after one analysis of a function; an external one is left alone. */
  ghost function StoreAfterRun(p: Program, store: Store, codes: set<string>, name: string): Store
    requires p.Valid() && name in p.functions
  {
    if p.functions[name].body.fn.blocks == [] then store
    else Stored(p, store, name, DeltaOf(p, store, codes, name))
  }

  ghost function CodesAfterRun(p: Program, store: Store, codes: set<string>, name: string): set<string>
    requires p.Valid() && name in p.functions
  {
    CodesAfter(p.SceneOf(name, store), codes)
  }

  lemma RunKeepsStore(p: Program, store: Store, codes: set<string>, name: string)
    requires p.Valid() && IsStore(p, store) && name in p.functions
    ensures IsStore(p, StoreAfterRun(p, store, codes, name))
    ensures AllBinary(store) ==> AllBinary(StoreAfterRun(p, store, codes, name))
    ensures Exclusive(DeltaOf(p, store, codes, name))
  {
    StoreIsExclusive(p, store);
    var delta := DeltaOf(p, store, codes, name);
    DeltaKeeps(p.SceneOf(name, store), codes, false);
    StoredKeepsStore(p, store, name, delta);
    if AllBinary(store) {
      DeltaKeeps(p.SceneOf(name, store), codes, true);
      StoredKeepsBinary(p, store, name, delta);
    }
  }

  // ----- Ranks of a component -----

  /** The two regimes in which a loop over a recursive component is known to end: every
      function in it can return at most two signs, or every stored confidence is none or
      full. */
  ghost predicate InRegime(p: Program, store: Store, members: seq<string>, two: bool) {
    if two then forall name | name in members :: AtMostTwoSigns(p.Range(name)) else AllBinary(store)
  }

  function Rank(two: bool, x: Tuple): int {
    if two then TwoSignRank(x) else BinaryRank(x)
  }

  function Limit(two: bool): int {
    if two then 200 else 4
  }

  /** How far all members together are from the highest rank. */
  function Missing(store: Store, members: seq<string>, two: bool): int {
    if members == [] then 0
    else Limit(two) - Rank(two, Specification(store, members[0])) + Missing(store, members[1..], two)
  }

  lemma {:induction false} MissingBounds(store: Store, members: seq<string>, two: bool)
    ensures 0 <= Missing(store, members, two) <= Limit(two) * |members|
  {
    if members != [] {
      MissingBounds(store, members[1..], two);
    }
  }

  ghost predicate RanksRise(before: Store, after: Store, two: bool) {
    forall name :: Rank(two, Specification(before, name)) <= Rank(two, Specification(after, name))
  }

  lemma {:induction false} MissingShrinks(before: Store, after: Store, members: seq<string>, two: bool, risen: string)
    requires RanksRise(before, after, two)
    ensures Missing(after, members, two) <= Missing(before, members, two)
    ensures risen in members &&
            Rank(two, Specification(before, risen)) < Rank(two, Specification(after, risen)) ==>
              Missing(after, members, two) < Missing(before, members, two)
  {
    if members != [] {
      MissingShrinks(before, after, members[1..], two, risen);
    }
  }

  lemma UpdateRaisesRank(current: Tuple, delta: Tuple, range: Sign, two: bool)
    requires IsKept(current, range) && Exclusive(delta)
    requires if two then AtMostTwoSigns(range) else IsBinary(current) && IsBinary(delta)
    ensures Updated(current, delta, range) != current ==>
              Rank(two, current) < Rank(two, Updated(current, delta, range))
  {
    if two {
      TwoSignRankRises(current, delta, range);
    } else {
      BinaryRankRises(current, delta, range);
    }
  }

  lemma StoredRaisesRanks(p: Program, store: Store, name: string, delta: Tuple, two: bool)
    requires p.Valid() && IsStore(p, store) && !p.Ignores(name) && Keeps(delta, !two)
    requires if two then AtMostTwoSigns(p.Range(name)) else AllBinary(store)
    requires Stored(p, store, name, delta) != store
    ensures var after := Stored(p, store, name, delta);
            && RanksRise(store, after, two)
            && Rank(two, Specification(store, name)) < Rank(two, Specification(after, name))
  {
    StoredIsKept(p, store, name);
    StoredKeepsStore(p, store, name, delta);
    UpdateRaisesRank(Specification(store, name), delta, p.Range(name), two);
  }

  lemma RunRaisesRanks(p: Program, store: Store, codes: set<string>, members: seq<string>, name: string, two: bool)
    requires p.Valid() && IsStore(p, store) && name in members && !p.Ignores(name)
    requires InRegime(p, store, members, two) && StoreAfterRun(p, store, codes, name) != store
    ensures var after := StoreAfterRun(p, store, codes, name);
            && RanksRise(store, after, two)
            && Rank(two, Specification(store, name)) < Rank(two, Specification(after, name))
  {
    StoreIsExclusive(p, store);
    DeltaKeeps(p.SceneOf(name, store), codes, !two);
    StoredRaisesRanks(p, store, name, DeltaOf(p, store, codes, name), two);
  }

  /** A step in one of the regimes stays in it and brings the component nearer to its
      highest rank if it changes anything. */
  ghost predicate Progress(p: Program, before: Store, after: Store, members: seq<string>, two: bool, changed: bool) {
    InRegime(p, before, members, two) ==>
      && InRegime(p, after, members, two)
      && Missing(after, members, two) <= Missing(before, members, two)
      && (changed ==> Missing(after, members, two) < Missing(before, members, two))
  }

  lemma ProgressTransitive(p: Program, x: Store, y: Store, z: Store, members: seq<string>, two: bool, first: bool, second: bool)
    requires Progress(p, x, y, members, two, first) && Progress(p, y, z, members, two, second)
    ensures Progress(p, x, z, members, two, first || second)
  {
  }

  /** Analysing a member makes progress. */
  lemma RunMakesProgress(p: Program, store: Store, codes: set<string>, members: seq<string>, name: string, two: bool)
    requires p.Valid() && IsStore(p, store) && name in members && !p.Ignores(name)
    ensures var after := StoreAfterRun(p, store, codes, name);
            Progress(p, store, after, members, two, after != store)
  {
    var after := StoreAfterRun(p, store, codes, name);
    RunKeepsStore(p, store, codes, name);
    if after != store && InRegime(p, store, members, two) {
      RunRaisesRanks(p, store, codes, members, name, two);
      MissingShrinks(store, after, members, two, name);
    }
  }

  /** The function's analysis, with the codes known at some earlier time, leaves the
      store as it is. */
  ghost predicate IsSettled(p: Program, store: Store, codes: set<string>, name: string)
    requires p.Valid()
  {
    name in p.functions && exists then_ :: then_ <= codes && StoreAfterRun(p, store, then_, name) == store
  }

  /** Without the smart-zero heuristic the codes play no part, so a settled function is
      at a fixpoint. */
  lemma SettledIsFixpoint(p: Program, store: Store, codes: set<string>, name: string)
    requires p.Valid() && IsSettled(p, store, codes, name) && !p.knowledge.smartZero
    ensures forall known :: StoreAfterRun(p, store, known, name) == store
  {
    var then_ :| then_ <= codes && StoreAfterRun(p, store, then_, name) == store;
    forall known
      ensures StoreAfterRun(p, store, known, name) == store
    {
      DeltaIgnoresCodes(p.SceneOf(name, store), known, then_);
    }
  }

  ghost predicate AllSettled(p: Program, store: Store, codes: set<string>, members: seq<string>)
    requires p.Valid()
  {
    forall name | name in members :: IsSettled(p, store, codes, name)
  }

  lemma SettledGrows(p: Program, store: Store, known: set<string>, codes: set<string>, name: string)
    requires p.Valid() && known <= codes && IsSettled(p, store, known, name)
    ensures IsSettled(p, store, codes, name)
  {
  }

  lemma SettledStep(p: Program, store: Store, known: set<string>, codes: set<string>, members: seq<string>, j: nat)
    requires p.Valid() && j < |members| && known <= codes
    requires AllSettled(p, store, known, members[..j]) && IsSettled(p, store, known, members[j])
    ensures AllSettled(p, store, codes, members[..j + 1])
  {
    forall name | name in members[..j + 1]
      ensures IsSettled(p, store, codes, name)
    {
      assert name in members[..j] || name == members[j];
      SettledGrows(p, store, known, codes, name);
    }
  }

  /** A round up to member `j`. */
  ghost predicate RoundSoFar(p: Program, start: Store, now: Store, codes: set<string>, members: seq<string>, j: nat,
                             two: bool, changed: bool)
    requires p.Valid()
  {
    && j <= |members|
    && Progress(p, start, now, members, two, changed)
    && (!changed ==> now == start && AllSettled(p, now, codes, members[..j]))
  }

  lemma RoundStep(p: Program, start: Store, before: Store, after: Store, known: set<string>, codes: set<string>,
                  members: seq<string>, j: nat, two: bool, changed: bool, memberChanged: bool)
    requires p.Valid() && j < |members| && known <= codes
    requires RoundSoFar(p, start, before, known, members, j, two, changed)
    requires Progress(p, before, after, members, two, memberChanged)
    requires !memberChanged ==> after == before && IsSettled(p, after, known, members[j])
    ensures RoundSoFar(p, start, after, codes, members, j + 1, two, memberChanged || changed)
  {
    ProgressTransitive(p, start, before, after, members, two, changed, memberChanged);
    if !changed && !memberChanged {
      SettledStep(p, after, known, codes, members, j);
    }
  }

  /** Some rounds over a component. Each of them but the last has used up a part of what
      the members' ranks were missing. */
  ghost predicate RoundsSoFar(p: Program, start: Store, now: Store, codes: set<string>, members: seq<string>,
                              hasLoop: bool, two: bool, rounds: nat, again: bool)
    requires p.Valid()
  {
    && (InRegime(p, start, members, two) ==> InRegime(p, now, members, two))
    && (hasLoop ==> InRegime(p, now, members, two))
    && (hasLoop ==> rounds + Missing(now, members, two) <= Missing(start, members, two) + (if again then 0 else 1))
    && (!hasLoop ==> rounds == if again then 0 else 1)
    && (!again ==> rounds >= 1 && (hasLoop ==> AllSettled(p, now, codes, members)))
  }

  lemma RoundsStart(p: Program, store: Store, codes: set<string>, members: seq<string>, hasLoop: bool, two: bool)
    requires p.Valid() && (hasLoop ==> InRegime(p, store, members, two))
    ensures RoundsSoFar(p, store, store, codes, members, hasLoop, two, 0, true)
  {
  }

  lemma RoundsEnd(p: Program, start: Store, now: Store, codes: set<string>, members: seq<string>,
                  hasLoop: bool, two: bool, rounds: nat)
    requires p.Valid() && RoundsSoFar(p, start, now, codes, members, hasLoop, two, rounds, false)
    ensures 1 <= rounds <= Limit(two) * |members| + 1 && (!hasLoop ==> rounds == 1)
    ensures InRegime(p, start, members, two) ==> InRegime(p, now, members, two)
    ensures hasLoop ==> AllSettled(p, now, codes, members)
  {
    MissingBounds(start, members, two);
    MissingBounds(now, members, two);
  }

  lemma RoundsStep(p: Program, start: Store, before: Store, after: Store, known: set<string>, codes: set<string>,
                   members: seq<string>, hasLoop: bool, two: bool, rounds: nat, changed: bool)
    requires p.Valid() && RoundsSoFar(p, start, before, known, members, hasLoop, two, rounds, true)
    requires Progress(p, before, after, members, two, changed)
    requires !changed ==> after == before && AllSettled(p, after, codes, members)
    ensures RoundsSoFar(p, start, after, codes, members, hasLoop, two, rounds + 1, hasLoop && changed)
  {
  }

  // ----- Oracle answers -----

  /** A function and the signs the language model attributes to it. */
  datatype Answer = Answer(name: string, sign: Sign)

  const THIRD_PARTY_CONFIDENCE: Confidence := 50

  /** Nine tenths of an average confidence, cut to a whole number. */
  function ModelConfidence(average: Confidence): (c: Confidence)
    ensures 10 * c <= 9 * average < 10 * (c + 1)
  {
    var nineTenths := MAX_CONFIDENCE as real * (0.9 * (average as real / MAX_CONFIDENCE as real));
    assert nineTenths == 9.0 * average as real / 10.0;
    (MAX_CONFIDENCE as real * (0.9 * (average as real / MAX_CONFIDENCE as real))).Floor
  }

  /** The confidence above none that a tuple is left with: that of > 0 before that of == 0
      before that of < 0. */
  function LastOf(t: Tuple): Confidence {
    if t.positive > 0 then t.positive else if t.zero > 0 then t.zero else t.negative
  }

  /** Counts the confidences above none of a tuple, and keeps the last. */
  method LastConfidence(t: Tuple, confidence: Confidence, count: nat) returns (last: Confidence, total: nat)
    ensures total == count + Count(t)
    ensures last == if Count(t) == 0 then confidence else LastOf(t)
  {
    last, total := confidence, count;
    if t.negative > 0 {
      last, total := t.negative, total + 1;
    }
    if t.zero > 0 {
      last, total := t.zero, total + 1;
    }
    if t.positive > 0 {
      last, total := t.positive, total + 1;
    }
  }

  /** The confidence is the last one above none that the tuple has, in the order < 0, == 0
      and > 0. */
  ghost predicate IsLast(c: Confidence, t: Tuple) {
    && c > 0
    && ((forall k :: k > 0 ==> At(t, k) == c)
        || ((forall k :: k > 0 ==> At(t, k) == 0) && At(t, 0) == c)
        || ((forall k :: k >= 0 ==> At(t, k) == 0) && forall k :: k < 0 ==> At(t, k) == c))
  }

  lemma LastMeans(t: Tuple)
    requires Count(t) > 0
    ensures IsLast(LastOf(t), t)
  {
  }

  /** The functions and signs (by their samples) that have a confidence. */
  function Confident(store: Store, names: set<string>): set<(string, int)> {
    set name, k | name in names && k in {-1, 0, 1} && At(Specification(store, name), k) > 0 :: (name, k)
  }

  lemma OneConfident(store: Store, name: string)
    ensures var t := Specification(store, name);
            Confident(store, {name}) ==
              (if t.negative > 0 then {(name, -1)} else {}) + (if t.zero > 0 then {(name, 0)} else {}) +
              (if t.positive > 0 then {(name, 1)} else {})
  {
  }

  lemma CountIsSize(store: Store, name: string)
    ensures Count(Specification(store, name)) == |Confident(store, {name})|
  {
    OneConfident(store, name);
    var t := Specification(store, name);
    var n: set<(string, int)> := if t.negative > 0 then {(name, -1)} else {};
    var z: set<(string, int)> := if t.zero > 0 then {(name, 0)} else {};
    var p: set<(string, int)> := if t.positive > 0 then {(name, 1)} else {};
    assert n !! z && n + z !! p;
    assert |n + z| == |n| + |z| && |n + z + p| == |n + z| + |p|;
  }

  lemma ConfidentSplit(store: Store, names: set<string>, name: string)
    requires name in names
    ensures |Confident(store, names)| == |Confident(store, {name})| + |Confident(store, names - {name})|
  {
    var one, rest := Confident(store, {name}), Confident(store, names - {name});
    assert Confident(store, names) == one + rest;
    assert one !! rest;
  }

  lemma {:induction false} TotalIsSize(store: Store, names: set<string>)
    ensures Total(store, names) == |Confident(store, names)|
    decreases |names|
  {
    if names == {} {
      assert Confident(store, names) == {};
    } else {
      var name :| name in names;
      TotalWithout(store, names, name);
      TotalIsSize(store, names - {name});
      CountIsSize(store, name);
      ConfidentSplit(store, names, name);
    }
  }

  /** How many confidences above none some functions have together. */
  ghost function Total(store: Store, names: set<string>): nat
    decreases |names|
  {
    if names == {} then 0
    else
      var name :| name in names;
      Count(Specification(store, name)) + Total(store, names - {name})
  }

  lemma {:induction false} TotalWithout(store: Store, names: set<string>, name: string)
    requires name in names
    ensures Total(store, names) == Count(Specification(store, name)) + Total(store, names - {name})
    decreases |names|
  {
    var first :| first in names && Total(store, names) == Count(Specification(store, first)) + Total(store, names - {first});
    if first != name {
      TotalWithout(store, names - {first}, name);
      TotalWithout(store, names - {name}, first);
      assert names - {first} - {name} == names - {name} - {first};
    }
  }

  /** A confidence divided by a count is a confidence. */
  function Share(c: Confidence, n: nat): (share: Confidence)
    requires n > 0
    ensures share <= c
  {
    c / n
  }

  /** The last confidence of a function that has one, divided by how many there are. */
  ghost predicate IsShareOf(share: int, store: Store, names: set<string>, name: string) {
    && name in names && Count(Specification(store, name)) > 0 && Total(store, names) > 0
    && share == Share(LastOf(Specification(store, name)), Total(store, names))
  }

  /** None if the functions have no confidence, and else a share of one of theirs. */
  ghost predicate IsAverage(average: int, store: Store, names: set<string>) {
    if Total(store, names) == 0 then average == 0 else exists name :: IsShareOf(average, store, names, name)
  }

  /** None if no function has a confidence; else the last confidence of one of them, divided
      by how many confidences they have together, and cut to a whole number. */
  ghost predicate IsCutShare(average: Confidence, store: Store, names: set<string>) {
    var n := |Confident(store, names)|;
    if n == 0 then average == 0
    else
      exists name, last: Confidence ::
        name in names && IsLast(last, Specification(store, name)) && IsQuotient(average, last, n)
  }

  ghost predicate IsQuotient(q: int, x: int, n: int) {
    n * q <= x < n * (q + 1)
  }

  lemma ShareIsQuotient(c: Confidence, n: nat)
    requires n > 0
    ensures IsQuotient(Share(c, n), c, n)
  {
  }

  lemma AverageMeans(average: Confidence, store: Store, names: set<string>)
    requires IsAverage(average, store, names)
    ensures IsCutShare(average, store, names)
  {
    TotalIsSize(store, names);
    if Total(store, names) > 0 {
      var name :| IsShareOf(average, store, names, name);
      LastMeans(Specification(store, name));
      ShareIsQuotient(LastOf(Specification(store, name)), Total(store, names));
    }
  }

  /** What an answer becomes. An answer of "no signs" is read as a half-confident "no
      error values". */
  function AnswerTuple(sign: Sign, average: Confidence): Tuple {
    if sign == Bottom then Tuple(0, 0, 0, 50) else Scaled(sign, 0, ModelConfidence(average))
  }

  /** A tuple that gives an answer about a function with a body: its signs, and no others,
      have nine tenths of the average, and an answer of no signs is half of "no errors". */
  ghost predicate IsAnswerAt(sign: Sign, average: Confidence, t: Tuple) {
    if forall k :: !In(k, sign) then t.emptyset == 50 && forall k :: At(t, k) == 0
    else
      && t.emptyset == 0 && (forall k | !In(k, sign) :: At(t, k) == 0)
      && forall k | In(k, sign) :: 10 * At(t, k) <= 9 * average < 10 * (At(t, k) + 1)
  }

  /** About an external function every sign of the answer has half confidence. */
  ghost predicate IsThirdPartyAnswer(sign: Sign, t: Tuple) {
    t.emptyset == 0 && forall k :: At(t, k) == if In(k, sign) then 50 else 0
  }

  lemma NoSignsIsBottom(sign: Sign)
    ensures sign == Bottom <==> forall k :: !In(k, sign)
  {
    assert In(-1, sign) || In(0, sign) || In(1, sign) || sign == Bottom;
  }

  lemma AnswersMean(sign: Sign, average: Confidence)
    ensures IsAnswerAt(sign, average, AnswerTuple(sign, average))
    ensures IsThirdPartyAnswer(sign, Scaled(sign, 0, THIRD_PARTY_CONFIDENCE))
  {
    NoSignsIsBottom(sign);
    forall k
      ensures At(Scaled(sign, 0, ModelConfidence(average)), k) == if In(k, sign) then ModelConfidence(average) else 0
      ensures At(Scaled(sign, 0, THIRD_PARTY_CONFIDENCE), k) == if In(k, sign) then 50 else 0
    {
      ScaledAt(sign, 0, ModelConfidence(average), k);
      ScaledAt(sign, 0, THIRD_PARTY_CONFIDENCE, k);
    }
  }

  /** If nine tenths of the average are more than none, the signs of the answer are exactly
      the signs with a confidence. */
  lemma AnswerHasItsSigns(sign: Sign, average: Confidence)
    requires average >= 2 && exists k :: In(k, sign)
    ensures Support(AnswerTuple(sign, average)) == sign
  {
    AnswersMean(sign, average);
    CoversMeans(AnswerTuple(sign, average), sign);
  }

  lemma AnswersAreUncertain(sign: Sign, average: Confidence)
    ensures Exclusive(AnswerTuple(sign, average)) && Certain(AnswerTuple(sign, average)) == Bottom
    ensures Exclusive(Scaled(sign, 0, THIRD_PARTY_CONFIDENCE)) &&
            Certain(Scaled(sign, 0, THIRD_PARTY_CONFIDENCE)) == Bottom
    ensures IsEvent(Model(AnswerTuple(sign, average))) && IsEvent(Model(Scaled(sign, 0, THIRD_PARTY_CONFIDENCE)))
  {
  }

  // ----- Initial specifications -----

  /** Full confidence in the signs of an initial specification, or in there being none. */
  function InitialTuple(sign: Sign): Tuple {
    FromSign(sign, if sign == Bottom then MAX_CONFIDENCE else 0)
  }

  /** Full confidence in exactly the signs that are given, or in there being none. */
  ghost predicate IsInitialOf(sign: Sign, t: Tuple) {
    && (forall k :: At(t, k) == if In(k, sign) then 100 else 0)
    && t.emptyset == if exists k :: In(k, sign) then 0 else 100
  }

  lemma InitialMeans(sign: Sign)
    ensures IsInitialOf(sign, InitialTuple(sign))
  {
    NoSignsIsBottom(sign);
    forall k
      ensures At(InitialTuple(sign), k) == if In(k, sign) then 100 else 0
    {
      ScaledAt(sign, if sign == Bottom then MAX_CONFIDENCE else 0, 0, k);
    }
    ScaledAt(sign, if sign == Bottom then MAX_CONFIDENCE else 0, 0, 0);
  }

  /** The request is the last one about its function. */
  ghost predicate IsLastRequest(requests: seq<Answer>, i: nat) {
    i < |requests| && forall j :: i < j < |requests| ==> requests[j].name != requests[i].name
  }

  /** A later specification of the same function replaces an earlier one. */
  function Seeded(requests: seq<Answer>): Store
    decreases |requests|
  {
    if requests == [] then map[]
    else
      var last := requests[|requests| - 1];
      Seeded(requests[..|requests| - 1])[last.name := InitialTuple(last.sign)]
  }

  ghost predicate IsSeed(store: Store) {
    forall name | name in store :: Keeps(store[name], true) && !IsUnknown(store[name])
  }

  lemma LastRequestBefore(requests: seq<Answer>, i: nat)
    requires i + 1 < |requests| && requests[|requests| - 1].name != requests[i].name
    ensures IsLastRequest(requests, i) <==> IsLastRequest(requests[..|requests| - 1], i)
  {
    var before := requests[..|requests| - 1];
    assert forall j :: i < j < |before| ==> requests[j] == before[j];
  }

  /** A function is seeded if and only if it was requested, with its last request. */
  lemma {:induction false} SeededMeans(requests: seq<Answer>, name: string)
    ensures name in Seeded(requests) <==> exists i: nat :: IsLastRequest(requests, i) && requests[i].name == name
    ensures forall i: nat :: IsLastRequest(requests, i) && requests[i].name == name ==>
                               name in Seeded(requests) && IsInitialOf(requests[i].sign, Seeded(requests)[name])
    decreases |requests|
  {
    if requests != [] {
      var n := |requests| - 1;
      if requests[n].name == name {
        InitialMeans(requests[n].sign);
        assert IsLastRequest(requests, n);
      } else {
        SeededMeans(requests[..n], name);
        forall i: nat | i < n && requests[i].name == name
          ensures IsLastRequest(requests, i) <==> IsLastRequest(requests[..n], i)
        {
          LastRequestBefore(requests, i);
        }
      }
    }
  }

  method Seed(requests: seq<Answer>) returns (initial: Store)
    ensures forall name :: name in initial <==> exists i: nat :: IsLastRequest(requests, i) && requests[i].name == name
    ensures forall i: nat | IsLastRequest(requests, i) ::
              requests[i].name in initial && IsInitialOf(requests[i].sign, initial[requests[i].name])
    ensures initial == Seeded(requests) && IsSeed(initial)
  {
    forall name
      ensures name in Seeded(requests) <==> exists i: nat :: IsLastRequest(requests, i) && requests[i].name == name
      ensures forall i: nat :: IsLastRequest(requests, i) && requests[i].name == name ==>
                                 name in Seeded(requests) && IsInitialOf(requests[i].sign, Seeded(requests)[name])
    {
      SeededMeans(requests, name);
    }
    initial := map[];
    var k := 0;
    while k < |requests|
      invariant k <= |requests| && initial == Seeded(requests[..k]) && IsSeed(initial)
    {
      assert requests[..k + 1][..k] == requests[..k];
      initial := initial[requests[k].name := InitialTuple(requests[k].sign)];
      k := k + 1;
    }
    assert requests[..|requests|] == requests;
  }

  // ----- Histories -----

  /** Everything that changes the state of the pass: an analysis of one function, or one
      update by the model. */
  datatype Action = Visit(name: string) | Expand(name: string, delta: Tuple)

  datatype State = State(store: Store, codes: set<string>)

  ghost function After(p: Program, st: State, action: Action): State
    requires p.Valid()
  {
    match action
    case Visit(name) =>
      if name in p.functions
      then State(StoreAfterRun(p, st.store, st.codes, name), CodesAfterRun(p, st.store, st.codes, name))
      else st
    case Expand(name, delta) => st.(store := Stored(p, st.store, name, delta))
  }

  /** The state that a history leads to from the initial specifications. */
  ghost function Replay(p: Program, history: seq<Action>): State
    requires p.Valid()
    decreases |history|
  {
    if history == [] then State(p.initial, {})
    else After(p, Replay(p, history[..|history| - 1]), history[|history| - 1])
  }

  lemma ReplayOneMore(p: Program, history: seq<Action>, action: Action)
    requires p.Valid()
    ensures Replay(p, history + [action]) == After(p, Replay(p, history), action)
  {
    assert (history + [action])[..|history|] == history;
  }

  ghost predicate IsPossible(action: Action) {
    action.Expand? ==> Exclusive(action.delta)
  }

  /** Safety over every run: after any sequence of analyses and updates by the model, in
      any order, the initial specifications are unchanged and every other one is storable. */
  lemma {:induction false} EveryHistoryKeepsStore(p: Program, history: seq<Action>)
    requires p.Valid() && forall action | action in history :: IsPossible(action)
    ensures IsStore(p, Replay(p, history).store)
    decreases |history|
  {
    if history != [] {
      var before := history[..|history| - 1];
      EveryHistoryKeepsStore(p, before);
      var st := Replay(p, before);
      match history[|history| - 1]
      case Visit(name) =>
        if name in p.functions {
          RunKeepsStore(p, st.store, st.codes, name);
        }
      case Expand(name, delta) =>
        assert IsPossible(Expand(name, delta));
        StoredKeepsStore(p, st.store, name, delta);
    }
  }

  function Visits(members: seq<string>): (r: seq<Action>)
    ensures |r| == |members|
  {
    seq(|members|, i requires 0 <= i < |members| => Visit(members[i]))
  }

  function Repeated(actions: seq<Action>, n: nat): seq<Action> {
    if n == 0 then [] else Repeated(actions, n - 1) + actions
  }

  /** What the pass makes of an answer about an external function; one of "no signs" is
      skipped. */
  function ThirdPartyAction(answer: Answer): seq<Action> {
    if answer.sign == Bottom then [] else [Expand(answer.name, Scaled(answer.sign, 0, THIRD_PARTY_CONFIDENCE))]
  }

  function ThirdPartyActions(answers: seq<Answer>): seq<Action>
    decreases |answers|
  {
    if answers == [] then []
    else ThirdPartyActions(answers[..|answers| - 1]) + ThirdPartyAction(answers[|answers| - 1])
  }

  /** The actions follow the answers in order: one for each answer that names a sign. */
  ghost predicate FollowThirdParty(answers: seq<Answer>, actions: seq<Action>)
    decreases |answers|
  {
    if answers == [] then actions == []
    else
      var n := |answers| - 1;
      if forall k :: !In(k, answers[n].sign) then FollowThirdParty(answers[..n], actions)
      else
        && actions != [] && FollowThirdParty(answers[..n], actions[..|actions| - 1])
        && var last := actions[|actions| - 1];
           last.Expand? && last.name == answers[n].name && IsThirdPartyAnswer(answers[n].sign, last.delta)
  }

  lemma {:induction false} ThirdPartyActionsFollow(answers: seq<Answer>)
    ensures FollowThirdParty(answers, ThirdPartyActions(answers))
    decreases |answers|
  {
    if answers != [] {
      var n := |answers| - 1;
      ThirdPartyActionsFollow(answers[..n]);
      NoSignsIsBottom(answers[n].sign);
      AnswersMean(answers[n].sign, 0);
      var actions := ThirdPartyActions(answers);
      if answers[n].sign != Bottom {
        assert actions[..|actions| - 1] == ThirdPartyActions(answers[..n]);
      } else {
        assert actions == ThirdPartyActions(answers[..n]);
      }
    }
  }

  /** What the first `k` answers have added to a history. */
  ghost predicate HasAdded(before: seq<Action>, answers: seq<Answer>, k: nat, after: seq<Action>) {
    k <= |answers| && after == before + ThirdPartyActions(answers[..k])
  }

  lemma NothingAdded(history: seq<Action>, answers: seq<Answer>)
    ensures HasAdded(history, answers, 0, history)
  {
  }

  lemma AllAdded(before: seq<Action>, answers: seq<Answer>, after: seq<Action>)
    requires HasAdded(before, answers, |answers|, after)
    ensures after == before + ThirdPartyActions(answers)
  {
    assert answers[..|answers|] == answers;
  }

  lemma ThirdPartyPrefix(answers: seq<Answer>, k: nat, before: seq<Action>, now: seq<Action>)
    requires k < |answers| && HasAdded(before, answers, k, now)
    ensures HasAdded(before, answers, k + 1, now + ThirdPartyAction(answers[k]))
  {
    assert answers[..k + 1][..k] == answers[..k];
    assert before + (ThirdPartyActions(answers[..k]) + ThirdPartyAction(answers[k])) ==
           before + ThirdPartyActions(answers[..k]) + ThirdPartyAction(answers[k]);
  }

  /** What it makes of the answers about a function with a body. */
  function ExpandAction(answer: Answer, average: Confidence): Action {
    Expand(answer.name, AnswerTuple(answer.sign, average))
  }

  function ExpandActions(answers: seq<Answer>, average: Confidence): (r: seq<Action>)
    ensures |r| == |answers|
  {
    seq(|answers|, i requires 0 <= i < |answers| => ExpandAction(answers[i], average))
  }

  /** The actions follow the answers about a function with a body, one for each. */
  ghost predicate FollowAnswers(answers: seq<Answer>, average: Confidence, actions: seq<Action>) {
    && |actions| == |answers|
    && forall i | 0 <= i < |actions| ::
         && actions[i].Expand? && actions[i].name == answers[i].name
         && IsAnswerAt(answers[i].sign, average, actions[i].delta)
  }

  lemma ExpandActionsFollow(answers: seq<Answer>, average: Confidence)
    ensures FollowAnswers(answers, average, ExpandActions(answers, average))
  {
    forall i | 0 <= i < |answers|
      ensures IsAnswerAt(answers[i].sign, average, ExpandActions(answers, average)[i].delta)
    {
      AnswersMean(answers[i].sign, average);
    }
  }

  lemma ExpandPrefix(answers: seq<Answer>, average: Confidence, k: nat, before: seq<Action>)
    requires k < |answers|
    ensures before + ExpandActions(answers, average)[..k] + [ExpandAction(answers[k], average)] ==
            before + ExpandActions(answers, average)[..k + 1]
  {
    assert ExpandActions(answers, average)[..k + 1] ==
           ExpandActions(answers, average)[..k] + [ExpandAction(answers[k], average)];
  }

  /** A function without a body is not expanded. */
  function MemberActions(p: Program, name: string, answers: seq<Answer>, share: Confidence): seq<Action>
    requires name in p.functions
  {
    if p.functions[name].body.fn.blocks == [] then [] else ExpandActions(answers, share)
  }

  lemma VisitsPrefix(members: seq<string>, j: nat, before: seq<Action>)
    requires j < |members|
    ensures before + Visits(members)[..j] + [Visit(members[j])] == before + Visits(members)[..j + 1]
  {
    assert Visits(members)[..j + 1] == Visits(members)[..j] + [Visit(members[j])];
  }

  lemma RepeatedOneMore(actions: seq<Action>, n: nat, before: seq<Action>)
    ensures before + Repeated(actions, n) + actions == before + Repeated(actions, n + 1)
  {
    assert before + Repeated(actions, n) + actions == before + (Repeated(actions, n) + actions);
  }

  ghost predicate AreExpansions(actions: seq<Action>) {
    forall action | action in actions :: action.Expand? && IsEvent(Model(action.delta))
  }

  /** The members of a component that are analysed at all. */
  function Kept(p: Program, members: seq<string>): (r: seq<string>)
    ensures forall name :: name in r <==> name in members && !p.Ignores(name)
    ensures |r| <= |members|
    decreases |members|
  {
    if members == [] then []
    else
      var last := members[|members| - 1];
      Kept(p, members[..|members| - 1]) + (if p.Ignores(last) then [] else [last])
  }

  /** A strongly connected component of the call graph, and whether it has a loop. */
  datatype Component = Component(members: seq<string>, hasLoop: bool)

  /** What one traversal did: the rounds over each component, and the expansions after it. */
  datatype Stage = Stage(rounds: nat, expansions: seq<Action>)

  ghost predicate IsStage(component: Component, stage: Stage, useModel: bool) {
    && stage.rounds >= 1 && (!component.hasLoop ==> stage.rounds == 1)
    && AreExpansions(stage.expansions) && (!useModel ==> stage.expansions == [])
  }

  /** Component after component, rounds and then expansions. */
  ghost function Traversal(p: Program, components: seq<Component>, stages: seq<Stage>): seq<Action>
    requires |components| == |stages|
    decreases |components|
  {
    if components == [] then []
    else
      var k := |components| - 1;
      Traversal(p, components[..k], stages[..k]) +
      Repeated(Visits(Kept(p, components[k].members)), stages[k].rounds) + stages[k].expansions
  }

  lemma ExpansionsAreUncertain(p: Program, name: string, answers: seq<Answer>, average: Confidence)
    requires name in p.functions
    ensures AreExpansions(MemberActions(p, name, answers, average))
  {
    forall action | action in ExpandActions(answers, average)
      ensures action.Expand? && IsEvent(Model(action.delta))
    {
      var i :| 0 <= i < |answers| && ExpandActions(answers, average)[i] == action;
      AnswersAreUncertain(answers[i].sign, average);
    }
  }

  lemma MoreExpansions(before: seq<Action>, expansions: seq<Action>, actions: seq<Action>)
    requires AreExpansions(expansions) && AreExpansions(actions)
    ensures before + expansions + actions == before + (expansions + actions)
    ensures AreExpansions(expansions + actions)
  {
  }

  /** Every component with a loop has functions that can return at most two signs, or no
      model is asked at all. */
  ghost predicate LoopsEnd(p: Program, components: seq<Component>, alone: bool) {
    forall c | c in components && c.hasLoop :: alone || HasTwoSigns(p, c.members)
  }

  ghost predicate HasTwoSigns(p: Program, members: seq<string>) {
    forall name | name in members && !p.Ignores(name) :: AtMostTwoSigns(p.Range(name))
  }

  lemma StageRegime(p: Program, store: Store, components: seq<Component>, k: nat, alone: bool)
    requires k < |components| && LoopsEnd(p, components, alone) && (alone ==> AllBinary(store))
    ensures components[k].hasLoop ==> InRegime(p, store, Kept(p, components[k].members), !alone)
  {
    assert components[k] in components;
  }

  /** A history of a traversal: the answers about external functions, then the stages. */
  ghost predicate IsTraversal(p: Program, history: seq<Action>, thirdParty: seq<Answer>, components: seq<Component>,
                              stages: seq<Stage>, useModel: bool)
  {
    && |stages| == |components|
    && (forall k | 0 <= k < |stages| :: IsStage(components[k], stages[k], useModel))
    && history == ThirdPartyActions(thirdParty) + Traversal(p, components, stages)
  }

  lemma TraversalOneMore(p: Program, history: seq<Action>, thirdParty: seq<Answer>, components: seq<Component>, k: nat,
                         stages: seq<Stage>, useModel: bool, stage: Stage)
    requires k < |components| && IsTraversal(p, history, thirdParty, components[..k], stages, useModel)
    requires IsStage(components[k], stage, useModel)
    ensures var rounds := Repeated(Visits(Kept(p, components[k].members)), stage.rounds);
            IsTraversal(p, history + rounds + stage.expansions, thirdParty, components[..k + 1], stages + [stage], useModel)
  {
    assert components[..k + 1][..k] == components[..k];
    assert (stages + [stage])[..k] == stages;
    var rounds := Repeated(Visits(Kept(p, components[k].members)), stage.rounds);
    Regroup(ThirdPartyActions(thirdParty), Traversal(p, components[..k], stages), rounds, stage.expansions);
  }

  lemma Regroup<T>(a: seq<T>, b: seq<T>, c: seq<T>, d: seq<T>)
    ensures a + (b + c + d) == a + b + c + d
  {
  }

  // ----- Uncertain updates -----

  /** No function has gained or lost a certain sign. */
  ghost predicate SameCertain(before: Store, after: Store) {
    forall name :: Certain(Specification(before, name)) == Certain(Specification(after, name))
  }

  // ----- The pass -----

  class ErrorBlocksPass {
    const p: Program
    var store: Store
    var codes: set<string>
    var called: map<string, set<string>>
    ghost var history: seq<Action>

    ghost predicate Sound()
      reads this
    {
      p.Valid() && IsStore(p, store)
    }

    /** The state is the one that the history leads to. */
    ghost predicate Valid()
      reads this
    {
      Sound() && Replay(p, history) == State(store, codes)
    }

    /** The initial specifications are kept aside and bootstrap the store. */
    constructor (knowledge: Knowledge, functions: map<string, FunctionInfo>, ranges: map<string, Sign>,
                 requests: seq<Answer>)
      requires HasBodies(functions)
      ensures Valid() && p == Program(knowledge, functions, ranges, Seeded(requests))
      ensures store == p.initial && codes == {} && called == map[] && history == []
    {
      var initial := Seed(requests);
      p := Program(knowledge, functions, ranges, initial);
      store, codes, called, history := initial, {}, map[], [];
    }

    /** One update: the delta is cut to the return range and joined with what is stored;
        a tuple that would claim the whole range is trimmed or refused. */
    method Update(name: string, delta: Tuple) returns (changed: bool)
      requires Sound() && Exclusive(delta)
      modifies `store
      ensures forall other | other != name ::
                (other in store <==> other in old(store)) && (other in store ==> store[other] == old(store)[other])
      ensures IsLeftAlone(p, name) ==> store == old(store)
      ensures !IsLeftAlone(p, name) ==> IsUpdateOf(p, old(store), name, delta, store)
      ensures Sound() && store == Stored(p, old(store), name, delta)
      ensures changed == (store != old(store))
    {
      StoredKeepsStore(p, store, name, delta);
      StoredMeans(p, store, name, delta);
      if p.Ignores(name) {
        return false;
      }
      var range := p.Range(name);
      var current := Specification(store, name);
      var next := Intersection(delta, range);
      if !IsUnknown(current) {
        next := Tuples.Join(current, next);
      }
      if MaxEquals(next, range) {
        return false;
      }
      if Equals(next, range) {
        next := RemoveLowest(next);
        if Equals(next, range) {
          next := KeepIfMax(next);
        }
      }
      if IsUnknown(next) {
        return false;
      }
      store := store[name := next];
      changed := current != next;
    }

    method VisitBlock(name: string, b: nat) returns (r: Tuple)
      requires Sound() && name in p.functions && b < |p.functions[name].body.fn.blocks|
      modifies `codes, `called
      ensures r == BlockTuple(p.SceneOf(name, store), old(codes), b)
      ensures codes == CodesAfterBlock(p.SceneOf(name, store), old(codes), b)
      ensures forall other | other in old(called) ::
                other in called && old(called)[other] <= called[other]
      ensures name in called && CalledIn(p.functions[name].body.fn, b, |p.functions[name].body.fn.blocks[b]|) <= called[name]
    {
      var names;
      r, codes, names := BlockVisit.VisitBlock(p.SceneOf(name, store), codes, b);
      called := called[name := (if name in called then called[name] else {}) + names];
    }

    /** Visits one more block, with the codes found before it. */
    method VisitNext(name: string, visited: seq<Tuple>, ghost start: set<string>) returns (more: seq<Tuple>)
      requires Sound() && name in p.functions && |visited| < |p.functions[name].body.fn.blocks|
      requires Visited(p.SceneOf(name, store), start, codes, visited, |visited|)
      modifies `codes, `called
      ensures |more| == |visited| + 1 && Visited(p.SceneOf(name, store), start, codes, more, |more|)
    {
      var t := VisitBlock(name, |visited|);
      more := visited + [t];
      VisitedOneMore(p.SceneOf(name, store), start, old(codes), visited, t, codes, more);
    }

    /** Visits every block of a function in order. */
    method VisitBlocks(name: string) returns (blocks: seq<Tuple>)
      requires Sound() && name in p.functions
      modifies `codes, `called
      ensures blocks == BlockTuples(p.SceneOf(name, store), old(codes), |p.functions[name].body.fn.blocks|)
      ensures codes == CodesAfterRun(p, store, old(codes), name)
    {
      blocks := [];
      while |blocks| < |p.functions[name].body.fn.blocks|
        invariant |blocks| <= |p.functions[name].body.fn.blocks|
        invariant Visited(p.SceneOf(name, store), old(codes), codes, blocks, |blocks|)
      {
        blocks := VisitNext(name, blocks, old(codes));
      }
    }

    method CombineBlocks(blocks: seq<Tuple>) returns (r: Tuple)
      ensures r == Combined(blocks)
    {
      var a := new Tuple[|blocks|](i requires 0 <= i < |blocks| => blocks[i]);
      assert a[..] == blocks;
      r := Combine(a);
    }

    /** Analyses every block of a function, combines their confidences and updates the
        function with the result. */
    method RunOnFunction(name: string) returns (changed: bool)
      requires Valid() && name in p.functions
      modifies this
      ensures Valid() && history == old(history) + [Visit(name)]
      ensures p.functions[name].body.fn.blocks == [] || IsLeftAlone(p, name) ==> store == old(store)
      ensures p.functions[name].body.fn.blocks != [] && !IsLeftAlone(p, name) ==>
                IsUpdateOf(p, old(store), name,
                           Delta(Scene(p.knowledge, p.functions[name].body, old(store)), old(codes)), store)
      ensures store == StoreAfterRun(p, old(store), old(codes), name)
      ensures codes == CodesAfter(Scene(p.knowledge, p.functions[name].body, old(store)), old(codes))
      ensures changed == (store != old(store))
    {
      RunKeepsStore(p, store, codes, name);
      ReplayOneMore(p, history, Visit(name));
      history := history + [Visit(name)];
      var blocks := VisitBlocks(name);
      if blocks == [] {
        return false;
      }
      var combined := CombineBlocks(blocks);
      if DropsZero(p.SceneOf(name, store), codes) {
        combined := Tuples.Difference(combined, FromSign(Zero, 0));
      }
      changed := Update(name, combined);
    }

    /** One member of a component: a change is progress, and without a change the member
        is settled for the codes known at its turn. */
    method RunMember(members: seq<string>, name: string, ghost two: bool) returns (changed: bool)
      requires Valid() && name in members && !p.Ignores(name)
      modifies this
      ensures Valid() && history == old(history) + [Visit(name)] && old(codes) <= codes
      ensures Progress(p, old(store), store, members, two, changed)
      ensures !changed ==> store == old(store) && IsSettled(p, store, old(codes), name)
    {
      changed := RunOnFunction(name);
      CodesOnlyGrow(p.SceneOf(name, old(store)), old(codes), |p.functions[name].body.fn.blocks|);
      RunMakesProgress(p, old(store), old(codes), members, name, two);
    }

    /** One round over a component. A round that changes nothing has seen every member
        settle, with the codes known when it was its turn. */
    method RunRound(members: seq<string>, ghost two: bool) returns (changed: bool)
      requires Valid() && forall name | name in members :: !p.Ignores(name)
      modifies this
      ensures Valid() && history == old(history) + Visits(members) && old(codes) <= codes
      ensures Progress(p, old(store), store, members, two, changed)
      ensures !changed ==> store == old(store) && AllSettled(p, store, codes, members)
    {
      changed := false;
      var j := 0;
      while j < |members|
        invariant j <= |members| && Valid() && old(codes) <= codes
        invariant history == old(history) + Visits(members)[..j]
        invariant RoundSoFar(p, old(store), store, codes, members, j, two, changed)
      {
        ghost var before, known := store, codes;
        var functionChanged := RunMember(members, members[j], two);
        RoundStep(p, old(store), before, store, known, codes, members, j, two, changed, functionChanged);
        VisitsPrefix(members, j, old(history));
        changed := functionChanged || changed;
        j := j + 1;
      }
      assert members[..|members|] == members && Visits(members)[..|members|] == Visits(members);
    }

    /** Selects the members that are analysed at all. */
    method Analysed(members: seq<string>) returns (kept: seq<string>)
      ensures kept == Kept(p, members)
    {
      kept := [];
      var j := 0;
      while j < |members|
        invariant j <= |members| && kept == Kept(p, members[..j])
      {
        assert members[..j + 1][..j] == members[..j];
        if !p.Ignores(members[j]) {
          kept := kept + [members[j]];
        }
        j := j + 1;
      }
      assert members[..|members|] == members;
    }

    /** One more round over a component, and whether there must be another. */
    method NextRound(members: seq<string>, hasLoop: bool, ghost two: bool, ghost start: Store,
                     ghost startHistory: seq<Action>, ghost rounds: nat)
      returns (again: bool)
      requires Valid() && forall name | name in members :: !p.Ignores(name)
      requires history == startHistory + Repeated(Visits(members), rounds)
      requires RoundsSoFar(p, start, store, codes, members, hasLoop, two, rounds, true)
      modifies this
      ensures Valid() && old(codes) <= codes
      ensures history == startHistory + Repeated(Visits(members), rounds + 1)
      ensures RoundsSoFar(p, start, store, codes, members, hasLoop, two, rounds + 1, again)
      ensures again ==> hasLoop && 0 <= Missing(store, members, two) < Missing(old(store), members, two)
    {
      RepeatedOneMore(Visits(members), rounds, startHistory);
      var changed := RunRound(members, two);
      RoundsStep(p, start, old(store), store, old(codes), codes, members, hasLoop, two, rounds, changed);
      MissingBounds(store, members, two);
      again := hasLoop && changed;
    }

    /** Rounds over a component until one changes nothing; a single one if the component
        has no loop. In either regime there are at most `Limit * |members| + 1` rounds. */
    method RunOnComponent(members: seq<string>, hasLoop: bool, ghost two: bool) returns (ghost rounds: nat)
      requires Valid() && forall name | name in members :: !p.Ignores(name)
      requires hasLoop ==> InRegime(p, store, members, two)
      modifies this
      ensures Valid() && old(codes) <= codes
      ensures history == old(history) + Repeated(Visits(members), rounds)
      ensures 1 <= rounds <= Limit(two) * |members| + 1 && (!hasLoop ==> rounds == 1)
      ensures InRegime(p, old(store), members, two) ==> InRegime(p, store, members, two)
      ensures hasLoop ==> AllSettled(p, store, codes, members)
    {
      rounds := 0;
      RoundsStart(p, store, codes, members, hasLoop, two);
      var again := true;
      while again
        invariant Valid() && old(codes) <= codes
        invariant history == old(history) + Repeated(Visits(members), rounds)
        invariant RoundsSoFar(p, old(store), store, codes, members, hasLoop, two, rounds, again)
        decreases again, if hasLoop then Missing(store, members, two) else 0
      {
        again := NextRound(members, hasLoop, two, old(store), old(history), rounds);
        rounds := rounds + 1;
      }
      RoundsEnd(p, old(store), store, codes, members, hasLoop, two, rounds);
    }

    /** An update whose delta is not certain of anything. */
    method UpdateUncertain(name: string, delta: Tuple) returns (changed: bool)
      requires Valid() && Exclusive(delta) && Certain(delta) == Bottom
      modifies `store, `history
      ensures Valid() && store == Stored(p, old(store), name, delta) && SameCertain(old(store), store)
      ensures history == old(history) + [Expand(name, delta)]
      ensures changed == (store != old(store))
    {
      ReplayOneMore(p, history, Expand(name, delta));
      history := history + [Expand(name, delta)];
      forall other
        ensures Certain(Specification(Stored(p, store, name, delta), other)) == Certain(Specification(store, other))
      {
        UncertainKeepsCertain(p, store, name, delta, other);
      }
      changed := Update(name, delta);
    }

    /** One answer about an external function. */
    method ExpandThirdParty(answer: Answer) returns (changed: bool)
      requires Valid()
      modifies `store, `history
      ensures Valid() && history == old(history) + ThirdPartyAction(answer)
      ensures SameCertain(old(store), store) && changed == (store != old(store))
    {
      changed := false;
      if answer.sign != Bottom {
        AnswersAreUncertain(answer.sign, 0);
        changed := UpdateUncertain(answer.name, Scaled(answer.sign, 0, THIRD_PARTY_CONFIDENCE));
      }
    }

    /** Asks the oracle about external functions, and updates with what it says. */
    method LlmExpandThirdParty(answers: seq<Answer>) returns (updated: bool)
      requires Valid()
      modifies `store, `history
      ensures Valid() && SameCertain(old(store), store)
      ensures history == old(history) + ThirdPartyActions(answers)
      ensures store != old(store) ==> updated
      ensures answers == [] ==> store == old(store)
    {
      updated := false;
      NothingAdded(history, answers);
      var k := 0;
      while k < |answers|
        invariant k <= |answers| && Valid() && SameCertain(old(store), store)
        invariant HasAdded(old(history), answers, k, history)
        invariant store != old(store) ==> updated
        invariant k == 0 ==> store == old(store)
      {
        ThirdPartyPrefix(answers, k, old(history), history);
        var changed := ExpandThirdParty(answers[k]);
        updated := changed || updated;
        k := k + 1;
      }
      AllAdded(old(history), answers, history);
    }

    /** How many confidences above none the callees have, and the last one that is met. */
    method CountConfidences(callees: set<string>) returns (last: Confidence, count: nat, ghost from: string)
      ensures count == Total(store, callees)
      ensures count > 0 ==>
                from in callees && Count(Specification(store, from)) > 0 && last == LastOf(Specification(store, from))
    {
      last, count, from := 0, 0, "";
      var todo := callees;
      while todo != {}
        invariant todo <= callees && count + Total(store, todo) == Total(store, callees)
        invariant count > 0 ==>
                    from in callees && Count(Specification(store, from)) > 0 && last == LastOf(Specification(store, from))
        decreases |todo|
      {
        var callee :| callee in todo;
        TotalWithout(store, todo, callee);
        ghost var before := count;
        last, count := LastConfidence(Specification(store, callee), last, count);
        if count > before {
          from := callee;
        }
        todo := todo - {callee};
      }
    }

    /** The last confidence, divided by the count. Which one is last depends on the order
        of the callees, so this is no average. */
    method AverageConfidence(callees: set<string>) returns (average: Confidence)
      ensures IsAverage(average, store, callees) && IsCutShare(average, store, callees)
    {
      var last, count, from := CountConfidences(callees);
      average := if count != 0 then Share(last, count) else 0;
      assert count != 0 ==> IsShareOf(average, store, callees, from);
      AverageMeans(average, store, callees);
    }

    /** One answer about a function with a body. */
    method ExpandOne(answer: Answer, average: Confidence) returns (changed: bool)
      requires Valid()
      modifies `store, `history
      ensures Valid() && history == old(history) + [ExpandAction(answer, average)]
      ensures SameCertain(old(store), store) && changed == (store != old(store))
    {
      AnswersAreUncertain(answer.sign, average);
      changed := UpdateUncertain(answer.name, AnswerTuple(answer.sign, average));
    }

    /** The answers about a function with a body, one after the other. */
    method ExpandAll(answers: seq<Answer>, average: Confidence) returns (updated: bool)
      requires Valid()
      modifies `store, `history
      ensures Valid() && SameCertain(old(store), store)
      ensures history == old(history) + ExpandActions(answers, average)
    {
      updated := false;
      var k := 0;
      while k < |answers|
        invariant k <= |answers| && Valid() && SameCertain(old(store), store)
        invariant history == old(history) + ExpandActions(answers, average)[..k]
      {
        var changed := ExpandOne(answers[k], average);
        ExpandPrefix(answers, average, k, old(history));
        updated := changed || updated;
        k := k + 1;
      }
      assert ExpandActions(answers, average)[..|answers|] == ExpandActions(answers, average);
    }

    /** Asks the oracle about a function with a body, at nine tenths of the average
        confidence of its callees. */
    method LlmExpand(name: string, answers: seq<Answer>) returns (updated: bool, ghost share: Confidence)
      requires Valid() && name in p.functions
      modifies `store, `history
      ensures Valid() && SameCertain(old(store), store)
      ensures history == old(history) + MemberActions(p, name, answers, share)
      ensures p.functions[name].body.fn.blocks != [] ==>
                IsCutShare(share, old(store), if name in called then called[name] else {})
      ensures p.functions[name].body.fn.blocks == [] ==> store == old(store) && history == old(history) && !updated
    {
      updated, share := false, 0;
      if p.functions[name].body.fn.blocks != [] {
        var average := AverageConfidence(if name in called then called[name] else {});
        share := average;
        updated := ExpandAll(answers, average);
      }
    }

    /** The members that no specification and no code is known for. */
    method Unresolved(members: seq<string>) returns (rest: seq<string>)
      ensures forall name :: name in rest <==>
                name in members && name !in codes && IsUnknown(Specification(store, name))
    {
      rest := [];
      var j := 0;
      while j < |members|
        invariant j <= |members|
        invariant forall name :: name in rest <==>
                    name in members[..j] && name !in codes && IsUnknown(Specification(store, name))
      {
        var t := Specification(store, members[j]);
        assert members[..j + 1] == members[..j] + [members[j]];
        if !(members[j] in codes || IsEmptyset(t) || !IsUnknown(t)) {
          rest := rest + [members[j]];
        }
        j := j + 1;
      }
      assert members[..|members|] == members;
    }

    /** Expands one member with the answers there are about it. */
    method ExpandMember(name: string, answers: map<string, seq<Answer>>) returns (ghost actions: seq<Action>)
      requires Valid() && name in p.functions
      modifies `store, `history
      ensures Valid() && SameCertain(old(store), store)
      ensures history == old(history) + actions && AreExpansions(actions)
    {
      var toAsk := if name in answers then answers[name] else [];
      var updated, share := LlmExpand(name, toAsk);
      ExpansionsAreUncertain(p, name, toAsk, share);
      actions := MemberActions(p, name, toAsk, share);
    }

    /** Expands what is still unresolved in a component. */
    method LlmExpandComponent(members: seq<string>, answers: map<string, seq<Answer>>)
      returns (ghost expansions: seq<Action>)
      requires Valid() && forall name | name in members :: !p.Ignores(name)
      modifies `store, `history
      ensures Valid() && SameCertain(old(store), store)
      ensures history == old(history) + expansions && AreExpansions(expansions)
    {
      var rest := Unresolved(members);
      expansions := [];
      var j := 0;
      while j < |rest|
        invariant j <= |rest| && Valid() && SameCertain(old(store), store)
        invariant history == old(history) + expansions && AreExpansions(expansions)
      {
        assert rest[j] in rest;
        ghost var actions := ExpandMember(rest[j], answers);
        MoreExpansions(old(history), expansions, actions);
        expansions := expansions + actions;
        j := j + 1;
      }
    }

    /** Rounds over one component, then its expansion if a model is in use. */
    method RunStage(component: Component, useModel: bool, answers: map<string, seq<Answer>>, ghost two: bool)
      returns (ghost stage: Stage)
      requires Valid()
      requires component.hasLoop ==> InRegime(p, store, Kept(p, component.members), two)
      modifies this
      ensures Valid() && IsStage(component, stage, useModel)
      ensures history == old(history) +
                Repeated(Visits(Kept(p, component.members)), stage.rounds) + stage.expansions
      ensures !useModel && AllBinary(old(store)) && !two ==> AllBinary(store)
    {
      var members := Analysed(component.members);
      ghost var rounds := RunOnComponent(members, component.hasLoop, two);
      ghost var expansions := [];
      if useModel {
        expansions := LlmExpandComponent(members, answers);
      }
      stage := Stage(rounds, expansions);
    }

    /** One more component of the traversal. */
    method RunNext(ghost thirdParty: seq<Answer>, components: seq<Component>, k: nat, useModel: bool,
                   answers: map<string, seq<Answer>>, ghost stages: seq<Stage>, ghost alone: bool)
      returns (ghost more: seq<Stage>)
      requires Valid() && k < |components| && LoopsEnd(p, components, alone) && (alone ==> AllBinary(store) && !useModel)
      requires IsTraversal(p, history, thirdParty, components[..k], stages, useModel)
      modifies this
      ensures Valid() && IsTraversal(p, history, thirdParty, components[..k + 1], more, useModel)
      ensures alone ==> AllBinary(store)
    {
      StageRegime(p, store, components, k, alone);
      ghost var before := history;
      var stage := RunStage(components[k], useModel, answers, !alone);
      TraversalOneMore(p, before, thirdParty, components, k, stages, useModel, stage);
      more := stages + [stage];
    }

    /** The traversal: external functions first, then the components bottom-up, each
        followed by its expansion if a model is in use. Every loop must be in a regime:
        its functions can return at most two signs, or no model is asked at all. */
    method RunOnModule(thirdParty: seq<Answer>, components: seq<Component>, useModel: bool,
                       answers: map<string, seq<Answer>>)
      returns (ghost stages: seq<Stage>)
      requires Valid() && history == [] && store == p.initial
      requires LoopsEnd(p, components, thirdParty == [] && !useModel)
      modifies this
      ensures Valid() && IsTraversal(p, history, thirdParty, components, stages, useModel)
      ensures thirdParty == [] && !useModel ==> AllBinary(store)
    {
      var updated := LlmExpandThirdParty(thirdParty);
      ghost var alone := thirdParty == [] && !useModel;
      stages := [];
      var k := 0;
      while k < |components|
        invariant k <= |components| && Valid()
        invariant IsTraversal(p, history, thirdParty, components[..k], stages, useModel)
        invariant alone ==> AllBinary(store)
      {
        stages := RunNext(thirdParty, components, k, useModel, answers, stages, alone);
        k := k + 1;
      }
      assert components[..|components|] == components;
    }

    /** One entry of the response; an initial specification is as it was given. */
    method GetSpecification(name: string) returns (r: (Sign, Tuple))
      requires Valid() && name in store
      ensures r == (Support(store[name]), store[name]) && !IsUnknown(store[name])
    {
      if name in p.initial {
        assert store[name] == p.initial[name];
      }
      ThresholdOneIsSupport(store[name]);
      r := (ToSign(store[name], 1), store[name]);
    }

    /** The response: every specification, with the initial ones as they were given. */
    method GetSpecifications() returns (r: map<string, (Sign, Tuple)>)
      requires Valid()
      ensures r.Keys == store.Keys
      ensures forall name | name in r :: r[name] == (Support(store[name]), store[name])
    {
      r := map[];
      var todo := store.Keys;
      while todo != {}
        invariant todo <= store.Keys && r.Keys == store.Keys - todo
        invariant forall name | name in r :: r[name] == (Support(store[name]), store[name])
        decreases |todo|
      {
        var name :| name in todo;
        if !IsUnknown(store[name]) {
          var entry := GetSpecification(name);
          r := r[name := entry];
        }
        todo := todo - {name};
      }
    }
  }
}
