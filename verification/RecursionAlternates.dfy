/** A loop over a recursive component need not end. The function of `RecursiveExample` goes
    back and forth between two specifications, once the language model has said that its
    callee `h` fails with a negative value. */
module RecursionAlternates {
  import opened SignLattice
  import opened Tuples = ConfidenceLattice
  import opened TupleJoins
  import opened Cardinality
  import opened IR
  import opened BlockConfidence
  import opened FunctionConfidence
  import opened SpecificationUpdate
  import opened ErrorBlocks
  import opened RecursiveExample
  import RC = ReturnConstraints

  // ----- What its blocks say -----

  const H_SAYS := Tuple(0, 50, 0, 0)
  const ZERO_FAILS := Tuple(100, 0, 0, 0)

  /** 0 is an error code, and the smart-zero heuristic is off. */
  function KnownCodes(): Knowledge {
    Knowledge({}, map[0 := {}], map[], false)
  }

  function BodyOf(fn: Function): Body {
    Body(fn, "", ReturnedFacts(fn), HeldFacts(fn), ConstraintFacts(fn), {}, {Point(0, 0), Point(2, 0)})
  }

  /** `f` is judged with half confidence in `h` failing with a negative value. */
  ghost predicate IsExample(s: Scene) {
    && s.Valid() && IsF(s.body.fn) && s.body == BodyOf(s.body.fn) && s.knowledge == KnownCodes()
    && Specification(s.specifications, "h") == H_SAYS && Specification(s.specifications, "f").emptyset == 0
  }

  lemma SeveralReturned(s: Scene, b: nat)
    requires IsExample(s) && (b == 0 || b == 2)
    ensures OnlyReturned(s.body, b) == None
  {
    BlockIsPoint(s.body.fn, b);
    assert s.body.returned[Point(b, 0)] == Returned(Point(b, 0));
    TwoElements(Returned(Point(b, 0)), ConstInt(0), ConstInt(1));
  }

  lemma CallsOf(s: Scene, codes: set<string>, b: nat)
    requires IsExample(s) && (b == 0 || b == 2)
    ensures CallsUpTo(s, codes, b, 3) == {EMPTYSET, UNKNOWN}
  {
    assert OrdinaryCall(s, b, 0) == UNKNOWN;
    assert CallsUpTo(s, codes, b, 0) == {EMPTYSET};
    assert CallsUpTo(s, codes, b, 1) == {EMPTYSET, UNKNOWN};
    assert CallsUpTo(s, codes, b, 2) == {EMPTYSET, UNKNOWN};
  }

  lemma CallSaysNothing(s: Scene, codes: set<string>, b: nat)
    requires IsExample(s) && (b == 0 || b == 2)
    ensures BlockTuple(s, codes, b) == UNKNOWN
  {
    SeveralReturned(s, b);
    CallsOf(s, codes, b);
    JoinOfTwo(UNKNOWN);
  }

  /** "No errors" gives way to anything else. */
  lemma JoinOfTwo(t: Tuple)
    requires t.emptyset == 0
    ensures JoinSet({EMPTYSET, t}) == t
  {
    assert EMPTYSET in {EMPTYSET, t} && t in {EMPTYSET, t};
    JoinIsUnique(JoinSet({EMPTYSET, t}), t, {EMPTYSET, t});
  }

  lemma JoinOfThree(t: Tuple)
    requires t.emptyset == 0
    ensures JoinSet({EMPTYSET, UNKNOWN, t}) == t
  {
    var all := {EMPTYSET, UNKNOWN, t};
    assert EMPTYSET in all && UNKNOWN in all && t in all;
    JoinIsUnique(JoinSet(all), t, all);
  }

  lemma JoinOfFour(t: Tuple)
    requires t.negative == 0 && t.positive == 0 && t.emptyset == 0
    ensures JoinSet({EMPTYSET, ZERO_FAILS, UNKNOWN, t}) == ZERO_FAILS
  {
    var all := {EMPTYSET, ZERO_FAILS, UNKNOWN, t};
    assert EMPTYSET in all && ZERO_FAILS in all && UNKNOWN in all && t in all;
    JoinIsUnique(JoinSet(all), ZERO_FAILS, all);
  }

  lemma BlockIsPoint(fn: Function, b: nat)
    requires b < |fn.blocks|
    ensures IsPoint(fn, Point(b, 0)) && IsPoint(fn, End(fn, b))
  {
  }

  ghost predicate OnlyReturns(s: Scene, b: nat, v: Value)
    requires s.Valid()
  {
    && b < |s.body.fn.blocks| && s.body.fn.blocks[b] == [Ret(v)]
    && s.body.returned[Point(b, 0)] == {v} && v.ConstInt? && v !in s.body.held[End(s.body.fn, b)]
  }

  lemma OnlyReturnsContributes(s: Scene, codes: set<string>, b: nat, v: Value)
    requires s.Valid() && OnlyReturns(s, b, v) && !KindOf(s, codes, v).SuccessCode?
    ensures var constraints := s.body.constraints[End(s.body.fn, b)];
            BlockContributions(s, codes, b) ==
            {EMPTYSET} + CodeContributions(s, codes, v) +
            ConstraintContributions(s, CodesAfterKind(s, codes, v), v, Unheld, constraints)
  {
    assert !s.body.fn.blocks[b][0].Call?;
    assert CallsUpTo(s, codes, b, 0) == {EMPTYSET};
    assert CallsUpTo(s, codes, b, 1) == {EMPTYSET};
    assert OnlyReturned(s.body, b) == Some(v);
    assert OriginOf(s.body, b, v) == Unheld;
  }

  lemma ReturnsOnly(s: Scene, b: nat, k: int)
    requires IsExample(s) && b < 5 && IsReturn(s.body.fn, b, k)
    ensures OnlyReturns(s, b, ConstInt(k))
    ensures s.body.constraints[End(s.body.fn, b)] == Constraints(Point(b, 1))
  {
    BlockIsPoint(s.body.fn, b);
    assert s.body.returned[Point(b, 0)] == Returned(Point(b, 0)) == {ConstInt(k)};
    assert s.body.held[Point(b, 1)] == Held(Point(b, 1));
  }

  lemma Kinds(s: Scene, codes: set<string>)
    requires IsExample(s)
    ensures KindOf(s, codes, ConstInt(0)) == ErrorCode && ErrorValue(s, 0) == ZERO_FAILS
    ensures KindOf(s, codes, ConstInt(-1)) == NoCode && KindOf(s, codes, ConstInt(1)) == NoCode
  {
  }

  /** What a constraint on `name` makes of a returned constant. */
  function Said(s: Scene, k: int, name: string, sign: Sign): Tuple {
    var inter := Intersection(Specification(s.specifications, name), sign);
    if IsUnknown(inter) then UNKNOWN else ForInteger(k, inter)
  }

  lemma ConstraintSays(s: Scene, codes: set<string>, k: int, name: string, sign: Sign)
    requires IsExample(s) && (name == "h" || name == "f") && sign != Top
    ensures ConstraintContribution(s, codes, ConstInt(k), Unheld, name, sign) == Some(Said(s, k, name, sign))
  {
  }

  lemma CollectedFromTwo(f: string -> Option<Tuple>, x: string, y: string, t: Tuple, u: Tuple)
    requires f(x) == Some(t) && f(y) == Some(u)
    ensures Collected(f, {x, y}) == {t, u}
  {
  }

  /** What one or two constraints contribute. */
  lemma ConstraintsSay(s: Scene, codes: set<string>, k: int, x: string, y: string, constraints: RC.Fact)
    requires IsExample(s) && (x == "h" || x == "f") && (y == "h" || y == "f")
    requires constraints.Keys == {x, y} && constraints[x] != Top && constraints[y] != Top
    ensures ConstraintContributions(s, codes, ConstInt(k), Unheld, constraints) ==
            {Said(s, k, x, constraints[x]), Said(s, k, y, constraints[y])}
  {
    ConstraintSays(s, codes, k, x, constraints[x]);
    ConstraintSays(s, codes, k, y, constraints[y]);
    var f := Contributor(s, codes, ConstInt(k), Unheld, constraints);
    CollectedFromTwo(f, x, y, Said(s, k, x, constraints[x]), Said(s, k, y, constraints[y]));
  }

  lemma ConstraintsAtReturns()
    ensures Constraints(Point(1, 1)) == map["h" := LessThanZero]
    ensures Constraints(Point(3, 1)) == map["h" := GreaterThanEqualZero, "f" := LessThanZero]
    ensures Constraints(Point(4, 1)) == map["h" := GreaterThanEqualZero, "f" := GreaterThanEqualZero]
  {
  }

  lemma ReturnSays(s: Scene, codes: set<string>, b: nat, k: int, x: string, y: string)
    requires IsExample(s) && b < 5 && IsReturn(s.body.fn, b, k) && (k == -1 || k == 1 || k == 0)
    requires (x == "h" || x == "f") && (y == "h" || y == "f")
    requires var at := Constraints(Point(b, 1)); at.Keys == {x, y} && at[x] != Top && at[y] != Top
    ensures var at := Constraints(Point(b, 1));
            BlockContributions(s, codes, b) ==
            {EMPTYSET} + (if k == 0 then {ZERO_FAILS} else {}) + {Said(s, k, x, at[x]), Said(s, k, y, at[y])}
  {
    var at := Constraints(Point(b, 1));
    ReturnsOnly(s, b, k);
    Kinds(s, codes);
    OnlyReturnsContributes(s, codes, b, ConstInt(k));
    ConstraintsSay(s, CodesAfterKind(s, codes, ConstInt(k)), k, x, y, at);
  }

  lemma FirstReturn(s: Scene, codes: set<string>)
    requires IsExample(s)
    ensures BlockTuple(s, codes, 1) == H_SAYS
  {
    ConstraintsAtReturns();
    ReturnSays(s, codes, 1, -1, "h", "h");
    assert Said(s, -1, "h", LessThanZero) == H_SAYS;
    assert BlockContributions(s, codes, 1) == {EMPTYSET, H_SAYS};
    JoinOfTwo(H_SAYS);
  }

  /** What the second return says: 1 is an error with the confidence that a negative
      result of `f` is one. */
  function Second(negative: Confidence): Tuple {
    Tuple(0, 0, negative, 0)
  }

  lemma WhatIsSaid(s: Scene, k: int)
    requires IsExample(s)
    ensures Said(s, k, "h", GreaterThanEqualZero) == UNKNOWN
    ensures Said(s, 1, "f", LessThanZero) == Second(Specification(s.specifications, "f").negative)
    ensures var t := Said(s, 0, "f", GreaterThanEqualZero); t.negative == 0 && t.positive == 0 && t.emptyset == 0
  {
  }

  lemma SecondReturn(s: Scene, codes: set<string>)
    requires IsExample(s)
    ensures BlockTuple(s, codes, 3) == Second(Specification(s.specifications, "f").negative)
  {
    ConstraintsAtReturns();
    ReturnSays(s, codes, 3, 1, "h", "f");
    WhatIsSaid(s, 1);
    var second := Second(Specification(s.specifications, "f").negative);
    assert BlockContributions(s, codes, 3) == {EMPTYSET, UNKNOWN, second};
    JoinOfThree(second);
  }

  lemma LastReturn(s: Scene, codes: set<string>)
    requires IsExample(s)
    ensures BlockTuple(s, codes, 4) == ZERO_FAILS
  {
    ConstraintsAtReturns();
    ReturnSays(s, codes, 4, 0, "h", "f");
    WhatIsSaid(s, 0);
    var last := Said(s, 0, "f", GreaterThanEqualZero);
    assert BlockContributions(s, codes, 4) == {EMPTYSET, ZERO_FAILS, UNKNOWN, last};
    JoinOfFour(last);
  }

  lemma CombinedBlocks(negative: Confidence)
    ensures Combined([UNKNOWN, H_SAYS, UNKNOWN, Second(negative), ZERO_FAILS]) == Tuple(100, 50, negative, 0)
  {
    var blocks := [UNKNOWN, H_SAYS, UNKNOWN, Second(negative), ZERO_FAILS];
    assert blocks[0] in blocks && blocks[1] in blocks && blocks[3] in blocks && blocks[4] in blocks;
    var all := {UNKNOWN} + Informative(blocks);
    assert all == {UNKNOWN, H_SAYS, Second(negative), ZERO_FAILS};
    assert UNKNOWN in all && H_SAYS in all && Second(negative) in all && ZERO_FAILS in all;
    JoinIsUnique(JoinSet(all), Tuple(100, 50, negative, 0), all);
  }

  function Negative(s: Scene): Confidence {
    Specification(s.specifications, "f").negative
  }

  /** What each block says. */
  function AllSaid(negative: Confidence): (r: seq<Tuple>)
    ensures |r| == 5
  {
    [UNKNOWN, H_SAYS, UNKNOWN, Second(negative), ZERO_FAILS]
  }

  lemma BlockSays(s: Scene, codes: set<string>, b: nat)
    requires IsExample(s) && b < 5
    ensures BlockTuple(s, codes, b) == AllSaid(Negative(s))[b]
  {
    if b == 1 {
      FirstReturn(s, codes);
    } else if b == 3 {
      SecondReturn(s, codes);
    } else if b == 4 {
      LastReturn(s, codes);
    } else {
      CallSaysNothing(s, codes, b);
    }
  }

  lemma NextBlock(s: Scene, codes: set<string>, n: nat)
    requires s.Valid() && n < |s.body.fn.blocks|
    ensures BlockTuples(s, codes, n + 1) == BlockTuples(s, codes, n) + [BlockTuple(s, CodesAfterBlocks(s, codes, n), n)]
  {
  }

  lemma NextBlockSays(s: Scene, codes: set<string>, n: nat)
    requires IsExample(s) && n < 5 && BlockTuples(s, codes, n) == AllSaid(Negative(s))[..n]
    ensures BlockTuples(s, codes, n + 1) == AllSaid(Negative(s))[..n + 1]
  {
    NextBlock(s, codes, n);
    BlockSays(s, CodesAfterBlocks(s, codes, n), n);
  }

  lemma {:induction false} BlocksSay(s: Scene, codes: set<string>, n: nat)
    requires IsExample(s) && n <= 5
    ensures BlockTuples(s, codes, n) == AllSaid(Negative(s))[..n]
  {
    if n > 0 {
      BlocksSay(s, codes, n - 1);
      NextBlockSays(s, codes, n - 1);
    }
  }

  lemma AllBlocksSay(s: Scene, codes: set<string>)
    requires IsExample(s)
    ensures BlockTuples(s, codes, |s.body.fn.blocks|) == AllSaid(Negative(s))
  {
    BlocksSay(s, codes, |s.body.fn.blocks|);
  }

  lemma DeltaWithoutHeuristic(s: Scene, codes: set<string>)
    requires s.Valid() && !s.knowledge.smartZero
    ensures Delta(s, codes) == Combined(BlockTuples(s, codes, |s.body.fn.blocks|))
  {
  }

  lemma ExampleDelta(s: Scene, codes: set<string>)
    requires IsExample(s)
    ensures Delta(s, codes) == Tuple(100, 50, Negative(s), 0)
  {
    DeltaWithoutHeuristic(s, codes);
    AllBlocksSay(s, codes);
    CombinedBlocks(Negative(s));
  }

  // ----- The analysis of the program -----

  function External(name: string): Body {
    Body(Function(name, ReturnsInteger, []), "", map[], map[], map[], {}, {})
  }

  /** `f` and the external `h`; nothing is known initially. */
  function ProgramOf(fn: Function): Program {
    Program(KnownCodes(),
            map["f" := FunctionInfo(false, false, BodyOf(fn)), "h" := FunctionInfo(false, false, External("h"))],
            map["f" := Top], map[])
  }

  function Example(): Program {
    ProgramOf(F())
  }

  lemma ProgramIsValid(fn: Function)
    requires IsF(fn)
    ensures ProgramOf(fn).Valid()
  {
    BlocksAreWellFormed(fn);
  }

  const LOW := Tuple(100, 50, 0, 0)
  const HIGH := Tuple(100, 0, 0, 0)

  ghost predicate Stores(store: Store, t: Tuple) {
    Specification(store, "h") == H_SAYS && Specification(store, "f") == t
  }

  lemma StoredGives(p: Program, store: Store, name: string, delta: Tuple, other: string)
    requires !p.Ignores(name) && other != name
    ensures Specification(Stored(p, store, name, delta), name) ==
            Updated(Specification(store, name), delta, p.Range(name))
    ensures Specification(Stored(p, store, name, delta), other) == Specification(store, other)
  {
  }

  lemma NothingIsIgnored(fn: Function)
    ensures !ProgramOf(fn).Ignores("f") && ProgramOf(fn).Range("f") == Top
    ensures !ProgramOf(fn).Ignores("h") && ProgramOf(fn).Range("h") == Top
  {
  }

  lemma BodyIsValid(fn: Function)
    requires IsF(fn)
    ensures BodyOf(fn).Valid()
  {
    BlocksAreWellFormed(fn);
  }

  lemma SceneOfF(fn: Function, store: Store)
    ensures "f" in ProgramOf(fn).functions
    ensures ProgramOf(fn).SceneOf("f", store) == Scene(KnownCodes(), BodyOf(fn), store)
  {
  }

  lemma SceneIsExample(fn: Function, store: Store, t: Tuple)
    requires IsF(fn) && Stores(store, t) && t.emptyset == 0
    ensures IsExample(Scene(KnownCodes(), BodyOf(fn), store))
  {
    BodyIsValid(fn);
  }

  lemma DeltaOfF(fn: Function, store: Store, codes: set<string>, t: Tuple)
    requires IsF(fn) && ProgramOf(fn).Valid() && Stores(store, t) && t.emptyset == 0
    ensures DeltaOf(ProgramOf(fn), store, codes, "f") == Tuple(100, 50, t.negative, 0)
  {
    SceneOfF(fn, store);
    SceneIsExample(fn, store, t);
    ExampleDelta(ProgramOf(fn).SceneOf("f", store), codes);
  }

  /** One analysis of `f`: 1 is found to be an error with the confidence that a negative
      result of `f` is one, so the update sees a lower and a higher delta in turn. */
  lemma AnalysisStep(fn: Function, store: Store, codes: set<string>, t: Tuple)
    requires IsF(fn) && ProgramOf(fn).Valid() && Stores(store, t) && t.emptyset == 0
    ensures Stores(StoreAfterRun(ProgramOf(fn), store, codes, "f"), Updated(t, Tuple(100, 50, t.negative, 0), Top))
  {
    DeltaOfF(fn, store, codes, t);
    NothingIsIgnored(fn);
    StoredGives(ProgramOf(fn), store, "f", Tuple(100, 50, t.negative, 0), "h");
  }

  lemma ModelAnswer()
    ensures ThirdPartyActions([Answer("h", LessThanZero)]) == [] + [Expand("h", H_SAYS)]
  {
    assert [Answer("h", LessThanZero)][..0] == [];
    assert ThirdPartyActions([]) == [];
    assert Scaled(LessThanZero, 0, THIRD_PARTY_CONFIDENCE) == H_SAYS;
  }

  lemma ModelStores(fn: Function)
    ensures Stores(Stored(ProgramOf(fn), map[], "h", H_SAYS), UNKNOWN)
  {
    NothingIsIgnored(fn);
    StoredGives(ProgramOf(fn), map[], "h", H_SAYS, "f");
    assert Updated(UNKNOWN, H_SAYS, Top) == H_SAYS;
  }

  /** The state that a history leads to. */
  ghost predicate Reaches(p: Program, history: seq<Action>, t: Tuple)
    requires p.Valid()
  {
    Stores(Replay(p, history).store, t)
  }

  /** The model's answer about `h`, then the round over the component of `h`. */
  function Opening(fn: Function): seq<Action> {
    ThirdPartyActions([Answer("h", LessThanZero)]) + Repeated(Visits(Kept(ProgramOf(fn), ["h"])), 1)
  }

  lemma OpeningIs(fn: Function)
    ensures Opening(fn) == [] + [Expand("h", H_SAYS)] + [Visit("h")]
  {
    ModelAnswer();
    RoundVisits(fn, "h");
    assert Repeated([Visit("h")], 1) == [] + [Visit("h")];
  }

  /** `h` has no body, so its round changes nothing. */
  lemma ModelStep(fn: Function)
    requires ProgramOf(fn).Valid()
    ensures Reaches(ProgramOf(fn), Opening(fn), UNKNOWN)
  {
    OpeningIs(fn);
    ModelStores(fn);
    ReplayOneMore(ProgramOf(fn), [], Expand("h", H_SAYS));
    ReplayVisit(ProgramOf(fn), [] + [Expand("h", H_SAYS)], "h");
  }

  /** `f` after some rounds: unknown at first, then one of two specifications in turn. */
  function AfterRounds(n: nat): Tuple {
    if n == 0 then UNKNOWN else if n % 2 == 1 then LOW else HIGH
  }

  lemma RoundsAlternate(n: nat)
    ensures Updated(AfterRounds(n), Tuple(100, 50, AfterRounds(n).negative, 0), Top) == AfterRounds(n + 1)
  {
    UpdatesCanAlternate();
  }

  /** The opening, then rounds over the component of `f`. */
  function Rounds(fn: Function, n: nat): seq<Action> {
    Opening(fn) + Repeated(Visits(Kept(ProgramOf(fn), ["f"])), n)
  }

  lemma RoundVisits(fn: Function, name: string)
    requires name == "f" || name == "h"
    ensures Visits(Kept(ProgramOf(fn), [name])) == [Visit(name)]
  {
    NothingIsIgnored(fn);
    assert [name][..0] == [];
    assert Kept(ProgramOf(fn), [name]) == [] + [name];
  }

  lemma OneMoreRound(fn: Function, n: nat)
    ensures Rounds(fn, n + 1) == Rounds(fn, n) + [Visit("f")]
  {
    RoundVisits(fn, "f");
  }

  lemma ReplayVisit(p: Program, before: seq<Action>, name: string)
    requires p.Valid() && name in p.functions
    ensures var st := Replay(p, before);
            Replay(p, before + [Visit(name)]).store == StoreAfterRun(p, st.store, st.codes, name)
  {
    ReplayOneMore(p, before, Visit(name));
  }

  lemma AnalysisOfRound(fn: Function, store: Store, codes: set<string>, n: nat)
    requires IsF(fn) && ProgramOf(fn).Valid() && Stores(store, AfterRounds(n))
    ensures Stores(StoreAfterRun(ProgramOf(fn), store, codes, "f"), AfterRounds(n + 1))
  {
    AnalysisStep(fn, store, codes, AfterRounds(n));
    RoundsAlternate(n);
  }

  lemma RoundStep(fn: Function, before: seq<Action>, n: nat)
    requires IsF(fn) && ProgramOf(fn).Valid() && Reaches(ProgramOf(fn), before, AfterRounds(n))
    ensures Reaches(ProgramOf(fn), before + [Visit("f")], AfterRounds(n + 1))
  {
    var st := Replay(ProgramOf(fn), before);
    ReplayVisit(ProgramOf(fn), before, "f");
    AnalysisOfRound(fn, st.store, st.codes, n);
  }

  lemma NoRoundsYet(fn: Function)
    ensures Rounds(fn, 0) == Opening(fn)
  {
  }

  lemma NoRounds(fn: Function)
    requires ProgramOf(fn).Valid()
    ensures Reaches(ProgramOf(fn), Rounds(fn, 0), AfterRounds(0))
  {
    NoRoundsYet(fn);
    ModelStep(fn);
  }

  lemma NextRound(fn: Function, n: nat)
    requires IsF(fn) && ProgramOf(fn).Valid() && Reaches(ProgramOf(fn), Rounds(fn, n), AfterRounds(n))
    ensures Reaches(ProgramOf(fn), Rounds(fn, n + 1), AfterRounds(n + 1))
  {
    OneMoreRound(fn, n);
    RoundStep(fn, Rounds(fn, n), n);
  }

  lemma {:induction false} ByRounds(holds: nat -> bool, n: nat)
    requires holds(0) && forall k: nat :: holds(k) ==> holds(k + 1)
    ensures holds(n)
  {
    if n > 0 {
      ByRounds(holds, n - 1);
      assert holds(n - 1 + 1);
    }
  }

  lemma StoreAfterRounds(fn: Function, n: nat)
    requires IsF(fn) && ProgramOf(fn).Valid()
    ensures Reaches(ProgramOf(fn), Rounds(fn, n), AfterRounds(n))
  {
    var holds := (k: nat) => Reaches(ProgramOf(fn), Rounds(fn, k), AfterRounds(k));
    NoRounds(fn);
    forall k: nat | holds(k)
      ensures holds(k + 1)
    {
      NextRound(fn, k);
    }
    ByRounds(holds, n);
  }

  // ----- The loop never ends -----

  lemma StoresDiffer(x: Store, y: Store, n: nat)
    requires Stores(x, AfterRounds(n)) && Stores(y, AfterRounds(n + 1))
    ensures x != y
  {
  }

  lemma RoundsNeverEnd(fn: Function, n: nat)
    requires IsF(fn)
    ensures ProgramOf(fn).Valid()
    ensures Reaches(ProgramOf(fn), Rounds(fn, n), AfterRounds(n))
    ensures Replay(ProgramOf(fn), Rounds(fn, n + 1)).store != Replay(ProgramOf(fn), Rounds(fn, n)).store
  {
    ProgramIsValid(fn);
    StoreAfterRounds(fn, n);
    StoreAfterRounds(fn, n + 1);
    StoresDiffer(Replay(ProgramOf(fn), Rounds(fn, n)).store, Replay(ProgramOf(fn), Rounds(fn, n + 1)).store, n);
  }

  /** The components of the call graph, bottom-up: `h`, then `f` with its loop. */
  function Components(): seq<Component> {
    [Component(["h"], false), Component(["f"], true)]
  }

  function Stages(n: nat): seq<Stage> {
    [Stage(1, []), Stage(n, [])]
  }

  lemma FirstStage(fn: Function, n: nat)
    ensures Traversal(ProgramOf(fn), Components()[..1], Stages(n)[..1]) ==
            Repeated(Visits(Kept(ProgramOf(fn), ["h"])), 1)
  {
    assert Components()[..1] == [Component(["h"], false)] && Stages(n)[..1] == [Stage(1, [])];
    assert Components()[..1][..0] == [] && Stages(n)[..1][..0] == [];
    var rounds := Repeated(Visits(Kept(ProgramOf(fn), ["h"])), 1);
    assert [] + rounds + [] == rounds;
  }

  lemma RoundsAreTraversal(fn: Function, n: nat)
    requires n >= 1
    ensures IsTraversal(ProgramOf(fn), Rounds(fn, n), [Answer("h", LessThanZero)], Components(), Stages(n), true)
  {
    FirstStage(fn, n);
    var first := Repeated(Visits(Kept(ProgramOf(fn), ["h"])), 1);
    var rounds := Repeated(Visits(Kept(ProgramOf(fn), ["f"])), n);
    assert Traversal(ProgramOf(fn), Components(), Stages(n)) == first + rounds + [];
    Regroup(ThirdPartyActions([Answer("h", LessThanZero)]), first, rounds, []);
    assert Rounds(fn, n) + [] == Rounds(fn, n);
  }

  /** However many rounds the traversal has made over the component of `f`, one more
      changes the store: the loop never ends. */
  lemma AnalysisAlternates(n: nat)
    ensures Example().Valid()
    ensures n >= 1 ==>
              IsTraversal(Example(), Rounds(F(), n), [Answer("h", LessThanZero)], Components(), Stages(n), true)
    ensures Reaches(Example(), Rounds(F(), n), AfterRounds(n))
    ensures Replay(Example(), Rounds(F(), n + 1)).store != Replay(Example(), Rounds(F(), n)).store
  {
    FIsF();
    RoundsNeverEnd(F(), n);
    if n >= 1 {
      RoundsAreTraversal(F(), n);
    }
  }
}
