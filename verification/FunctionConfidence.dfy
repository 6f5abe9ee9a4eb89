/** How the confidences of a function's blocks become the delta of its specification. */
module FunctionConfidence {
  import opened SignLattice
  import opened Tuples = ConfidenceLattice
  import opened TupleJoins
  import opened IR
  import opened BlockConfidence
  import opened BlockMeaning
  import opened BlockCauses

  // ----- Combining blocks -----

  ghost function Informative(blocks: seq<Tuple>): set<Tuple> {
    set t | t in blocks && !IsEmptyset(t)
  }

  ghost predicate AllEmptyset(blocks: seq<Tuple>) {
    forall t | t in blocks :: IsEmptyset(t)
  }

  /** Emptyset if every block is; otherwise the join of the others. The join starts from
      "unknown", so its emptyset component is none. */
  ghost function Combined(blocks: seq<Tuple>): Tuple {
    if AllEmptyset(blocks) then EMPTYSET else JoinSet({UNKNOWN} + Informative(blocks))
  }

  /** The combination does not depend on the order of the blocks. */
  lemma CombinedIgnoresOrder(x: seq<Tuple>, y: seq<Tuple>)
    requires multiset(x) == multiset(y)
    ensures Combined(x) == Combined(y)
  {
    assert forall t :: t in x <==> t in multiset(x);
    assert forall t :: t in y <==> t in multiset(y);
    assert Informative(x) == Informative(y);
  }

  /** It is full emptyset confidence exactly when every block says so; otherwise it is
      the componentwise maximum of the blocks that do not, without any emptyset. */
  lemma CombinedMeans(blocks: seq<Tuple>)
    ensures IsEmptyset(Combined(blocks)) <==> AllEmptyset(blocks)
    ensures !AllEmptyset(blocks) ==>
              && IsJoinOf(Combined(blocks).(emptyset := 0), {UNKNOWN} + Informative(blocks))
              && Combined(blocks).emptyset == 0
  {
    if !AllEmptyset(blocks) {
      var all := {UNKNOWN} + Informative(blocks);
      assert UNKNOWN in all;
      assert Bounds(JoinSet(all), UNKNOWN);
      assert Combined(blocks).(emptyset := 0) == JoinSet(all);
    }
  }

  /** Some block that does not say "no errors" has the confidence in the sign of `k`. */
  ghost predicate SomeBlockReaches(blocks: seq<Tuple>, k: int, c: int) {
    exists t :: t in blocks && t.emptyset != 100 && At(t, k) >= c
  }

  ghost predicate EveryBlockHasNone(blocks: seq<Tuple>) {
    forall t :: t in blocks ==> t.emptyset == 100
  }

  /** The combination, sign by sign. */
  lemma CombinedAt(blocks: seq<Tuple>, k: int, c: Confidence)
    requires c >= 1
    ensures At(Combined(blocks), k) >= c <==> SomeBlockReaches(blocks, k, c)
    ensures Combined(blocks).emptyset == if EveryBlockHasNone(blocks) then 100 else 0
  {
    CombinedMeans(blocks);
    assert AllEmptyset(blocks) ==> EveryBlockHasNone(blocks);
    assert EveryBlockHasNone(blocks) ==> AllEmptyset(blocks);
    if !AllEmptyset(blocks) {
      JoinAt(Combined(blocks), {UNKNOWN} + Informative(blocks), k, c);
      OneReaches(UNKNOWN, k, c);
      UnionReaches({UNKNOWN}, Informative(blocks), k, c);
      if t :| t in blocks && t.emptyset != 100 && At(t, k) >= c {
        assert t in Informative(blocks);
      }
    }
  }

  ghost predicate AllTuplesKeep(ts: seq<Tuple>, binary: bool) {
    forall t | t in ts :: Keeps(t, binary)
  }

  lemma CombinedKeeps(blocks: seq<Tuple>, binary: bool)
    requires AllTuplesKeep(blocks, binary)
    ensures Keeps(Combined(blocks), binary)
  {
    if !AllEmptyset(blocks) {
      JoinKeeps({UNKNOWN} + Informative(blocks), binary);
    }
  }

  /** An in-place partition: emptyset tuples first. It is not stable. */
  method Partition(a: array<Tuple>) returns (k: nat)
    modifies a
    ensures multiset(a[..]) == multiset(old(a[..]))
    ensures k <= a.Length
    ensures forall i :: 0 <= i < k ==> IsEmptyset(a[i])
    ensures forall i :: k <= i < a.Length ==> !IsEmptyset(a[i])
  {
    k := 0;
    var end := a.Length;
    while k < end
      invariant 0 <= k <= end <= a.Length
      invariant multiset(a[..]) == multiset(old(a[..]))
      invariant forall i :: 0 <= i < k ==> IsEmptyset(a[i])
      invariant forall i :: end <= i < a.Length ==> !IsEmptyset(a[i])
      decreases end - k
    {
      if IsEmptyset(a[k]) {
        k := k + 1;
      } else {
        end := end - 1;
        a[k], a[end] := a[end], a[k];
      }
    }
  }

  function Elements(ts: seq<Tuple>): set<Tuple> {
    set t | t in ts
  }

  lemma TailIsInformative(ts: seq<Tuple>, k: nat)
    requires k <= |ts|
    requires forall i :: 0 <= i < k ==> IsEmptyset(ts[i])
    requires forall i :: k <= i < |ts| ==> !IsEmptyset(ts[i])
    ensures Elements(ts[k..]) == Informative(ts)
  {
    forall t | t in Informative(ts)
      ensures t in ts[k..]
    {
      var i :| 0 <= i < |ts| && ts[i] == t;
      assert ts[k..][i - k] == t;
    }
  }

  lemma JoinNext(ts: seq<Tuple>, j: nat, r: Tuple)
    requires j < |ts| && IsJoinOf(r, {UNKNOWN} + Elements(ts[..j]))
    ensures IsJoinOf(Tuples.Join(ts[j], r), {UNKNOWN} + Elements(ts[..j + 1]))
  {
    JoinWithOne(r, {UNKNOWN} + Elements(ts[..j]), ts[j]);
    assert ts[..j + 1] == ts[..j] + [ts[j]];
    assert {UNKNOWN} + Elements(ts[..j + 1]) == {UNKNOWN} + Elements(ts[..j]) + {ts[j]};
  }

  /** Joins tuples, starting from "unknown". */
  method JoinAll(ts: seq<Tuple>) returns (r: Tuple)
    ensures IsJoinOf(r, {UNKNOWN} + Elements(ts))
  {
    r := UNKNOWN;
    var j := 0;
    JoinOfOne(UNKNOWN);
    assert {UNKNOWN} + Elements(ts[..0]) == {UNKNOWN};
    while j < |ts|
      invariant j <= |ts| && IsJoinOf(r, {UNKNOWN} + Elements(ts[..j]))
    {
      JoinNext(ts, j, r);
      r := Tuples.Join(ts[j], r);
      j := j + 1;
    }
    assert ts[..|ts|] == ts;
  }

  lemma CombinedIs(blocks: seq<Tuple>)
    ensures forall k, c | 1 <= c <= 100 :: At(Combined(blocks), k) >= c <==> SomeBlockReaches(blocks, k, c)
    ensures Combined(blocks).emptyset == if EveryBlockHasNone(blocks) then 100 else 0
  {
    forall k, c | 1 <= c <= 100
      ensures At(Combined(blocks), k) >= c <==> SomeBlockReaches(blocks, k, c)
    {
      CombinedAt(blocks, k, c);
    }
    CombinedAt(blocks, 0, 1);
  }

  /** Partitions the blocks and joins those that are not emptyset, in whatever order the
      partition left them. */
  method Combine(a: array<Tuple>) returns (r: Tuple)
    modifies a
    ensures r == Combined(old(a[..]))
    ensures forall k, c | 1 <= c <= 100 :: At(r, k) >= c <==> SomeBlockReaches(old(a[..]), k, c)
    ensures r.emptyset == if EveryBlockHasNone(old(a[..])) then 100 else 0
  {
    CombinedIs(a[..]);
    var k := Partition(a);
    CombinedIgnoresOrder(old(a[..]), a[..]);
    if k == a.Length {
      return EMPTYSET;
    }
    assert a[k] in a[..];
    r := JoinAll(a[k..]);
    TailIsInformative(a[..], k);
    assert a[..][k..] == a[k..];
    JoinIsUnique(r, Combined(a[..]), {UNKNOWN} + Informative(a[..]));
  }

  // ----- The delta of a function -----

  ghost function CodesAfterBlocks(s: Scene, codes: set<string>, n: nat): set<string>
    requires s.Valid() && n <= |s.body.fn.blocks|
  {
    if n == 0 then codes else CodesAfterBlock(s, CodesAfterBlocks(s, codes, n - 1), n - 1)
  }

  ghost function BlockTuples(s: Scene, codes: set<string>, n: nat): (ts: seq<Tuple>)
    requires s.Valid() && n <= |s.body.fn.blocks|
    ensures |ts| == n
  {
    if n == 0 then [] else BlockTuples(s, codes, n - 1) + [BlockTuple(s, CodesAfterBlocks(s, codes, n - 1), n - 1)]
  }

  /** The first `n` blocks have been visited. */
  ghost predicate Visited(s: Scene, start: set<string>, codes: set<string>, ts: seq<Tuple>, n: nat)
    requires s.Valid() && n <= |s.body.fn.blocks|
  {
    ts == BlockTuples(s, start, n) && codes == CodesAfterBlocks(s, start, n)
  }

  lemma VisitedOneMore(s: Scene, start: set<string>, codes: set<string>, ts: seq<Tuple>, t: Tuple,
                       after: set<string>, more: seq<Tuple>)
    requires s.Valid() && |ts| < |s.body.fn.blocks| && Visited(s, start, codes, ts, |ts|)
    requires t == BlockTuple(s, codes, |ts|) && after == CodesAfterBlock(s, codes, |ts|) && more == ts + [t]
    ensures Visited(s, start, after, more, |more|)
  {
  }

  ghost function CodesAfter(s: Scene, codes: set<string>): set<string>
    requires s.Valid()
  {
    CodesAfterBlocks(s, codes, |s.body.fn.blocks|)
  }

  /** What the analysis of a function says: its blocks combined, without 0 if the smart
      heuristic, with the codes found on the way, drops it. */
  ghost function Delta(s: Scene, codes: set<string>): Tuple
    requires s.Valid()
  {
    WithoutZero(DropsZero(s, CodesAfter(s, codes)), Combined(BlockTuples(s, codes, |s.body.fn.blocks|)))
  }

  /** The delta, sign by sign: what some block claims, but not 0 if the heuristic drops it. */
  lemma DeltaAt(s: Scene, codes: set<string>, k: int, c: Confidence)
    requires s.Valid() && c >= 1
    ensures At(Delta(s, codes), k) >= c <==>
              && SomeBlockReaches(BlockTuples(s, codes, |s.body.fn.blocks|), k, c)
              && !(k == 0 && s.knowledge.smartZero && IsSuccess(s, CodesAfter(s, codes), 0))
    ensures Delta(s, codes).emptyset ==
              if EveryBlockHasNone(BlockTuples(s, codes, |s.body.fn.blocks|)) then 100 else 0
  {
    var blocks := BlockTuples(s, codes, |s.body.fn.blocks|);
    CombinedAt(blocks, k, c);
    CodesMean(s, CodesAfter(s, codes), 0);
    WithoutZeroAt(DropsZero(s, CodesAfter(s, codes)), Combined(blocks), k);
  }

  // ----- The delta, by its causes -----

  /** With the codes known at its turn, the block claims the sign of `k` that strongly, and
      does not say "no errors" for sure. */
  ghost predicate BlockSays(s: Scene, codes: set<string>, b: nat, k: int, c: int)
    requires s.Valid()
  {
    && b < |s.body.fn.blocks|
    && Claimed(s, CodesAfterBlocks(s, codes, b), b, k, c)
    && !ClaimedNone(s, CodesAfterBlocks(s, codes, b), b, 100)
  }

  ghost predicate EveryBlockSaysNone(s: Scene, codes: set<string>)
    requires s.Valid()
  {
    forall b: nat | b < |s.body.fn.blocks| :: ClaimedNone(s, CodesAfterBlocks(s, codes, b), b, 100)
  }

  lemma BlockTuplesStep(s: Scene, codes: set<string>, n: nat, ts: seq<Tuple>, t: Tuple)
    requires s.Valid() && n < |s.body.fn.blocks|
    requires ts == BlockTuples(s, codes, n) && t == BlockTuple(s, CodesAfterBlocks(s, codes, n), n)
    ensures |ts| == n && BlockTuples(s, codes, n + 1) == ts + [t]
  {
  }

  /** What is built by appending has the elements that were appended. */
  lemma {:induction false} AppendedAt<T(!new)>(built: nat -> seq<T>, appended: nat -> T, n: nat, b: nat)
    requires built(0) == [] && forall k: nat | k < n :: built(k + 1) == built(k) + [appended(k)]
    ensures |built(n)| == n && (b < n ==> built(n)[b] == appended(b))
  {
    if n > 0 {
      AppendedAt(built, appended, n - 1, b);
      assert built(n - 1 + 1) == built(n - 1) + [appended(n - 1)];
    }
  }

  lemma BlockTupleAt(s: Scene, codes: set<string>, n: nat, b: nat)
    requires s.Valid() && b < n <= |s.body.fn.blocks|
    ensures BlockTuples(s, codes, n)[b] == BlockTuple(s, CodesAfterBlocks(s, codes, b), b)
  {
    var built := (k: nat) => if s.Valid() && k <= |s.body.fn.blocks| then BlockTuples(s, codes, k) else [];
    var appended := (k: nat) =>
      if s.Valid() && k < |s.body.fn.blocks| then BlockTuple(s, CodesAfterBlocks(s, codes, k), k) else UNKNOWN;
    forall k: nat | k < n
      ensures built(k + 1) == built(k) + [appended(k)]
    {
      BlockTuplesStep(s, codes, k, built(k), appended(k));
    }
    AppendedAt(built, appended, n, b);
  }

  lemma BlockReaches(s: Scene, codes: set<string>, b: nat, k: int, c: Confidence)
    requires s.Valid() && b < |s.body.fn.blocks| && c >= 1
    ensures var t := BlockTuple(s, CodesAfterBlocks(s, codes, b), b);
            && (t.emptyset != 100 && At(t, k) >= c <==> BlockSays(s, codes, b, k, c))
            && (t.emptyset == 100 <==> ClaimedNone(s, CodesAfterBlocks(s, codes, b), b, 100))
  {
    BlockMeans(s, CodesAfterBlocks(s, codes, b), b, k, c);
    BlockMeans(s, CodesAfterBlocks(s, codes, b), b, k, 100);
  }

  lemma BlocksReach(s: Scene, codes: set<string>, k: int, c: Confidence)
    requires s.Valid() && c >= 1
    ensures SomeBlockReaches(BlockTuples(s, codes, |s.body.fn.blocks|), k, c) <==> exists b: nat :: BlockSays(s, codes, b, k, c)
    ensures EveryBlockHasNone(BlockTuples(s, codes, |s.body.fn.blocks|)) <==> EveryBlockSaysNone(s, codes)
  {
    var n := |s.body.fn.blocks|;
    var ts := BlockTuples(s, codes, n);
    forall b: nat | b < n
      ensures ts[b].emptyset != 100 && At(ts[b], k) >= c <==> BlockSays(s, codes, b, k, c)
      ensures ts[b].emptyset == 100 <==> ClaimedNone(s, CodesAfterBlocks(s, codes, b), b, 100)
    {
      BlockTupleAt(s, codes, n, b);
      BlockReaches(s, codes, b, k, c);
    }
    SomeIndexReaches(ts, k, c);
  }

  lemma SomeIndexReaches(ts: seq<Tuple>, k: int, c: int)
    ensures SomeBlockReaches(ts, k, c) <==> exists b: nat :: b < |ts| && ts[b].emptyset != 100 && At(ts[b], k) >= c
    ensures EveryBlockHasNone(ts) <==> forall b: nat :: b < |ts| ==> ts[b].emptyset == 100
  {
    if SomeBlockReaches(ts, k, c) {
      var t :| t in ts && t.emptyset != 100 && At(t, k) >= c;
      var b: nat :| b < |ts| && ts[b] == t;
    }
    assert forall b: nat :: b < |ts| ==> ts[b] in ts;
  }

  /** The delta of a function has a sign as strongly as some block claims it that does not
      say "no errors" for sure; 0 not at all, if the heuristic drops it; and it says "no
      errors" if and only if every block does. */
  lemma DeltaMeans(s: Scene, codes: set<string>, k: int, c: Confidence)
    requires s.Valid() && c >= 1
    ensures At(Delta(s, codes), k) >= c <==>
              && (exists b: nat :: BlockSays(s, codes, b, k, c))
              && !(k == 0 && s.knowledge.smartZero && IsSuccess(s, CodesAfter(s, codes), 0))
    ensures Delta(s, codes).emptyset == if EveryBlockSaysNone(s, codes) then 100 else 0
  {
    DeltaAt(s, codes, k, c);
    BlocksReach(s, codes, k, c);
  }

  /** The codes at a block's turn: those known before, and the function itself once some
      earlier block has shown that it returns codes. */
  lemma {:induction false} CodesBeforeMean(s: Scene, codes: set<string>, n: nat, name: string)
    requires s.Valid() && n <= |s.body.fn.blocks|
    ensures name in CodesAfterBlocks(s, codes, n) <==>
              name in codes ||
              (name == s.Name() && exists b: nat, v :: b < n && LearnsCodes(s, CodesAfterBlocks(s, codes, b), b, v))
  {
    if n > 0 {
      CodesBeforeMean(s, codes, n - 1, name);
      CodesAfterMeans(s, CodesAfterBlocks(s, codes, n - 1), n - 1, name);
    }
  }

  lemma AppendKeeps(ts: seq<Tuple>, t: Tuple, binary: bool)
    requires AllTuplesKeep(ts, binary) && Keeps(t, binary)
    ensures AllTuplesKeep(ts + [t], binary)
  {
  }

  lemma {:induction false} BlockTuplesKeep(s: Scene, codes: set<string>, n: nat, binary: bool)
    requires s.Valid() && n <= |s.body.fn.blocks|
    requires AllExclusive(s.specifications) && (binary ==> AllBinary(s.specifications))
    ensures AllTuplesKeep(BlockTuples(s, codes, n), binary)
  {
    if n > 0 {
      var before := CodesAfterBlocks(s, codes, n - 1);
      BlockTuplesKeep(s, codes, n - 1, binary);
      BlockKeeps(s, before, n - 1, binary);
      AppendKeeps(BlockTuples(s, codes, n - 1), BlockTuple(s, before, n - 1), binary);
    }
  }

  lemma DeltaKeeps(s: Scene, codes: set<string>, binary: bool)
    requires s.Valid() && AllExclusive(s.specifications) && (binary ==> AllBinary(s.specifications))
    ensures Keeps(Delta(s, codes), binary)
  {
    var blocks := BlockTuples(s, codes, |s.body.fn.blocks|);
    BlockTuplesKeep(s, codes, |s.body.fn.blocks|, binary);
    CombinedKeeps(blocks, binary);
    WithoutZeroKeeps(DropsZero(s, CodesAfter(s, codes)), Combined(blocks), binary);
  }

  /** Codes are only ever added, and only the function itself. */
  lemma {:induction false} CodesOnlyGrow(s: Scene, codes: set<string>, n: nat)
    requires s.Valid() && n <= |s.body.fn.blocks|
    ensures codes <= CodesAfterBlocks(s, codes, n) <= codes + {s.Name()}
  {
    if n > 0 {
      CodesOnlyGrow(s, codes, n - 1);
    }
  }

  // ----- Without the smart-zero heuristic -----

  lemma BlockIgnoresCodes(s: Scene, x: set<string>, y: set<string>, b: nat)
    requires s.Valid() && b < |s.body.fn.blocks| && !s.knowledge.smartZero
    ensures BlockTuple(s, x, b) == BlockTuple(s, y, b)
  {
    CallsIgnoreCodes(s, x, y, b, |s.body.fn.blocks[b]|);
    var only := OnlyReturned(s.body, b);
    if only.Some? {
      var v := only.value;
      var constraints := s.body.constraints[End(s.body.fn, b)];
      ConstraintsIgnoreCodes(s, CodesAfterKind(s, x, v), CodesAfterKind(s, y, v), v, OriginOf(s.body, b, v), constraints);
    }
  }

  lemma {:induction false} CallsIgnoreCodes(s: Scene, x: set<string>, y: set<string>, b: nat, n: nat)
    requires s.Valid() && b < |s.body.fn.blocks| && n <= |s.body.fn.blocks[b]| && !s.knowledge.smartZero
    ensures CallsUpTo(s, x, b, n) == CallsUpTo(s, y, b, n)
  {
    if n > 0 {
      CallsIgnoreCodes(s, x, y, b, n - 1);
      if s.body.fn.blocks[b][n - 1].Call? {
        SameCollected(Returner(s, x), Returner(s, y), s.body.returned[Point(b, n - 1)]);
      }
    }
  }

  lemma ConstraintsIgnoreCodes(s: Scene, x: set<string>, y: set<string>, v: Value, origin: Origin, constraints: map<string, Sign>)
    requires !s.knowledge.smartZero
    ensures ConstraintContributions(s, x, v, origin, constraints) == ConstraintContributions(s, y, v, origin, constraints)
  {
    SameCollected(Contributor(s, x, v, origin, constraints), Contributor(s, y, v, origin, constraints), constraints.Keys);
  }

  /** Without the heuristic, what a function's analysis says does not depend on which
      functions are known to return codes. */
  lemma DeltaIgnoresCodes(s: Scene, x: set<string>, y: set<string>)
    requires s.Valid() && !s.knowledge.smartZero
    ensures Delta(s, x) == Delta(s, y)
  {
    BlocksIgnoreCodes(s, x, y, |s.body.fn.blocks|);
  }

  lemma BlocksIgnoreCodes(s: Scene, x: set<string>, y: set<string>, n: nat)
    requires s.Valid() && n <= |s.body.fn.blocks| && !s.knowledge.smartZero
    ensures BlockTuples(s, x, n) == BlockTuples(s, y, n)
  {
    forall b: nat | b < n
      ensures BlockTuples(s, x, n)[b] == BlockTuples(s, y, n)[b]
    {
      BlockTupleAt(s, x, n, b);
      BlockTupleAt(s, y, n, b);
      BlockIgnoresCodes(s, CodesAfterBlocks(s, x, b), CodesAfterBlocks(s, y, b), b);
    }
  }
}
