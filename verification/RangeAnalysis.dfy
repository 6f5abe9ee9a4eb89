/** The two passes in sequence: returned values for every function, then return ranges
    for the module. */
module RangeAnalysis {
  import opened SignLattice
  import opened IR
  import opened Semantics
  import opened RangeTransfer
  import opened RangeFixpoint
  import opened RangeHistory
  import opened RangeSoundness
  import RV = ReturnedValues
  import RR = ReturnRange

  /** What the range analysis expects of a module. */
  ghost predicate Analysable(functions: seq<Function>, components: seq<Component>) {
    && AllWellFormed(functions)
    && (forall f: nat | f < |functions| && !ShouldIgnore(functions[f]) ::
          RegistersAreBlockLocal(functions[f]) && IsAnalysed(functions[f]))
    && BottomUp(functions, components)
  }

  /** The functions that are analysed: those with a body that return an integer or a
      pointer. */
  predicate GivesValue(fn: Function) {
    fn.blocks != [] && (fn.returns_.ReturnsInteger? || fn.returns_.ReturnsPointer?)
  }

  /** Every terminating run of every analysed function of the scope returns a value in
      its range. */
  ghost predicate Sound(functions: seq<Function>, ranges: Ranges, scope: set<nat>)
    requires AllWellFormed(functions)
  {
    forall f: nat, args, script |
      f in scope && f < |functions| && GivesValue(functions[f]) && Run(functions, f, args, script).Some? ::
      f in ranges && In(Run(functions, f, args, script).value, ranges[f])
  }

  /** A scope closed under calls whose functions are all in the fragment. */
  ghost predicate IsScope(functions: seq<Function>, returnable: seq<RV.Facts>, scope: set<nat>)
    requires |returnable| == |functions|
  {
    && IsClosed(functions, scope)
    && forall f: nat | f in scope && f < |functions| && !ShouldIgnore(functions[f]) ::
         InFragment(Context(functions, f, returnable[f]))
  }

  /** A function whose returns hand on nothing that a fact tracks has exactly the range
      that its returns and the ranges of its callees admit. */
  ghost predicate ExactWhereUntracked(functions: seq<Function>, returnable: seq<RV.Facts>, ranges: Ranges)
    requires |returnable| == |functions|
  {
    forall g: nat | g < |functions| && GivesValue(functions[g]) && ReturnsUntracked(functions[g]) ::
      Context(functions, g, returnable[g]).Valid() && RangeIsExact(Context(functions, g, returnable[g]), ranges)
  }

  lemma AnalysisIsSound(a: Analysis)
    requires a.Valid()
    ensures Sound(a.functions, a.ranges, a.scope)
  {
    forall f: nat, args, script |
      f in a.scope && f < |a.functions| && GivesValue(a.functions[f]) && Run(a.functions, f, args, script).Some?
      ensures f in a.ranges && In(Run(a.functions, f, args, script).value, a.ranges[f])
    {
      RunSound(a, f, args, script);
    }
  }

  /** The ranges of a function are sound if it and the functions it can reach are in the
      fragment, whatever else is in the module. */
  method Analyse(functions: seq<Function>, components: seq<Component>)
    returns (returnable: seq<RV.Facts>, ranges: Ranges)
    requires Analysable(functions, components)
    ensures |returnable| == |functions|
    ensures forall f: nat | f < |functions| :: RV.Exact(functions[f], returnable[f])
    ensures forall scope | IsScope(functions, returnable, scope) :: Sound(functions, ranges, scope)
    ensures ExactWhereUntracked(functions, returnable, ranges)
  {
    returnable := [];
    while |returnable| < |functions|
      invariant |returnable| <= |functions|
      invariant forall f: nat | f < |returnable| ::
                  RV.IsFixpoint(functions[f], returnable[f]) && RV.Exact(functions[f], returnable[f])
    {
      var pass := new RV.ReturnedValuesPass(functions[|returnable|]);
      pass.Run();
      returnable := returnable + [pass.facts];
    }
    var pass := new RR.ReturnRangePass(functions, returnable);
    pass.RunOnModule(components);
    ranges := pass.ranges;
    forall g: nat | g < |functions| && GivesValue(functions[g]) && ReturnsUntracked(functions[g])
      ensures Context(functions, g, returnable[g]).Valid()
      ensures RangeIsExact(Context(functions, g, returnable[g]), ranges)
    {
      assert pass.Analysed(g) && pass.Fixed(g);
    }
    forall scope | IsScope(functions, returnable, scope)
      ensures Sound(functions, ranges, scope)
    {
      var analysis := Analysis(functions, returnable, pass.facts, pass.seen, ranges, scope);
      forall f: nat | f in scope && f < |functions| && !ShouldIgnore(functions[f])
        ensures analysis.Solved(f)
      {
        assert pass.Analysed(f) && pass.Fixed(f);
      }
      AnalysisIsSound(analysis);
    }
  }
}
