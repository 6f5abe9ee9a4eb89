/** What the last instruction of a block lets through to each of its successors. */
module BranchTests {
  import opened SignLattice
  import opened IR
  import opened ICmpAbstraction

  predicate SameSign(x: int, y: int) {
    (x < 0 <==> y < 0) && (x == 0 <==> y == 0)
  }

  predicate IsCaseOf(case_: Case, target: nat, x: int) {
    case_.target == target && SameSign(x, case_.value)
  }

  /** The successors that a test speaks of: both of a branch on a comparison, and the ones
      of the cases of a switch. */
  predicate SpeaksOf(fn: Function, last: Instr, target: nat) {
    match last
    case CondBr(condition, onTrue, onFalse) =>
      && Definition(fn, condition).Some? && Definition(fn, condition).value.ICmp?
      && (target == onTrue || target == onFalse)
    case Switch(_, cases, _) => target in CaseTargets(cases)
    case _ => false
  }

  /** The integers a test lets through to a successor: on a branch those of the sign that
      the comparison leaves, on a case those of the sign of its value. */
  ghost predicate LetsThrough(fn: Function, last: Instr, target: nat, x: int) {
    match last
    case CondBr(condition, onTrue, onFalse) =>
      (match Definition(fn, condition)
       case Some(ICmp(p, left, right)) =>
         || (target == onTrue && In(x, AbstractICmp(p, left, right).onTrue))
         || (target == onFalse && In(x, AbstractICmp(p, left, right).onFalse))
       case _ => false)
    case Switch(_, cases, _) => exists k :: 0 <= k < |cases| && IsCaseOf(cases[k], target, x)
    case _ => false
  }

  lemma AbstractIntegerMeans(x: int, y: int)
    ensures In(x, AbstractInteger(y)) <==> SameSign(x, y)
  {
  }
}
