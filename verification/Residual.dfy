/**
 The continuation of a redirect against what a plan still runs once it has reached the target: when it is exactly
 that, and when it is no more than that.
 */
module Residual {
  import opened EarlyEnds
  import opened Plan
  import opened Redirect
  import opened Wrappers

  // ----- how a path goes on from the target -----

  ghost predicate Suffix(ends: bool, steps: seq<Step>, q: Path, ended: bool) {
    exists pre :: Runs(ends, steps, pre + q, ended)
  }

  ghost predicate StepSuffix(ends: bool, step: Step, q: Path, ended: bool) {
    exists pre :: StepRuns(ends, step, pre + q, ended)
  }

  ghost predicate Reached(d: DeptId, q: Path) {
    q != [] && q[0] == Ran(d)
  }

  /** A department with a place in a list is found there. */
  lemma {:induction false} PlaceIsFound(steps: seq<Step>, d: DeptId)
    requires d != "" && WellFormed(steps) && Places(steps, d) > 0
    ensures FindRedirectTarget(steps, d).Some?
    decreases steps
  {
    if StepPlaces(steps[0], d) > 0 {
      StepPlaceIsFound(steps[0], d);
    } else {
      PlaceIsFound(steps[1..], d);
    }
  }

  lemma {:induction false} StepPlaceIsFound(step: Step, d: DeptId)
    requires d != "" && WellFormedStep(step) && StepPlaces(step, d) > 0
    ensures RedirectWithinStep(step, d).Some?
    decreases step
  {
    match step
    case Sequential(ds) => CountedIsPresent(ds, d);
    case Parallel(bs) => BranchPlaceIsFound(bs, d);
    case Exclusive(cs) => ChoicePlaceIsFound(cs, d);
    case SubWorkflow(steps, _, _, _) => PlaceIsFound(steps, d);
  }

  lemma {:induction false} CountedIsPresent(ds: seq<DeptId>, d: DeptId)
    requires CountIn(ds, d) > 0
    ensures d in ds
  {
    if ds[0] != d {
      CountedIsPresent(ds[1..], d);
    }
  }

  lemma {:induction false} BranchPlaceIsFound(bs: seq<ParallelBranch>, d: DeptId)
    requires d != "" && (forall i | 0 <= i < |bs| :: WellFormed(bs[i].steps)) && BranchPlaces(bs, d) > 0
    ensures RedirectWithinBranches(bs, d).Some?
    decreases bs
  {
    if Places(bs[0].steps, d) > 0 {
      PlaceIsFound(bs[0].steps, d);
    } else if bs[0].deptId != d {
      BranchPlaceIsFound(bs[1..], d);
    }
  }

  lemma {:induction false} ChoicePlaceIsFound(cs: seq<ExclusiveBranch>, d: DeptId)
    requires d != "" && (forall i | 0 <= i < |cs| :: WellFormedChoice(cs[i])) && ChoicePlaces(cs, d) > 0
    ensures RedirectWithinChoices(cs, d).Some?
    decreases cs
  {
    assert WellFormedChoice(cs[0]);
    if Places(cs[0].steps, d) > 0 {
      PlaceIsFound(cs[0].steps, d);
    } else if !LeafNames(cs[0], d) {
      ChoicePlaceIsFound(cs[1..], d);
    }
  }

  lemma SplitPoint(ends: bool, steps: seq<Step>, p: Path, ended: bool) returns (k: nat)
    requires steps != [] && Runs(ends, steps, p, ended) && !(ended && StepRuns(ends, steps[0], p, true))
    ensures k <= |p| && StepRuns(ends, steps[0], p[..k], false) && Runs(ends, steps[1..], p[k..], ended)
  {
    k :| 0 <= k <= |p| && RunsSplitAt(ends, steps, p, ended, k);
  }

  /** With its only place in the first step, the target is reached there, and the rest of the list follows unless it ended. */
  lemma ListSuffix(ends: bool, steps: seq<Step>, d: DeptId, q: Path, ended: bool) returns (a: Path, t: Path, stepEnded: bool)
    requires steps != [] && Places(steps[1..], d) == 0 && Reached(d, q) && Suffix(ends, steps, q, ended)
    ensures q == a + t && Reached(d, a) && StepSuffix(ends, steps[0], a, stepEnded)
    ensures if stepEnded then ended && t == [] else Runs(ends, steps[1..], t, ended)
  {
    var pre :| Runs(ends, steps, pre + q, ended);
    if ended && StepRuns(ends, steps[0], pre + q, true) {
      a, t, stepEnded := q, [], true;
    } else {
      var k := SplitPoint(ends, steps, pre + q, ended);
      if k <= |pre| {
        assert (pre + q)[k..][|pre| - k] == Ran(d);
        HappensAtAPlace(ends, steps[1..], Ran(d), (pre + q)[k..], ended);
      }
      a, t, stepEnded := q[..k-|pre|], q[k-|pre|..], false;
      assert (pre + q)[..k] == pre + a && (pre + q)[k..] == t;
    }
  }

  /** With no place in the first step, the target is reached after the step has finished. */
  lemma LaterSuffix(ends: bool, steps: seq<Step>, d: DeptId, q: Path, ended: bool) returns (a: Path)
    requires steps != [] && StepPlaces(steps[0], d) == 0 && Reached(d, q) && Suffix(ends, steps, q, ended)
    ensures StepRuns(ends, steps[0], a, false) && Suffix(ends, steps[1..], q, ended)
  {
    var pre :| Runs(ends, steps, pre + q, ended);
    assert (pre + q)[|pre|] == Ran(d);
    if ended && StepRuns(ends, steps[0], pre + q, true) {
      StepHappensAtAPlace(ends, steps[0], Ran(d), pre + q, true);
    }
    var k := SplitPoint(ends, steps, pre + q, ended);
    if |pre| < k {
      assert (pre + q)[..k][|pre|] == Ran(d);
      StepHappensAtAPlace(ends, steps[0], Ran(d), (pre + q)[..k], false);
    }
    a := (pre + q)[..k];
    assert (pre + q)[k..] == pre[k..] + q;
  }

  /** The branch a target is reached in. */
  lemma BranchSuffix(ends: bool, bs: seq<ParallelBranch>, d: DeptId, q: Path, ended: bool) returns (i: nat, branchEnded: bool)
    requires Reached(d, q) && StepSuffix(ends, Parallel(bs), q, ended)
    ensures !ended && i < |bs| && Suffix(ends, bs[i].steps, q, branchEnded) && Places(bs[i].steps, d) > 0
  {
    var pre :| StepRuns(ends, Parallel(bs), pre + q, ended);
    var p := pre + q;
    i :| 0 <= i < |bs| && BranchRuns(ends, bs[i], p);
    assert pre == [] ==> p == q;
    assert p[1..] == pre[1..] + q;
    assert RunsEitherWay(ends, bs[i].steps, p[1..]);
    branchEnded := !Runs(ends, bs[i].steps, p[1..], false);
    assert (pre[1..] + q)[|pre| - 1] == Ran(d);
    HappensAtAPlace(ends, bs[i].steps, Ran(d), p[1..], branchEnded);
  }

  ghost predicate ForwardSuffix(ends: bool, c: ExclusiveBranch, q: Path, ended: bool) {
    c.revertTo == "" && exists pre :: ForwardRuns(ends, c, pre + q, ended)
  }

  /** The forward choice a target is reached in, after any number of reverts to other departments. */
  lemma {:induction false} ChoiceSuffix(ends: bool, cs: seq<ExclusiveBranch>, d: DeptId, cycle: nat, pre: Path, q: Path, ended: bool)
    returns (i: nat)
    requires d != "" && Reached(d, q) && ChoicePlaces(cs, d) <= 1 && ChoicesRunPath(ends, cs, cycle, pre + q, ended)
    ensures i < |cs| && ForwardSuffix(ends, cs[i], q, ended) && Places(cs[i].steps, d) + LeafMarks(cs[i], Ran(d)) > 0
    decreases if cycle <= MAX_REVERT_CYCLES then MAX_REVERT_CYCLES - cycle else 0
  {
    var p := pre + q;
    i :| 0 <= i < |cs| &&
      if cs[i].revertTo != "" then
        && cycle < MAX_REVERT_CYCLES
        && p != [] && p[0] == Ran(cs[i].revertTo)
        && ((p[1..] == [] && !ended) || ChoicesRunPath(ends, cs, cycle + 1, p[1..], ended))
      else
        ForwardRuns(ends, cs[i], p, ended);
    ChoiceMarksAt(cs, Ran(d), i);
    if cs[i].revertTo != "" {
      assert pre == [] ==> p == q;
      assert p[1..] == pre[1..] + q;
      i := ChoiceSuffix(ends, cs, d, cycle + 1, pre[1..], q, ended);
    } else {
      assert p[|pre|] == Ran(d);
      ForwardHappensAtAPlace(ends, cs[i], Ran(d), p, ended);
    }
  }

  /** The steps of the choice the target is reached in, or the target itself. */
  lemma ForwardSuffixSteps(ends: bool, c: ExclusiveBranch, d: DeptId, q: Path, ended: bool) returns (stepsEnded: bool)
    requires Reached(d, q) && ForwardSuffix(ends, c, q, ended)
    ensures if c.steps != [] then Suffix(ends, c.steps, q, stepsEnded) && if ends && c.terminates then ended else stepsEnded == ended
            else !ended && !(ends && c.terminates) && q == [Ran(d)] && c.target == d
  {
    var pre :| ForwardRuns(ends, c, pre + q, ended);
    if c.steps != [] {
      ForwardRunsItsSteps(ends, c, pre + q, ended);
      stepsEnded := if ends && c.terminates then !Runs(ends, c.steps, pre + q, false) else ended;
    } else {
      assert (pre + q)[|pre|] == Ran(d);
      stepsEnded := false;
    }
  }

  // ----- the continuation is the residual -----

  /** What a path goes on with from the target, the continuation runs, when it has no early end of its own. */
  lemma {:induction false} SuffixIsContinuation(ends: bool, steps: seq<Step>, d: DeptId, cont: seq<Step>, q: Path, ended: bool,
                                                skips: bool, quiet: bool)
    requires d != "" && WellFormed(steps) && LabelsRun(steps, d) && Places(steps, d) <= 1
    requires FindRedirectTarget(steps, d) == Some(cont) && (ends ==> Guarded(steps, d, skips, quiet) && NoEnds(cont))
    requires Reached(d, q) && Suffix(ends, steps, q, ended)
    ensures Runs(ends, cont, q, false) && (ended ==> ends && quiet)
    decreases steps
  {
    var within, rest := RedirectWithinStep(steps[0], d), steps[1..];
    if within.Some? {
      StepFoundHasPlace(steps[0], d);
      var a, t, stepEnded := ListSuffix(ends, steps, d, q, ended);
      WellFormedAppend(within.value, rest);
      StepSuffixIsContinuation(ends, steps[0], d, within.value, a, stepEnded, SkipsAfter(rest, skips), QuietAfter(rest, quiet));
      if stepEnded {
        var p := SomePath(true, rest);
        MayOfPath(rest, p, false);
        QuietPath(rest, p, false);
      } else {
        NeverEnds(ends, rest, t);
      }
      RunsAppendJoins(ends, within.value, rest, a, t);
    } else {
      if StepPlaces(steps[0], d) > 0 {
        StepPlaceIsFound(steps[0], d);
      }
      var a := LaterSuffix(ends, steps, d, q, ended);
      SuffixIsContinuation(ends, rest, d, cont, q, ended, skips, quiet);
    }
  }

  lemma {:induction false} StepSuffixIsContinuation(ends: bool, step: Step, d: DeptId, cont: seq<Step>, q: Path, ended: bool,
                                                    skips: bool, quiet: bool)
    requires d != "" && WellFormedStep(step) && StepLabelsRun(step, d) && StepPlaces(step, d) <= 1
    requires RedirectWithinStep(step, d) == Some(cont) && (ends ==> GuardedStep(step, d, skips, quiet) && NoEnds(cont))
    requires Reached(d, q) && StepSuffix(ends, step, q, ended)
    ensures Runs(ends, cont, q, false) && (ended ==> ends && quiet)
    decreases step
  {
    match step
    case Sequential(ds) =>
      var pre :| StepRuns(ends, step, pre + q, ended);
      SequentialResidual(ends, ds, d, pre, q);
    case Parallel(bs) =>
      var i, e := BranchSuffix(ends, bs, d, q, ended);
      BranchSuffixIsContinuation(ends, bs, d, cont, i, q, e, skips);
    case Exclusive(cs) =>
      var pre :| StepRuns(ends, step, pre + q, ended);
      var i := ChoiceSuffix(ends, cs, d, 0, pre, q, ended);
      ChoiceSuffixIsContinuation(ends, cs, d, cont, i, q, ended, skips, quiet);
    case SubWorkflow(steps, _, _, _) =>
      var pre :| StepRuns(ends, step, pre + q, ended);
      assert RunsEitherWay(ends, steps, pre + q);
      SuffixIsContinuation(ends, steps, d, cont, q, !Runs(ends, steps, pre + q, false), true, true);
  }

  lemma SequentialResidual(ends: bool, ds: seq<DeptId>, d: DeptId, pre: Path, q: Path)
    requires CountIn(ds, d) <= 1 && Reached(d, q) && pre + q == RanAll(ds) && d in ds
    ensures Runs(ends, [Sequential(ds[IndexOf(ds, d)..])], q, false)
  {
    assert (pre + q)[|pre|] == Ran(d);
    CountedOnce(ds, d, |pre|, IndexOf(ds, d));
    assert q == (pre + q)[|pre|..];
    LoneDepartmentPath(ends, ds[|pre|..], q);
  }

  lemma {:induction false} BranchSuffixIsContinuation(ends: bool, bs: seq<ParallelBranch>, d: DeptId, cont: seq<Step>, i: nat,
                                                      q: Path, ended: bool, skips: bool)
    requires d != "" && (forall k | 0 <= k < |bs| :: WellFormed(bs[k].steps) && BranchLabelRuns(bs[k], d)) && BranchPlaces(bs, d) <= 1
    requires RedirectWithinBranches(bs, d) == Some(cont) && (ends ==> GuardedBranches(bs, d, skips) && NoEnds(cont))
    requires Reached(d, q) && i < |bs| && Suffix(ends, bs[i].steps, q, ended) && Places(bs[i].steps, d) > 0
    ensures Runs(ends, cont, q, false)
    decreases bs
  {
    assert BranchLabelRuns(bs[0], d);
    if i == 0 {
      PlaceIsFound(bs[0].steps, d);
      SuffixIsContinuation(ends, bs[0].steps, d, cont, q, ended, true, true);
    } else {
      BranchMarksAt(bs[1..], Ran(d), i - 1);
      if FindRedirectTarget(bs[0].steps, d).Some? {
        FoundHasPlace(bs[0].steps, d);
      }
      BranchSuffixIsContinuation(ends, bs[1..], d, cont, i - 1, q, ended, skips);
    }
  }

  lemma {:induction false} ChoiceSuffixIsContinuation(ends: bool, cs: seq<ExclusiveBranch>, d: DeptId, cont: seq<Step>, i: nat,
                                                      q: Path, ended: bool, skips: bool, quiet: bool)
    requires d != "" && (forall k | 0 <= k < |cs| :: WellFormedChoice(cs[k]) && LabelsRun(cs[k].steps, d)) && ChoicePlaces(cs, d) <= 1
    requires RedirectWithinChoices(cs, d) == Some(cont) && (ends ==> GuardedChoices(cs, d, skips, quiet) && NoEnds(cont))
    requires Reached(d, q) && i < |cs| && ForwardSuffix(ends, cs[i], q, ended)
    requires Places(cs[i].steps, d) + LeafMarks(cs[i], Ran(d)) > 0
    ensures Runs(ends, cont, q, false) && (ended ==> ends && quiet)
    decreases cs
  {
    assert WellFormedChoice(cs[0]);
    if i == 0 {
      var e := ForwardSuffixSteps(ends, cs[0], d, q, ended);
      if cs[0].steps == [] {
        LoneDepartmentPath(ends, [d], q);
      } else {
        PlaceIsFound(cs[0].steps, d);
        SuffixIsContinuation(ends, cs[0].steps, d, cont, q, e, if ends && cs[0].terminates then true else skips, quiet);
        if ends {
          MayOfPath(cont, q, false);
        } else if ended {
          NeverEnds(false, cs[0].steps, q);
        }
      }
    } else {
      ChoiceMarksAt(cs[1..], Ran(d), i - 1);
      if FindRedirectTarget(cs[0].steps, d).Some? {
        FoundHasPlace(cs[0].steps, d);
      }
      ChoiceSuffixIsContinuation(ends, cs[1..], d, cont, i - 1, q, ended, skips, quiet);
    }
  }

  /**
   When `d` has one place in the plan, the continuation is the plan's residual at `d`: its paths from `d` on are exactly
   the ways a path of the plan can go on from `d`. With early ends this takes the guard, and a continuation without ends.
   */
  lemma {:induction false} RedirectIsResidual(ends: bool, steps: seq<Step>, d: DeptId, cont: seq<Step>, q: Path)
    requires d != "" && WellFormed(steps) && LabelsRun(steps, d) && Places(steps, d) == 1
    requires FindRedirectTarget(steps, d) == Some(cont) && (ends ==> Guarded(steps, d, true, true) && NoEnds(cont))
    requires Reached(d, q)
    ensures RunsEitherWay(ends, cont, q) <==> exists pre :: RunsEitherWay(ends, steps, pre + q)
  {
    if RunsEitherWay(ends, cont, q) {
      var pre;
      if ends {
        pre := GuardLeads(steps, d, cont, true, true);
      } else {
        pre := FindLeadsTo(steps, d, cont);
        NeverEnds(false, cont, q);
      }
      assert RunsEitherWay(ends, steps, pre + q);
    }
    if pre :| RunsEitherWay(ends, steps, pre + q) {
      SuffixIsContinuation(ends, steps, d, cont, q, !Runs(ends, steps, pre + q, false), true, true);
    }
  }
}
