/**
 The other direction for early ends: in a plan where what runs shows where it ran, the guard on the target's chain
 holds exactly when the continuation keeps to the plan.
 */
module GuardNeeded {
  import opened EarlyEnds
  import opened Plan
  import opened Redirect
  import opened Residual
  import opened Wrappers

  // ----- the guard is needed -----

  /** Every department and every label has at most one place, so that what runs shows where it ran. */
  ghost predicate Unique(steps: seq<Step>) {
    forall e :: Marks(steps, e) <= 1
  }

  ghost predicate UniqueStep(step: Step) {
    forall e :: StepMarks(step, e) <= 1
  }

  /** Paths of the continuation complete paths of `steps`, up to the ends that `quiet` and `skips` allow to differ. */
  ghost predicate Kept(steps: seq<Step>, cont: seq<Step>, skips: bool, quiet: bool) {
    && (forall q | Runs(true, cont, q, false) :: Suffix(true, steps, q, false) || (quiet && Suffix(true, steps, q, true)))
    && (forall q | Runs(true, cont, q, true) :: Suffix(true, steps, q, true) || (skips && Suffix(true, steps, q, false)))
  }

  ghost predicate StepKept(step: Step, cont: seq<Step>, skips: bool, quiet: bool) {
    && (forall q | Runs(true, cont, q, false) :: StepSuffix(true, step, q, false) || (quiet && StepSuffix(true, step, q, true)))
    && (forall q | Runs(true, cont, q, true) :: StepSuffix(true, step, q, true) || (skips && StepSuffix(true, step, q, false)))
  }

  ghost predicate Starts(d: DeptId, cont: seq<Step>) {
    cont != [] && cont[0].Sequential? && cont[0].departments != [] && cont[0].departments[0] == d
  }

  /** The continuation starts with the target. */
  lemma {:induction false} ContinuationStarts(steps: seq<Step>, d: DeptId)
    requires d != "" && WellFormed(steps) && LabelsRun(steps, d) && FindRedirectTarget(steps, d).Some?
    ensures Starts(d, FindRedirectTarget(steps, d).value)
    decreases steps
  {
    if RedirectWithinStep(steps[0], d).Some? {
      StepContinuationStarts(steps[0], d);
    } else {
      ContinuationStarts(steps[1..], d);
    }
  }

  lemma {:induction false} StepContinuationStarts(step: Step, d: DeptId)
    requires d != "" && WellFormedStep(step) && StepLabelsRun(step, d) && RedirectWithinStep(step, d).Some?
    ensures Starts(d, RedirectWithinStep(step, d).value)
    decreases step
  {
    match step
    case Sequential(_) =>
    case Parallel(bs) => BranchContinuationStarts(bs, d);
    case Exclusive(cs) => ChoiceContinuationStarts(cs, d);
    case SubWorkflow(steps, _, _, _) => ContinuationStarts(steps, d);
  }

  lemma {:induction false} BranchContinuationStarts(bs: seq<ParallelBranch>, d: DeptId)
    requires d != "" && (forall i | 0 <= i < |bs| :: WellFormed(bs[i].steps) && BranchLabelRuns(bs[i], d))
    requires RedirectWithinBranches(bs, d).Some?
    ensures Starts(d, RedirectWithinBranches(bs, d).value)
    decreases bs
  {
    assert BranchLabelRuns(bs[0], d);
    if FindRedirectTarget(bs[0].steps, d).Some? {
      ContinuationStarts(bs[0].steps, d);
    } else {
      if bs[0].deptId == d {
        PlaceIsFound(bs[0].steps, d);
      }
      BranchContinuationStarts(bs[1..], d);
    }
  }

  lemma {:induction false} ChoiceContinuationStarts(cs: seq<ExclusiveBranch>, d: DeptId)
    requires d != "" && (forall i | 0 <= i < |cs| :: WellFormedChoice(cs[i]) && LabelsRun(cs[i].steps, d))
    requires RedirectWithinChoices(cs, d).Some?
    ensures Starts(d, RedirectWithinChoices(cs, d).value)
    decreases cs
  {
    assert WellFormedChoice(cs[0]);
    if FindRedirectTarget(cs[0].steps, d).Some? {
      ContinuationStarts(cs[0].steps, d);
    } else if !LeafNames(cs[0], d) {
      ChoiceContinuationStarts(cs[1..], d);
    }
  }

  lemma StartsReached(cont: seq<Step>, d: DeptId, q: Path, ended: bool)
    requires Starts(d, cont) && Runs(true, cont, q, ended)
    ensures Reached(d, q)
  {
    var k := SplitPoint(true, cont, q, ended);
    assert q[..k] == RanAll(cont[0].departments);
    assert q[0] == q[..k][0];
  }

  /** The continuation's places are the list's own. */
  lemma {:induction false} ContinuationMarks(steps: seq<Step>, d: DeptId, e: Event)
    requires d != "" && FindRedirectTarget(steps, d).Some?
    ensures Marks(FindRedirectTarget(steps, d).value, e) <= Marks(steps, e)
    decreases steps
  {
    if RedirectWithinStep(steps[0], d).Some? {
      StepContinuationMarks(steps[0], d, e);
      AppendMarks(RedirectWithinStep(steps[0], d).value, steps[1..], e);
    } else {
      ContinuationMarks(steps[1..], d, e);
    }
  }

  lemma {:induction false} AppendMarks(a: seq<Step>, b: seq<Step>, e: Event)
    ensures Marks(a + b, e) == Marks(a, e) + Marks(b, e)
  {
    if a == [] {
      assert a + b == b;
    } else {
      assert (a + b)[0] == a[0] && (a + b)[1..] == a[1..] + b;
      AppendMarks(a[1..], b, e);
    }
  }

  lemma {:induction false} StepContinuationMarks(step: Step, d: DeptId, e: Event)
    requires d != "" && RedirectWithinStep(step, d).Some?
    ensures Marks(RedirectWithinStep(step, d).value, e) <= StepMarks(step, e)
    decreases step
  {
    match step
    case Sequential(ds) =>
      if e.Ran? {
        CountDropped(ds, IndexOf(ds, d), e.dept);
      }
    case Parallel(bs) => BranchContinuationMarks(bs, d, e);
    case Exclusive(cs) => ChoiceContinuationMarks(cs, d, e);
    case SubWorkflow(steps, _, _, _) => ContinuationMarks(steps, d, e);
  }

  lemma {:induction false} CountDropped(ds: seq<DeptId>, j: nat, d: DeptId)
    requires j <= |ds|
    ensures CountIn(ds[j..], d) <= CountIn(ds, d)
  {
    if j > 0 {
      CountDropped(ds[1..], j - 1, d);
      assert ds[1..][j-1..] == ds[j..];
    }
  }

  lemma {:induction false} BranchContinuationMarks(bs: seq<ParallelBranch>, d: DeptId, e: Event)
    requires d != "" && RedirectWithinBranches(bs, d).Some?
    ensures Marks(RedirectWithinBranches(bs, d).value, e) <= BranchMarks(bs, e)
    decreases bs
  {
    if FindRedirectTarget(bs[0].steps, d).Some? {
      ContinuationMarks(bs[0].steps, d, e);
    } else if bs[0].deptId != d {
      BranchContinuationMarks(bs[1..], d, e);
    }
  }

  lemma LoneMarks(d: DeptId, e: Event)
    ensures Marks([Sequential([d])], e) == if e == Ran(d) then 1 else 0
  {
    var steps, ds := [Sequential([d])], [d];
    assert steps[1..] == [] && ds[1..] == [] && steps[0].departments == ds;
    assert CountIn(ds, d) == 1 && forall x | x != d :: CountIn(ds, x) == 0;
  }

  lemma {:induction false} ChoiceContinuationMarks(cs: seq<ExclusiveBranch>, d: DeptId, e: Event)
    requires d != "" && RedirectWithinChoices(cs, d).Some?
    ensures Marks(RedirectWithinChoices(cs, d).value, e) <= ChoiceMarks(cs, e)
    decreases cs
  {
    if FindRedirectTarget(cs[0].steps, d).Some? {
      ContinuationMarks(cs[0].steps, d, e);
    } else if LeafNames(cs[0], d) {
      LoneMarks(d, e);
    } else {
      ChoiceContinuationMarks(cs[1..], d, e);
    }
  }

  lemma EventApart(steps: seq<Step>, e: Event)
    requires steps != [] && Unique(steps)
    ensures StepMarks(steps[0], e) == 0 || Marks(steps[1..], e) == 0
  {
    assert Marks(steps, e) <= 1;
  }

  /** What happened in the step and what happened in the rest of the list cannot be taken for one another. */
  lemma SplitAgrees(steps: seq<Step>, a: Path, t: Path, b: Path, u: Path)
    requires steps != [] && Unique(steps) && a + t == b + u
    requires forall e | e in a || e in b :: StepMarks(steps[0], e) > 0
    requires forall e | e in t || e in u :: Marks(steps[1..], e) > 0
    ensures a == b && t == u
  {
    if |a| < |b| {
      assert b[|a|] == (a + t)[|a|] == t[0];
      EventApart(steps, b[|a|]);
    } else if |b| < |a| {
      assert a[|b|] == (b + u)[|b|] == u[0];
      EventApart(steps, a[|b|]);
    }
    assert a == (a + t)[..|a|] && b == (b + u)[..|b|];
    assert t == (a + t)[|a|..] && u == (b + u)[|b|..];
  }

  lemma InnerEventsAreTheSteps(steps: seq<Step>, d: DeptId, q: Path, ended: bool)
    requires d != "" && steps != [] && RedirectWithinStep(steps[0], d).Some?
    requires Runs(true, RedirectWithinStep(steps[0], d).value, q, ended)
    ensures forall e | e in q :: StepMarks(steps[0], e) > 0
  {
    forall e | e in q ensures StepMarks(steps[0], e) > 0 {
      HappensAtAPlace(true, RedirectWithinStep(steps[0], d).value, e, q, ended);
      StepContinuationMarks(steps[0], d, e);
    }
  }

  lemma SuffixEventsAreTheSteps(step: Step, q: Path, ended: bool)
    requires StepSuffix(true, step, q, ended)
    ensures forall e | e in q :: StepMarks(step, e) > 0
  {
    var pre :| StepRuns(true, step, pre + q, ended);
    forall e | e in q ensures StepMarks(step, e) > 0 {
      StepHappensAtAPlace(true, step, e, pre + q, ended);
    }
  }

  lemma RestEvents(rest: seq<Step>, t: Path, ended: bool)
    requires Runs(true, rest, t, ended)
    ensures forall e | e in t :: Marks(rest, e) > 0
  {
    forall e | e in t ensures Marks(rest, e) > 0 {
      HappensAtAPlace(true, rest, e, t, ended);
    }
  }

  lemma {:induction false} FinishThen(a: seq<Step>, b: seq<Step>, p: Path, q: Path, ended: bool)
    requires Runs(true, a, p, false) && Runs(true, b, q, ended)
    ensures Runs(true, a + b, p + q, ended)
    decreases a
  {
    if a == [] {
      assert a + b == b && p + q == q;
    } else {
      var i :| 0 <= i <= |p| && RunsSplitAt(true, a, p, false, i);
      FinishThen(a[1..], b, p[i..], q, ended);
      assert (a + b)[0] == a[0] && (a + b)[1..] == a[1..] + b;
      RunsCons(true, a + b, p[..i], p[i..] + q, ended);
      assert p[..i] + (p[i..] + q) == p + q;
    }
  }

  lemma {:induction false} EndThen(a: seq<Step>, b: seq<Step>, p: Path)
    requires Runs(true, a, p, true)
    ensures Runs(true, a + b, p, true)
    decreases a
  {
    assert (a + b)[0] == a[0] && (a + b)[1..] == a[1..] + b;
    if !StepRuns(true, a[0], p, true) {
      var i := SplitPoint(true, a, p, true);
      EndThen(a[1..], b, p[i..]);
      RunsCons(true, a + b, p[..i], p[i..], true);
      assert p[..i] + p[i..] == p;
    }
  }

  /** The list's first step holds the target's only place. */
  ghost predicate FoundFirst(steps: seq<Step>, d: DeptId) {
    && d != "" && steps != [] && WellFormed(steps) && LabelsRun(steps, d) && Unique(steps)
    && RedirectWithinStep(steps[0], d).Some?
  }

  lemma FoundFirstOnly(steps: seq<Step>, d: DeptId)
    requires FoundFirst(steps, d)
    ensures Places(steps[1..], d) == 0 && Starts(d, RedirectWithinStep(steps[0], d).value) && UniqueStep(steps[0]) && Unique(steps[1..])
  {
    StepFoundHasPlace(steps[0], d);
    StepContinuationStarts(steps[0], d);
    assert Marks(steps, Ran(d)) <= 1;
    forall e ensures StepMarks(steps[0], e) <= 1 && Marks(steps[1..], e) <= 1 {
      assert Marks(steps, e) <= 1;
    }
  }

  /** A path that finishes the step's continuation and then runs the rest shows how the plan's path went through both. */
  lemma FinishedInStep(steps: seq<Step>, d: DeptId, skips: bool, quiet: bool, a: Path, t: Path, ended: bool)
    requires FoundFirst(steps, d)
    requires Kept(steps, RedirectWithinStep(steps[0], d).value + steps[1..], skips, quiet)
    requires Runs(true, RedirectWithinStep(steps[0], d).value, a, false) && Runs(true, steps[1..], t, ended)
    ensures StepSuffix(true, steps[0], a, false) || (t == [] && StepSuffix(true, steps[0], a, true) && (!ended ==> quiet))
  {
    var inner, rest := RedirectWithinStep(steps[0], d).value, steps[1..];
    FoundFirstOnly(steps, d);
    StartsReached(inner, d, a, false);
    FinishThen(inner, rest, a, t, ended);
    var q := a + t;
    var e := if Suffix(true, steps, q, ended) then ended else !ended;
    var b, u, stepEnded := ListSuffix(true, steps, d, q, e);
    InnerEventsAreTheSteps(steps, d, a, false);
    SuffixEventsAreTheSteps(steps[0], b, stepEnded);
    RestEvents(rest, t, ended);
    if !stepEnded {
      RestEvents(rest, u, e);
    }
    SplitAgrees(steps, a, t, b, u);
  }

  lemma EndedInStep(steps: seq<Step>, d: DeptId, skips: bool, quiet: bool, a: Path)
    requires FoundFirst(steps, d)
    requires Kept(steps, RedirectWithinStep(steps[0], d).value + steps[1..], skips, quiet)
    requires Runs(true, RedirectWithinStep(steps[0], d).value, a, true)
    ensures StepSuffix(true, steps[0], a, true) || (SkipsAfter(steps[1..], skips) && StepSuffix(true, steps[0], a, false))
  {
    var inner, rest := RedirectWithinStep(steps[0], d).value, steps[1..];
    FoundFirstOnly(steps, d);
    StartsReached(inner, d, a, true);
    EndThen(inner, rest, a);
    var e := Suffix(true, steps, a, true);
    var b, u, stepEnded := ListSuffix(true, steps, d, a, e);
    InnerEventsAreTheSteps(steps, d, a, true);
    SuffixEventsAreTheSteps(steps[0], b, stepEnded);
    assert b + [] == b && a + [] == a;
    if !stepEnded {
      RestEvents(rest, u, e);
      SplitAgrees(steps, a, [], b, u);
      MayOfPath(rest, u, e);
    }
  }

  lemma KeptInStep(steps: seq<Step>, d: DeptId, skips: bool, quiet: bool)
    requires FoundFirst(steps, d)
    requires Kept(steps, RedirectWithinStep(steps[0], d).value + steps[1..], skips, quiet)
    ensures StepKept(steps[0], RedirectWithinStep(steps[0], d).value, SkipsAfter(steps[1..], skips), QuietAfter(steps[1..], quiet))
  {
    var inner, rest := RedirectWithinStep(steps[0], d).value, steps[1..];
    forall a | Runs(true, inner, a, false)
      ensures StepSuffix(true, steps[0], a, false) || (QuietAfter(rest, quiet) && StepSuffix(true, steps[0], a, true))
    {
      WellFormedRuns(rest);
      forall t, ended | Runs(true, rest, t, ended)
        ensures StepSuffix(true, steps[0], a, false) || (t == [] && StepSuffix(true, steps[0], a, true) && (!ended ==> quiet))
      {
        FinishedInStep(steps, d, skips, quiet, a, t, ended);
      }
      QuietOrFinished(rest, quiet, StepSuffix(true, steps[0], a, false), StepSuffix(true, steps[0], a, true));
    }
    forall a | Runs(true, inner, a, true)
      ensures StepSuffix(true, steps[0], a, true) || (SkipsAfter(rest, skips) && StepSuffix(true, steps[0], a, false))
    {
      EndedInStep(steps, d, skips, quiet, a);
    }
  }

  lemma QuietOrFinished(rest: seq<Step>, quiet: bool, finished: bool, ended: bool)
    requires CanFinish(rest) || CanEnd(rest)
    requires forall t, e | Runs(true, rest, t, e) :: finished || (t == [] && ended && (!e ==> quiet))
    ensures finished || (QuietAfter(rest, quiet) && ended)
  {
    var p := SomeRun(rest);
    if May(rest, false, false) {
      var t := PathOf(rest, false, false);
    }
    if May(rest, true, false) {
      var t := PathOf(rest, true, false);
    }
    if CanFinish(rest) {
      var t := PathOf(rest, false, May(rest, false, true));
    }
  }

  /** The guard follows from what it guards: nothing the continuation runs, or leaves out, may show. */
  lemma {:induction false} GuardIsNeeded(steps: seq<Step>, d: DeptId, cont: seq<Step>, skips: bool, quiet: bool)
    requires d != "" && WellFormed(steps) && LabelsRun(steps, d) && Unique(steps) && FindRedirectTarget(steps, d) == Some(cont)
    requires Kept(steps, cont, skips, quiet)
    ensures Guarded(steps, d, skips, quiet)
    decreases steps
  {
    if RedirectWithinStep(steps[0], d).Some? {
      KeptInStep(steps, d, skips, quiet);
      FoundFirstOnly(steps, d);
      GuardIsNeededInStep(steps[0], d, RedirectWithinStep(steps[0], d).value, SkipsAfter(steps[1..], skips), QuietAfter(steps[1..], quiet));
    } else {
      KeptLater(steps, d, cont, skips, quiet);
      GuardIsNeeded(steps[1..], d, cont, skips, quiet);
    }
  }

  lemma KeptLater(steps: seq<Step>, d: DeptId, cont: seq<Step>, skips: bool, quiet: bool)
    requires d != "" && WellFormed(steps) && LabelsRun(steps, d) && Unique(steps) && FindRedirectTarget(steps, d) == Some(cont)
    requires RedirectWithinStep(steps[0], d).None? && Kept(steps, cont, skips, quiet)
    ensures MayStep(steps[0], false, true) || MayStep(steps[0], false, false)
    ensures Kept(steps[1..], cont, skips, quiet) && Unique(steps[1..])
  {
    if StepPlaces(steps[0], d) > 0 {
      StepPlaceIsFound(steps[0], d);
    }
    forall e ensures Marks(steps[1..], e) <= 1 {
      assert Marks(steps, e) <= 1;
    }
    ContinuationStarts(steps, d);
    forall q, ended, e | Runs(true, cont, q, ended) && Suffix(true, steps, q, e)
      ensures Suffix(true, steps[1..], q, e) && (MayStep(steps[0], false, true) || MayStep(steps[0], false, false))
    {
      StartsReached(cont, d, q, ended);
      var a := LaterSuffix(true, steps, d, q, e);
      MayOfStepPath(steps[0], a, false);
    }
    FindKeepsShape(false, steps, d);
    WellFormedRuns(cont);
    var q := SomeRun(cont);
    assert Suffix(true, steps, q, false) || Suffix(true, steps, q, true);
  }

  lemma {:induction false} GuardIsNeededInStep(step: Step, d: DeptId, cont: seq<Step>, skips: bool, quiet: bool)
    requires d != "" && WellFormedStep(step) && StepLabelsRun(step, d) && UniqueStep(step) && RedirectWithinStep(step, d) == Some(cont)
    requires StepKept(step, cont, skips, quiet)
    ensures GuardedStep(step, d, skips, quiet)
    decreases step
  {
    StepContinuationStarts(step, d);
    match step
    case Sequential(_) =>
    case Parallel(bs) =>
      forall e ensures BranchMarks(bs, e) <= 1 {
        assert StepMarks(step, e) <= 1;
      }
      GuardIsNeededInBranches(bs, d, cont, skips);
    case Exclusive(cs) =>
      forall e ensures ChoiceMarks(cs, e) <= 1 {
        assert StepMarks(step, e) <= 1;
      }
      KeptByChoices(cs, d, cont, skips, quiet);
      GuardIsNeededInChoices(cs, d, cont, skips, quiet);
    case SubWorkflow(steps, _, _, _) =>
      forall e ensures Marks(steps, e) <= 1 {
        assert StepMarks(step, e) <= 1;
      }
      forall q, ended | Runs(true, cont, q, ended)
        ensures Suffix(true, steps, q, false) || Suffix(true, steps, q, true)
        ensures ended ==> skips
      {
        SubWorkflowSuffix(step, q);
      }
      EndsAllowed(cont, skips);
      GuardIsNeeded(steps, d, cont, true, true);
  }

  lemma SubWorkflowSuffix(step: Step, q: Path)
    requires step.SubWorkflow?
    ensures !StepSuffix(true, step, q, true)
    ensures StepSuffix(true, step, q, false) ==> Suffix(true, step.steps, q, false) || Suffix(true, step.steps, q, true)
  {
    if pre :| StepRuns(true, step, pre + q, false) {
      assert RunsEitherWay(true, step.steps, pre + q);
    }
  }

  lemma EndsAllowed(cont: seq<Step>, skips: bool)
    requires forall q, ended | Runs(true, cont, q, ended) :: ended ==> skips
    ensures CanEnd(cont) ==> skips
  {
    if CanEnd(cont) {
      var q := PathOf(cont, true, May(cont, true, true));
    }
  }

  /** Every path of the continuation completes one of the branches, and an early end is allowed. */
  ghost predicate KeptByBranches(bs: seq<ParallelBranch>, cont: seq<Step>, skips: bool) {
    forall q, ended | Runs(true, cont, q, ended) :: StepSuffix(true, Parallel(bs), q, false) && (ended ==> skips)
  }

  lemma {:induction false} GuardIsNeededInBranches(bs: seq<ParallelBranch>, d: DeptId, cont: seq<Step>, skips: bool)
    requires d != "" && (forall i | 0 <= i < |bs| :: WellFormed(bs[i].steps) && BranchLabelRuns(bs[i], d))
    requires (forall e :: BranchMarks(bs, e) <= 1) && RedirectWithinBranches(bs, d) == Some(cont) && Starts(d, cont)
    requires KeptByBranches(bs, cont, skips)
    ensures GuardedBranches(bs, d, skips)
    decreases bs
  {
    assert BranchLabelRuns(bs[0], d);
    EndsAllowed(cont, skips);
    assert BranchMarks(bs, Ran(d)) <= 1;
    if FindRedirectTarget(bs[0].steps, d).Some? {
      FoundHasPlace(bs[0].steps, d);
      forall q, ended | Runs(true, cont, q, ended)
        ensures Suffix(true, bs[0].steps, q, false) || Suffix(true, bs[0].steps, q, true)
      {
        StartsReached(cont, d, q, ended);
        var i, e := BranchSuffix(true, bs, d, q, false);
        if i > 0 {
          BranchMarksAt(bs[1..], Ran(d), i - 1);
        }
      }
      forall e ensures Marks(bs[0].steps, e) <= 1 {
        assert BranchMarks(bs, e) <= 1;
      }
      GuardIsNeeded(bs[0].steps, d, cont, true, true);
    } else {
      if Places(bs[0].steps, d) > 0 {
        PlaceIsFound(bs[0].steps, d);
      }
      forall q, ended | Runs(true, cont, q, ended)
        ensures StepSuffix(true, Parallel(bs[1..]), q, false) && (ended ==> skips)
      {
        StartsReached(cont, d, q, ended);
        LaterBranch(bs, d, q);
      }
      forall e ensures BranchMarks(bs[1..], e) <= 1 {
        assert BranchMarks(bs, e) <= 1;
      }
      GuardIsNeededInBranches(bs[1..], d, cont, skips);
    }
  }

  lemma LaterBranch(bs: seq<ParallelBranch>, d: DeptId, q: Path)
    requires bs != [] && Places(bs[0].steps, d) == 0 && Reached(d, q) && StepSuffix(true, Parallel(bs), q, false)
    ensures StepSuffix(true, Parallel(bs[1..]), q, false)
  {
    var pre :| StepRuns(true, Parallel(bs), pre + q, false);
    var i :| 0 <= i < |bs| && BranchRuns(true, bs[i], pre + q);
    assert (pre + q)[|pre|] == Ran(d);
    BranchHappensAtAPlace(true, bs[i], Ran(d), pre + q);
    assert bs[1..][i-1] == bs[i];
  }

  /** Every path of the continuation completes a forward choice, up to the ends that `quiet` and `skips` allow to differ. */
  ghost predicate ChoicesKept(cs: seq<ExclusiveBranch>, cont: seq<Step>, skips: bool, quiet: bool) {
    && (forall q | Runs(true, cont, q, false) :: SomeForward(cs, q, false) || (quiet && SomeForward(cs, q, true)))
    && (forall q | Runs(true, cont, q, true) :: SomeForward(cs, q, true) || (skips && SomeForward(cs, q, false)))
  }

  ghost predicate SomeForward(cs: seq<ExclusiveBranch>, q: Path, ended: bool) {
    exists i :: 0 <= i < |cs| && ForwardSuffix(true, cs[i], q, ended)
  }

  lemma KeptByChoices(cs: seq<ExclusiveBranch>, d: DeptId, cont: seq<Step>, skips: bool, quiet: bool)
    requires d != "" && ChoicePlaces(cs, d) <= 1 && Starts(d, cont) && StepKept(Exclusive(cs), cont, skips, quiet)
    ensures ChoicesKept(cs, cont, skips, quiet)
  {
    forall q, ended, e | Runs(true, cont, q, ended) && StepSuffix(true, Exclusive(cs), q, e)
      ensures SomeForward(cs, q, e)
    {
      StartsReached(cont, d, q, ended);
      var pre :| StepRuns(true, Exclusive(cs), pre + q, e);
      var i := ChoiceSuffix(true, cs, d, 0, pre, q, e);
    }
  }

  lemma {:induction false} GuardIsNeededInChoices(cs: seq<ExclusiveBranch>, d: DeptId, cont: seq<Step>, skips: bool, quiet: bool)
    requires d != "" && (forall i | 0 <= i < |cs| :: WellFormedChoice(cs[i]) && LabelsRun(cs[i].steps, d))
    requires (forall e :: ChoiceMarks(cs, e) <= 1) && RedirectWithinChoices(cs, d) == Some(cont) && Starts(d, cont)
    requires ChoicesKept(cs, cont, skips, quiet)
    ensures GuardedChoices(cs, d, skips, quiet)
    decreases cs
  {
    assert WellFormedChoice(cs[0]) && ChoiceMarks(cs, Ran(d)) <= 1;
    if FindRedirectTarget(cs[0].steps, d).Some? {
      FoundHasPlace(cs[0].steps, d);
      forall e ensures Marks(cs[0].steps, e) <= 1 {
        assert ChoiceMarks(cs, e) <= 1;
      }
      KeptByChoice(cs, d, cont, skips, quiet);
      GuardIsNeeded(cs[0].steps, d, cont, if cs[0].terminates then true else skips, quiet);
    } else if LeafNames(cs[0], d) {
      WellFormedRuns(cont);
      LeafIsReached(cs, d, cont, skips, quiet);
    } else {
      if Places(cs[0].steps, d) > 0 {
        PlaceIsFound(cs[0].steps, d);
      }
      forall e ensures ChoiceMarks(cs[1..], e) <= 1 {
        assert ChoiceMarks(cs, e) <= 1;
      }
      LaterChoices(cs, d, cont, skips, quiet);
      GuardIsNeededInChoices(cs[1..], d, cont, skips, quiet);
    }
  }

  /** The forward choice that completes a path from the target is the one with the target's place. */
  lemma ForwardAt(cs: seq<ExclusiveBranch>, d: DeptId, q: Path, ended: bool) returns (i: nat)
    requires Reached(d, q) && SomeForward(cs, q, ended)
    ensures i < |cs| && ForwardSuffix(true, cs[i], q, ended) && Places(cs[i].steps, d) + LeafMarks(cs[i], Ran(d)) > 0
  {
    i :| 0 <= i < |cs| && ForwardSuffix(true, cs[i], q, ended);
    var pre :| ForwardRuns(true, cs[i], pre + q, ended);
    assert (pre + q)[|pre|] == Ran(d);
    ForwardHappensAtAPlace(true, cs[i], Ran(d), pre + q, ended);
  }

  lemma FirstChoice(cs: seq<ExclusiveBranch>, d: DeptId, q: Path, ended: bool)
    requires cs != [] && ChoicePlaces(cs, d) <= 1 && Places(cs[0].steps, d) + LeafMarks(cs[0], Ran(d)) > 0
    requires Reached(d, q) && SomeForward(cs, q, ended)
    ensures ForwardSuffix(true, cs[0], q, ended)
  {
    var i := ForwardAt(cs, d, q, ended);
    if i > 0 {
      ChoiceMarksAt(cs[1..], Ran(d), i - 1);
    }
  }

  lemma KeptByChoice(cs: seq<ExclusiveBranch>, d: DeptId, cont: seq<Step>, skips: bool, quiet: bool)
    requires cs != [] && ChoicePlaces(cs, d) <= 1 && Places(cs[0].steps, d) > 0 && Starts(d, cont)
    requires ChoicesKept(cs, cont, skips, quiet)
    ensures Kept(cs[0].steps, cont, if cs[0].terminates then true else skips, quiet)
    ensures cs[0].terminates && CanFinish(cont) ==> quiet
  {
    var c := cs[0];
    forall q, ended, e | Runs(true, cont, q, ended) && SomeForward(cs, q, e)
      ensures if c.terminates then e && (Suffix(true, c.steps, q, false) || Suffix(true, c.steps, q, true)) else Suffix(true, c.steps, q, e)
    {
      StartsReached(cont, d, q, ended);
      FirstChoice(cs, d, q, e);
      var stepsEnded := ForwardSuffixSteps(true, c, d, q, e);
    }
    if c.terminates && CanFinish(cont) {
      var q := PathOf(cont, false, May(cont, false, true));
      assert !SomeForward(cs, q, false);
    }
  }

  lemma LeafIsReached(cs: seq<ExclusiveBranch>, d: DeptId, cont: seq<Step>, skips: bool, quiet: bool)
    requires d != "" && cs != [] && WellFormedChoice(cs[0]) && LeafNames(cs[0], d) && ChoicePlaces(cs, d) <= 1
    requires cont == [Sequential([d])] && ChoicesKept(cs, cont, skips, quiet)
    ensures cs[0].revertTo != "" || !cs[0].terminates
  {
    var q := [Ran(d)];
    assert RanAll([d]) == q;
    LoneDepartmentPath(true, [d], q);
    var e := !SomeForward(cs, q, false);
    FirstChoice(cs, d, q, e);
    var stepsEnded := ForwardSuffixSteps(true, cs[0], d, q, e);
  }

  lemma LaterChoices(cs: seq<ExclusiveBranch>, d: DeptId, cont: seq<Step>, skips: bool, quiet: bool)
    requires cs != [] && Places(cs[0].steps, d) == 0 && !LeafNames(cs[0], d) && WellFormedChoice(cs[0]) && Starts(d, cont)
    requires d != "" && ChoicesKept(cs, cont, skips, quiet)
    ensures ChoicesKept(cs[1..], cont, skips, quiet)
  {
    forall q, ended, e | Runs(true, cont, q, ended) && SomeForward(cs, q, e)
      ensures SomeForward(cs[1..], q, e)
    {
      StartsReached(cont, d, q, ended);
      var i := ForwardAt(cs, d, q, e);
      assert cs[1..][i-1] == cs[i];
    }
  }

  /** Every path of the continuation, early ends included, is a suffix of a path of the plan, from the target on. */
  ghost predicate KeepsToThePlan(steps: seq<Step>, d: DeptId, cont: seq<Step>) {
    forall q | RunsEitherWay(true, cont, q) :: exists pre :: RunsEitherWay(true, steps, pre + q) && StartsAt(d, pre, q)
  }

  /** Where every department and label has one place, the guard decides whether the continuation keeps to the plan. */
  lemma {:induction false} KeepsToThePlanExactlyWhenGuarded(steps: seq<Step>, d: DeptId, cont: seq<Step>)
    requires d != "" && WellFormed(steps) && LabelsRun(steps, d) && Unique(steps) && FindRedirectTarget(steps, d) == Some(cont)
    ensures KeepsToThePlan(steps, d, cont) <==> Guarded(steps, d, true, true)
  {
    if Guarded(steps, d, true, true) {
      var pre := GuardLeads(steps, d, cont, true, true);
      forall q | RunsEitherWay(true, cont, q) ensures exists p :: RunsEitherWay(true, steps, p + q) && StartsAt(d, p, q) {
        assert RunsEitherWay(true, steps, pre + q) && StartsAt(d, pre, q);
      }
    }
    if KeepsToThePlan(steps, d, cont) {
      forall q, ended | Runs(true, cont, q, ended) ensures Suffix(true, steps, q, false) || Suffix(true, steps, q, true) {
        assert RunsEitherWay(true, cont, q);
        var pre :| RunsEitherWay(true, steps, pre + q) && StartsAt(d, pre, q);
      }
      GuardIsNeeded(steps, d, cont, true, true);
    }
  }
}
