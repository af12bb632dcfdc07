/**
 Where a redirect looks for its target: the main steps, then every boundary path of the plan.
 */
module RedirectSearch {
  import opened Plan
  import opened Redirect
  import opened Wrappers

  function SubWorkflowPaths(step: Step): (paths: seq<seq<Step>>)
    requires step.SubWorkflow?
  {
    StepsOf(step.errorPaths) + StepsOf(step.timerPaths) + StepsOf(step.messagePaths)
  }

  function StepsOf(paths: seq<BoundaryPath>): (lists: seq<seq<Step>>)
    ensures |lists| == |paths|
    ensures forall i | 0 <= i < |paths| :: lists[i] == paths[i].steps
  {
    seq(|paths|, i requires 0 <= i < |paths| => paths[i].steps)
  }

  /** The boundary paths of every sub-workflow in the list, and of every sub-workflow in those, at any depth. */
  function CallPaths(steps: seq<Step>): seq<seq<Step>>
    decreases steps
  {
    if steps == [] then [] else StepCallPaths(steps[0]) + CallPaths(steps[1..])
  }

  function StepCallPaths(step: Step): seq<seq<Step>>
    decreases step
  {
    match step
    case Sequential(_) => []
    case Parallel(bs) => BranchCallPaths(bs)
    case Exclusive(cs) => ChoiceCallPaths(cs)
    case SubWorkflow(steps, errorPaths, timerPaths, messagePaths) =>
      SubWorkflowPaths(step) + CallPaths(steps)
      + (EachCallPaths(errorPaths) + EachCallPaths(timerPaths) + EachCallPaths(messagePaths))
  }

  function BranchCallPaths(bs: seq<ParallelBranch>): seq<seq<Step>>
    decreases bs
  {
    if bs == [] then [] else CallPaths(bs[0].steps) + BranchCallPaths(bs[1..])
  }

  function ChoiceCallPaths(cs: seq<ExclusiveBranch>): seq<seq<Step>>
    decreases cs
  {
    if cs == [] then [] else CallPaths(cs[0].steps) + ChoiceCallPaths(cs[1..])
  }

  function EachCallPaths(paths: seq<BoundaryPath>): seq<seq<Step>>
    decreases paths
  {
    if paths == [] then [] else CallPaths(paths[0].steps) + EachCallPaths(paths[1..])
  }

  function OptionPath(path: Option<seq<Step>>): seq<seq<Step>> {
    match path
    case Some(steps) => [steps]
    case None => []
  }

  function StagePaths(stages: seq<Stage>): seq<seq<Step>> {
    if stages == [] then []
    else OptionPath(stages[0].timerPath) + OptionPath(stages[0].messagePath) + StagePaths(stages[1..])
  }

  function DepartmentPaths(departments: seq<Department>): seq<seq<Step>> {
    if departments == [] then [] else StagePaths(departments[0].stages) + DepartmentPaths(departments[1..])
  }

  /** Each stage path followed by the boundary paths of the sub-workflows inside it. */
  function WithCallPaths(paths: seq<seq<Step>>): seq<seq<Step>> {
    if paths == [] then [] else [paths[0]] + CallPaths(paths[0]) + WithCallPaths(paths[1..])
  }

  function BoundaryPaths(plan: CompiledPlan): seq<seq<Step>> {
    CallPaths(plan.steps) + WithCallPaths(DepartmentPaths(plan.departments))
  }

  function FirstFound(paths: seq<seq<Step>>, d: DeptId): Option<seq<Step>>
  {
    if paths == [] then None
    else if FindRedirectTarget(paths[0], d).Some? then FindRedirectTarget(paths[0], d)
    else FirstFound(paths[1..], d)
  }

  /** The continuation found in the plan, or None when the redirect falls back to `d` alone. */
  function RedirectWithinPlan(plan: CompiledPlan, d: DeptId): Option<seq<Step>> {
    match FindRedirectTarget(plan.steps, d)
    case Some(cont) => Some(cont)
    case None => FirstFound(BoundaryPaths(plan), d)
  }

  function RedirectSteps(plan: CompiledPlan, d: DeptId): seq<Step> {
    match RedirectWithinPlan(plan, d)
    case Some(cont) => cont
    case None => [Sequential([d])]
  }

  // ----- an independent reading of "named somewhere in the plan" -----

  /** `d` is named in the list: by a sequential step, a parallel label, an exclusive leaf, or anywhere inside, boundary paths included. */
  predicate NamedIn(steps: seq<Step>, d: DeptId)
    decreases steps
  {
    exists i | 0 <= i < |steps| :: NamedInStep(steps[i], d)
  }

  predicate NamedInStep(step: Step, d: DeptId)
    decreases step
  {
    match step
    case Sequential(ds) => d in ds
    case Parallel(bs) => exists i | 0 <= i < |bs| :: bs[i].deptId == d || NamedIn(bs[i].steps, d)
    case Exclusive(cs) => exists i | 0 <= i < |cs| :: LeafNames(cs[i], d) || NamedIn(cs[i].steps, d)
    case SubWorkflow(steps, errorPaths, timerPaths, messagePaths) =>
      || NamedIn(steps, d)
      || (exists i | 0 <= i < |errorPaths| :: NamedIn(errorPaths[i].steps, d))
      || (exists i | 0 <= i < |timerPaths| :: NamedIn(timerPaths[i].steps, d))
      || (exists i | 0 <= i < |messagePaths| :: NamedIn(messagePaths[i].steps, d))
  }

  predicate PathNames(path: Option<seq<Step>>, d: DeptId) {
    path.Some? && NamedIn(path.value, d)
  }

  predicate NamedInStages(stages: seq<Stage>, d: DeptId) {
    exists j | 0 <= j < |stages| :: PathNames(stages[j].timerPath, d) || PathNames(stages[j].messagePath, d)
  }

  predicate NamedInPlan(plan: CompiledPlan, d: DeptId) {
    || NamedIn(plan.steps, d)
    || (exists i | 0 <= i < |plan.departments| :: NamedInStages(plan.departments[i].stages, d))
  }

  // ----- the search misses no place -----

  predicate FoundIn(steps: seq<Step>, d: DeptId) {
    FindRedirectTarget(steps, d).Some?
  }

  predicate FoundInSome(paths: seq<seq<Step>>, d: DeptId) {
    exists i | 0 <= i < |paths| :: FoundIn(paths[i], d)
  }

  lemma {:induction false} FirstFoundMissesNone(paths: seq<seq<Step>>, d: DeptId)
    ensures FirstFound(paths, d).Some? <==> FoundInSome(paths, d)
  {
    if paths != [] {
      FirstFoundMissesNone(paths[1..], d);
      FoundInSomeSplits(paths[..1], paths[1..], d);
      assert paths == paths[..1] + paths[1..];
    }
  }

  lemma FoundInSomeSplits(a: seq<seq<Step>>, b: seq<seq<Step>>, d: DeptId)
    ensures FoundInSome(a + b, d) <==> FoundInSome(a, d) || FoundInSome(b, d)
  {
    if FoundInSome(a, d) {
      var i :| 0 <= i < |a| && FoundIn(a[i], d);
      assert (a + b)[i] == a[i];
    } else if FoundInSome(b, d) {
      var i :| 0 <= i < |b| && FoundIn(b[i], d);
      assert (a + b)[|a| + i] == b[i];
    }
  }

  lemma {:induction false} NamedIsFound(steps: seq<Step>, d: DeptId)
    ensures NamedIn(steps, d) <==> FoundIn(steps, d) || FoundInSome(CallPaths(steps), d)
    decreases steps
  {
    if steps != [] {
      StepNamedIsFound(steps[0], d);
      NamedIsFound(steps[1..], d);
      FoundInSomeSplits(StepCallPaths(steps[0]), CallPaths(steps[1..]), d);
      if i :| 0 <= i < |steps| && NamedInStep(steps[i], d) {
        assert i == 0 || NamedInStep(steps[1..][i-1], d);
      }
      assert NamedIn(steps[1..], d) ==> NamedIn(steps, d);
    }
  }

  lemma {:induction false} StepNamedIsFound(step: Step, d: DeptId)
    ensures NamedInStep(step, d) <==> RedirectWithinStep(step, d).Some? || FoundInSome(StepCallPaths(step), d)
    decreases step
  {
    match step
    case Sequential(ds) =>
    case Parallel(bs) => BranchNamedIsFound(bs, d);
    case Exclusive(cs) => ChoiceNamedIsFound(cs, d);
    case SubWorkflow(steps, errorPaths, timerPaths, messagePaths) =>
      NamedIsFound(steps, d);
      EachNamedIsFound(errorPaths, d);
      EachNamedIsFound(timerPaths, d);
      EachNamedIsFound(messagePaths, d);
      SubWorkflowPathsSplit(step, d);
  }

  lemma SubWorkflowPathsSplit(step: Step, d: DeptId)
    requires step.SubWorkflow?
    ensures FoundInSome(StepCallPaths(step), d) <==>
            || FoundInSome(StepsOf(step.errorPaths), d) || FoundInSome(StepsOf(step.timerPaths), d)
            || FoundInSome(StepsOf(step.messagePaths), d)
            || FoundInSome(CallPaths(step.steps), d)
            || FoundInSome(EachCallPaths(step.errorPaths), d)
            || FoundInSome(EachCallPaths(step.timerPaths), d)
            || FoundInSome(EachCallPaths(step.messagePaths), d)
  {
    var errors, timers, messages := StepsOf(step.errorPaths), StepsOf(step.timerPaths), StepsOf(step.messagePaths);
    var errorCalls, timerCalls, messageCalls :=
      EachCallPaths(step.errorPaths), EachCallPaths(step.timerPaths), EachCallPaths(step.messagePaths);
    FoundInSomeSplits(errors, timers, d);
    FoundInSomeSplits(errors + timers, messages, d);
    FoundInSomeSplits(SubWorkflowPaths(step), CallPaths(step.steps), d);
    FoundInSomeSplits(errorCalls, timerCalls, d);
    FoundInSomeSplits(errorCalls + timerCalls, messageCalls, d);
    FoundInSomeSplits(SubWorkflowPaths(step) + CallPaths(step.steps), errorCalls + timerCalls + messageCalls, d);
  }

  lemma {:induction false} BranchNamedIsFound(bs: seq<ParallelBranch>, d: DeptId)
    ensures NamedInStep(Parallel(bs), d) <==> RedirectWithinBranches(bs, d).Some? || FoundInSome(BranchCallPaths(bs), d)
    decreases bs
  {
    if bs != [] {
      NamedIsFound(bs[0].steps, d);
      BranchNamedIsFound(bs[1..], d);
      FoundInSomeSplits(CallPaths(bs[0].steps), BranchCallPaths(bs[1..]), d);
      assert NamedInStep(Parallel(bs), d) <==> bs[0].deptId == d || NamedIn(bs[0].steps, d) || NamedInStep(Parallel(bs[1..]), d) by {
        if i :| 0 <= i < |bs| && (bs[i].deptId == d || NamedIn(bs[i].steps, d)) {
          assert i == 0 || bs[1..][i-1] == bs[i];
        }
        if i :| 0 <= i < |bs[1..]| && (bs[1..][i].deptId == d || NamedIn(bs[1..][i].steps, d)) {
          assert bs[i+1] == bs[1..][i];
        }
      }
    }
  }

  lemma {:induction false} ChoiceNamedIsFound(cs: seq<ExclusiveBranch>, d: DeptId)
    ensures NamedInStep(Exclusive(cs), d) <==> RedirectWithinChoices(cs, d).Some? || FoundInSome(ChoiceCallPaths(cs), d)
    decreases cs
  {
    if cs != [] {
      NamedIsFound(cs[0].steps, d);
      ChoiceNamedIsFound(cs[1..], d);
      FoundInSomeSplits(CallPaths(cs[0].steps), ChoiceCallPaths(cs[1..]), d);
      assert NamedInStep(Exclusive(cs), d) <==> LeafNames(cs[0], d) || NamedIn(cs[0].steps, d) || NamedInStep(Exclusive(cs[1..]), d) by {
        if i :| 0 <= i < |cs| && (LeafNames(cs[i], d) || NamedIn(cs[i].steps, d)) {
          assert i == 0 || cs[1..][i-1] == cs[i];
        }
        if i :| 0 <= i < |cs[1..]| && (LeafNames(cs[1..][i], d) || NamedIn(cs[1..][i].steps, d)) {
          assert cs[i+1] == cs[1..][i];
        }
      }
    }
  }

  lemma {:induction false} EachNamedIsFound(paths: seq<BoundaryPath>, d: DeptId)
    ensures (exists i | 0 <= i < |paths| :: NamedIn(paths[i].steps, d))
            <==> FoundInSome(StepsOf(paths), d) || FoundInSome(EachCallPaths(paths), d)
    decreases paths
  {
    if paths != [] {
      NamedIsFound(paths[0].steps, d);
      EachNamedIsFound(paths[1..], d);
      FoundInSomeSplits(CallPaths(paths[0].steps), EachCallPaths(paths[1..]), d);
      FoundInSomeSplits([paths[0].steps], StepsOf(paths[1..]), d);
      assert StepsOf(paths) == [paths[0].steps] + StepsOf(paths[1..]);
      assert FoundInSome([paths[0].steps], d) <==> FoundIn(paths[0].steps, d) by {
        assert [paths[0].steps][0] == paths[0].steps;
      }
      if i :| 0 <= i < |paths| && NamedIn(paths[i].steps, d) {
        assert i == 0 || paths[1..][i-1] == paths[i];
      }
      if i :| 0 <= i < |paths[1..]| && NamedIn(paths[1..][i].steps, d) {
        assert paths[i+1] == paths[1..][i];
      }
    }
  }

  lemma {:induction false} WithCallPathsNamed(paths: seq<seq<Step>>, d: DeptId)
    ensures FoundInSome(WithCallPaths(paths), d) <==> exists i | 0 <= i < |paths| :: NamedIn(paths[i], d)
  {
    if paths != [] {
      NamedIsFound(paths[0], d);
      WithCallPathsNamed(paths[1..], d);
      FoundInSomeSplits([paths[0]], CallPaths(paths[0]), d);
      FoundInSomeSplits([paths[0]] + CallPaths(paths[0]), WithCallPaths(paths[1..]), d);
      assert FoundInSome([paths[0]], d) <==> FoundIn(paths[0], d) by { assert [paths[0]][0] == paths[0]; }
      if i :| 0 <= i < |paths| && NamedIn(paths[i], d) {
        assert i == 0 || paths[1..][i-1] == paths[i];
      }
      if i :| 0 <= i < |paths[1..]| && NamedIn(paths[1..][i], d) {
        assert paths[i+1] == paths[1..][i];
      }
    }
  }

  predicate SomeNamed(paths: seq<seq<Step>>, d: DeptId) {
    exists i | 0 <= i < |paths| :: NamedIn(paths[i], d)
  }

  lemma SomeNamedSplits(a: seq<seq<Step>>, b: seq<seq<Step>>, d: DeptId)
    ensures SomeNamed(a + b, d) <==> SomeNamed(a, d) || SomeNamed(b, d)
  {
    if SomeNamed(a, d) {
      var i :| 0 <= i < |a| && NamedIn(a[i], d);
      assert (a + b)[i] == a[i];
    } else if SomeNamed(b, d) {
      var i :| 0 <= i < |b| && NamedIn(b[i], d);
      assert (a + b)[|a| + i] == b[i];
    }
  }

  lemma {:induction false} StagePathsNamed(stages: seq<Stage>, d: DeptId)
    ensures SomeNamed(StagePaths(stages), d) <==> NamedInStages(stages, d)
  {
    if stages != [] {
      var timer, message := OptionPath(stages[0].timerPath), OptionPath(stages[0].messagePath);
      StagePathsNamed(stages[1..], d);
      SomeNamedSplits(timer, message, d);
      SomeNamedSplits(timer + message, StagePaths(stages[1..]), d);
      assert SomeNamed(timer, d) <==> PathNames(stages[0].timerPath, d) by {
        assert PathNames(stages[0].timerPath, d) ==> timer[0] == stages[0].timerPath.value;
      }
      assert SomeNamed(message, d) <==> PathNames(stages[0].messagePath, d) by {
        assert PathNames(stages[0].messagePath, d) ==> message[0] == stages[0].messagePath.value;
      }
      if NamedInStages(stages[1..], d) {
        var j :| 0 <= j < |stages[1..]| && (PathNames(stages[1..][j].timerPath, d) || PathNames(stages[1..][j].messagePath, d));
        assert stages[j+1] == stages[1..][j];
      }
      if j :| 0 <= j < |stages| && (PathNames(stages[j].timerPath, d) || PathNames(stages[j].messagePath, d)) {
        assert j == 0 || stages[1..][j-1] == stages[j];
      }
    }
  }

  lemma {:induction false} DepartmentPathsNamed(departments: seq<Department>, d: DeptId)
    ensures SomeNamed(DepartmentPaths(departments), d) <==> exists i | 0 <= i < |departments| :: NamedInStages(departments[i].stages, d)
  {
    if departments != [] {
      StagePathsNamed(departments[0].stages, d);
      DepartmentPathsNamed(departments[1..], d);
      SomeNamedSplits(StagePaths(departments[0].stages), DepartmentPaths(departments[1..]), d);
      if i :| 0 <= i < |departments| && NamedInStages(departments[i].stages, d) {
        assert i == 0 || departments[1..][i-1] == departments[i];
      }
      if i :| 0 <= i < |departments[1..]| && NamedInStages(departments[1..][i].stages, d) {
        assert departments[i+1] == departments[1..][i];
      }
    }
  }

  /** The one-department fallback is taken exactly when the plan names the department nowhere, at any nesting depth. */
  lemma FallbackExactlyWhenUnnamed(plan: CompiledPlan, d: DeptId)
    ensures RedirectWithinPlan(plan, d).None? <==> !NamedInPlan(plan, d)
  {
    var stagePaths := DepartmentPaths(plan.departments);
    NamedIsFound(plan.steps, d);
    FirstFoundMissesNone(BoundaryPaths(plan), d);
    FoundInSomeSplits(CallPaths(plan.steps), WithCallPaths(stagePaths), d);
    WithCallPathsNamed(stagePaths, d);
    DepartmentPathsNamed(plan.departments, d);
    assert SomeNamed(stagePaths, d) <==> exists i | 0 <= i < |stagePaths| :: NamedIn(stagePaths[i], d);
  }

  /** List number `i` is the first one in which the department is found. */
  predicate FoundFirstIn(lists: seq<seq<Step>>, d: DeptId, i: nat) {
    i < |lists| && FoundIn(lists[i], d) && forall j | 0 <= j < i :: !FoundIn(lists[j], d)
  }

  lemma {:induction false} FirstFoundIsFirst(paths: seq<seq<Step>>, d: DeptId) returns (i: nat)
    requires FirstFound(paths, d).Some?
    ensures FoundFirstIn(paths, d, i) && FindRedirectTarget(paths[i], d) == FirstFound(paths, d)
  {
    if FindRedirectTarget(paths[0], d).Some? {
      i := 0;
    } else {
      i := FirstFoundIsFirst(paths[1..], d);
      i := i + 1;
    }
  }

  /** A department the steps can reach is never treated as unnamed. */
  lemma {:induction false} ReachableIsFound(steps: seq<Step>, d: DeptId)
    requires StepsRun(steps, d)
    ensures FoundIn(steps, d)
    decreases steps
  {
    if StepRunsDept(steps[0], d) {
      StepReachableIsFound(steps[0], d);
    } else {
      ReachableIsFound(steps[1..], d);
    }
  }

  lemma {:induction false} StepReachableIsFound(step: Step, d: DeptId)
    requires StepRunsDept(step, d)
    ensures RedirectWithinStep(step, d).Some?
    decreases step
  {
    match step
    case Sequential(ds) =>
    case Parallel(bs) => BranchReachableIsFound(bs, d);
    case Exclusive(cs) => ChoiceReachableIsFound(cs, d);
    case SubWorkflow(steps, _, _, _) => ReachableIsFound(steps, d);
  }

  lemma {:induction false} BranchReachableIsFound(bs: seq<ParallelBranch>, d: DeptId)
    requires BranchesRun(bs, d)
    ensures RedirectWithinBranches(bs, d).Some?
    decreases bs
  {
    if StepsRun(bs[0].steps, d) {
      ReachableIsFound(bs[0].steps, d);
    } else {
      BranchReachableIsFound(bs[1..], d);
    }
  }

  lemma {:induction false} ChoiceReachableIsFound(cs: seq<ExclusiveBranch>, d: DeptId)
    requires ChoicesRun(cs, d)
    ensures RedirectWithinChoices(cs, d).Some?
    decreases cs
  {
    if StepsRun(cs[0].steps, d) {
      ReachableIsFound(cs[0].steps, d);
    } else {
      ChoiceReachableIsFound(cs[1..], d);
    }
  }
}
