/**
 Redirecting a plan with early ends: when the paths of the continuation, ends included, are suffixes of the plan's.
 */
module EarlyEnds {
  import opened Plan
  import opened Redirect
  import opened Wrappers

  // ----- what a list can do: finish or end, with or without running something -----

  /** Whether the list has a path that ends early or not, and that is empty or not. */
  predicate May(steps: seq<Step>, ended: bool, empty: bool)
    decreases steps, 0
  {
    if steps == [] then !ended && empty
    else
      || (ended && MayStep(steps[0], true, empty))
      || (MayStep(steps[0], false, true) && May(steps[1..], ended, empty))
      || (!empty && MayStep(steps[0], false, false) && (May(steps[1..], ended, true) || May(steps[1..], ended, false)))
  }

  predicate MayStep(step: Step, ended: bool, empty: bool)
    decreases step, 0
  {
    match step
    case Sequential(ds) => ds != [] && !ended && !empty
    case Parallel(bs) => !ended && !empty && exists i | 0 <= i < |bs| :: CanFinish(bs[i].steps) || CanEnd(bs[i].steps)
    case Exclusive(cs) => MayChoices(cs, ended, empty)
    case SubWorkflow(steps, _, _, _) => !ended && (May(steps, false, empty) || May(steps, true, empty))
  }

  predicate MayChoices(cs: seq<ExclusiveBranch>, ended: bool, empty: bool)
    decreases cs, 0
  {
    || (exists i | 0 <= i < |cs| :: MayForward(cs[i], ended, empty))
    || (!empty && (exists i | 0 <= i < |cs| :: cs[i].revertTo != "")
        && (ended ==> exists i | 0 <= i < |cs| :: MayForward(cs[i], true, true) || MayForward(cs[i], true, false)))
  }

  predicate MayForward(c: ExclusiveBranch, ended: bool, empty: bool)
    decreases c, 0
  {
    && c.revertTo == ""
    && if c.steps != [] then
         if c.terminates then ended && (May(c.steps, false, empty) || May(c.steps, true, empty)) else May(c.steps, ended, empty)
       else if c.terminates then ended && empty
       else !ended && (empty <==> c.target == "")
  }

  predicate CanFinish(steps: seq<Step>)
    decreases steps, 1
  {
    May(steps, false, true) || May(steps, false, false)
  }

  predicate CanEnd(steps: seq<Step>)
    decreases steps, 1
  {
    May(steps, true, true) || May(steps, true, false)
  }

  /** Nothing the list can do runs anything. */
  predicate Quiet(steps: seq<Step>) {
    !May(steps, false, false) && !May(steps, true, false)
  }

  predicate Is(p: Path, empty: bool) {
    p == [] <==> empty
  }

  lemma {:induction false} PathOf(steps: seq<Step>, ended: bool, empty: bool) returns (p: Path)
    requires May(steps, ended, empty)
    ensures Runs(true, steps, p, ended) && Is(p, empty)
    decreases steps, 0
  {
    if steps == [] {
      p := [];
    } else if ended && MayStep(steps[0], true, empty) {
      p := StepPathOf(steps[0], true, empty);
    } else {
      var first := MayStep(steps[0], false, true) && May(steps[1..], ended, empty);
      var a := StepPathOf(steps[0], false, first);
      var b := PathOf(steps[1..], ended, if first then empty else May(steps[1..], ended, true));
      RunsCons(true, steps, a, b, ended);
      p := a + b;
    }
  }

  lemma {:induction false} StepPathOf(step: Step, ended: bool, empty: bool) returns (p: Path)
    requires MayStep(step, ended, empty)
    ensures StepRuns(true, step, p, ended) && Is(p, empty)
    decreases step
  {
    match step
    case Sequential(ds) => p := RanAll(ds);
    case Parallel(bs) =>
      var i :| 0 <= i < |bs| && (CanFinish(bs[i].steps) || CanEnd(bs[i].steps));
      var q := SomeRun(bs[i].steps);
      p := [Forked(bs[i].deptId)] + q;
      assert p[1..] == q;
      assert BranchRuns(true, bs[i], p);
    case Exclusive(cs) => p := ChoicesPathOf(cs, ended, empty);
    case SubWorkflow(steps, _, _, _) => p := PathOf(steps, !May(steps, false, empty), empty);
  }

  /** A list that can do anything has a path. */
  lemma {:induction false} SomeRun(steps: seq<Step>) returns (p: Path)
    requires CanFinish(steps) || CanEnd(steps)
    ensures RunsEitherWay(true, steps, p)
    decreases steps, 1
  {
    var ended := !CanFinish(steps);
    p := PathOf(steps, ended, May(steps, ended, true));
  }

  lemma {:induction false} ChoicesPathOf(cs: seq<ExclusiveBranch>, ended: bool, empty: bool) returns (p: Path)
    requires MayChoices(cs, ended, empty)
    ensures ChoicesRunPath(true, cs, 0, p, ended) && Is(p, empty)
    decreases cs
  {
    if i :| 0 <= i < |cs| && MayForward(cs[i], ended, empty) {
      p := ForwardPathOf(cs[i], ended, empty);
    } else {
      var r :| 0 <= r < |cs| && cs[r].revertTo != "";
      var after: Path := [];
      if ended {
        var j :| 0 <= j < |cs| && (MayForward(cs[j], true, true) || MayForward(cs[j], true, false));
        after := ForwardPathOf(cs[j], true, MayForward(cs[j], true, true));
        assert ChoicesRunPath(true, cs, 1, after, true);
      }
      p := [Ran(cs[r].revertTo)] + after;
      assert p[1..] == after;
    }
  }

  lemma {:induction false} ForwardPathOf(c: ExclusiveBranch, ended: bool, empty: bool) returns (p: Path)
    requires MayForward(c, ended, empty)
    ensures ForwardRuns(true, c, p, ended) && Is(p, empty)
    decreases c
  {
    if c.steps == [] {
      p := if c.terminates || c.target == "" then [] else [Ran(c.target)];
    } else if c.terminates {
      p := PathOf(c.steps, !May(c.steps, false, empty), empty);
    } else {
      p := PathOf(c.steps, ended, empty);
    }
  }

  lemma {:induction false} MayOfPath(steps: seq<Step>, p: Path, ended: bool)
    requires Runs(true, steps, p, ended)
    ensures May(steps, ended, p == [])
    decreases steps
  {
    if steps != [] {
      if ended && StepRuns(true, steps[0], p, true) {
        MayOfStepPath(steps[0], p, true);
      } else {
        var k :| 0 <= k <= |p| && RunsSplitAt(true, steps, p, ended, k);
        MayOfStepPath(steps[0], p[..k], false);
        MayOfPath(steps[1..], p[k..], ended);
        assert p == p[..k] + p[k..];
      }
    }
  }

  lemma {:induction false} MayOfStepPath(step: Step, p: Path, ended: bool)
    requires StepRuns(true, step, p, ended)
    ensures MayStep(step, ended, p == [])
    decreases step
  {
    match step
    case Sequential(ds) =>
    case Parallel(bs) =>
      var i :| 0 <= i < |bs| && BranchRuns(true, bs[i], p);
      assert RunsEitherWay(true, bs[i].steps, p[1..]);
      MayOfPath(bs[i].steps, p[1..], !Runs(true, bs[i].steps, p[1..], false));
    case Exclusive(cs) => MayOfChoices(cs, 0, p, ended);
    case SubWorkflow(steps, _, _, _) => MayOfPath(steps, p, !Runs(true, steps, p, false));
  }

  lemma {:induction false} MayOfChoices(cs: seq<ExclusiveBranch>, cycle: nat, p: Path, ended: bool)
    requires ChoicesRunPath(true, cs, cycle, p, ended)
    ensures MayChoices(cs, ended, p == [])
    decreases cs, if cycle <= MAX_REVERT_CYCLES then MAX_REVERT_CYCLES - cycle else 0
  {
    var i :| 0 <= i < |cs| &&
      if cs[i].revertTo != "" then
        && cycle < MAX_REVERT_CYCLES
        && p != [] && p[0] == Ran(cs[i].revertTo)
        && ((p[1..] == [] && !ended) || ChoicesRunPath(true, cs, cycle + 1, p[1..], ended))
      else
        ForwardRuns(true, cs[i], p, ended);
    if cs[i].revertTo != "" {
      if ended {
        MayOfChoices(cs, cycle + 1, p[1..], ended);
      }
    } else if cs[i].steps != [] {
      ForwardRunsItsSteps(true, cs[i], p, ended);
      MayOfPath(cs[i].steps, p, if cs[i].terminates then !Runs(true, cs[i].steps, p, false) else ended);
      assert MayForward(cs[i], ended, p == []);
    } else {
      assert MayForward(cs[i], ended, p == []);
    }
  }

  /** What a list may do is exactly what its paths do. */
  lemma MayIsExact(steps: seq<Step>, ended: bool, empty: bool)
    ensures May(steps, ended, empty) <==> exists p :: Runs(true, steps, p, ended) && Is(p, empty)
  {
    if May(steps, ended, empty) {
      var p := PathOf(steps, ended, empty);
    }
    if p :| Runs(true, steps, p, ended) && Is(p, empty) {
      MayOfPath(steps, p, ended);
    }
  }

  // ----- the guard on the target's chain -----

  /**
   Looks only at the lists around the place the search finds. Of the steps before it each can finish; of an enclosing
   parallel branch or sub-workflow that can end, the work after it can run nothing; of an enclosing choice that
   terminates, whatever is queued after it, up to the next branch or sub-workflow, runs nothing.
   `skips` says that what the plan runs once this list has finished can be nothing, `quiet` that what the continuation
   runs once this list has finished, up to the next branch or sub-workflow, is nothing.
   */
  predicate Guarded(steps: seq<Step>, d: DeptId, skips: bool, quiet: bool)
  {
    if steps == [] then false
    else if RedirectWithinStep(steps[0], d).Some? then
      GuardedStep(steps[0], d, SkipsAfter(steps[1..], skips), QuietAfter(steps[1..], quiet))
    else (MayStep(steps[0], false, true) || MayStep(steps[0], false, false)) && Guarded(steps[1..], d, skips, quiet)
  }

  predicate SkipsAfter(rest: seq<Step>, skips: bool) {
    (May(rest, false, true) && skips) || May(rest, true, true)
  }

  predicate QuietAfter(rest: seq<Step>, quiet: bool) {
    Quiet(rest) && (CanFinish(rest) ==> quiet)
  }

  predicate GuardedStep(step: Step, d: DeptId, skips: bool, quiet: bool)
  {
    match step
    case Sequential(_) => true
    case Parallel(bs) => GuardedBranches(bs, d, skips)
    case Exclusive(cs) => GuardedChoices(cs, d, skips, quiet)
    case SubWorkflow(steps, _, _, _) =>
      match FindRedirectTarget(steps, d)
      case Some(cont) => (CanEnd(cont) ==> skips) && Guarded(steps, d, true, true)
      case None => false
  }

  predicate GuardedBranches(bs: seq<ParallelBranch>, d: DeptId, skips: bool)
  {
    if bs == [] then false
    else
      match FindRedirectTarget(bs[0].steps, d)
      case Some(cont) => (CanEnd(cont) ==> skips) && Guarded(bs[0].steps, d, true, true)
      case None => if bs[0].deptId == d then CanEnd(bs[0].steps) ==> skips else GuardedBranches(bs[1..], d, skips)
  }

  predicate GuardedChoices(cs: seq<ExclusiveBranch>, d: DeptId, skips: bool, quiet: bool)
  {
    if cs == [] then false
    else
      match FindRedirectTarget(cs[0].steps, d)
      case Some(cont) =>
        if cs[0].terminates then (CanFinish(cont) ==> quiet) && Guarded(cs[0].steps, d, true, quiet)
        else Guarded(cs[0].steps, d, skips, quiet)
      case None =>
        if LeafNames(cs[0], d) then cs[0].revertTo != "" || !cs[0].terminates else GuardedChoices(cs[1..], d, skips, quiet)
  }

  // ----- the guard suffices -----

  /**
   `pre` leads from the start of `steps` to the continuation: put before one of its paths it gives a path of `steps`
   that ends likewise, or, as far as `quiet` and `skips` allow, one that does not.
   */
  ghost predicate Completes(steps: seq<Step>, d: DeptId, pre: Path, cont: seq<Step>, skips: bool, quiet: bool) {
    && (forall q | Runs(true, cont, q, false) ::
          StartsAt(d, pre, q) && (Runs(true, steps, pre + q, false) || (quiet && Runs(true, steps, pre + q, true))))
    && (forall q | Runs(true, cont, q, true) ::
          StartsAt(d, pre, q) && (Runs(true, steps, pre + q, true) || (skips && Runs(true, steps, pre + q, false))))
  }

  ghost predicate StepCompletes(step: Step, d: DeptId, pre: Path, cont: seq<Step>, skips: bool, quiet: bool) {
    && (forall q | Runs(true, cont, q, false) ::
          StartsAt(d, pre, q) && (StepRuns(true, step, pre + q, false) || (quiet && StepRuns(true, step, pre + q, true))))
    && (forall q | Runs(true, cont, q, true) ::
          StartsAt(d, pre, q) && (StepRuns(true, step, pre + q, true) || (skips && StepRuns(true, step, pre + q, false))))
  }

  /** A path of two lists put together ends in the first, or finishes it and goes on with the second. */
  lemma {:induction false} AppendedPath(a: seq<Step>, b: seq<Step>, q: Path, ended: bool) returns (k: nat, inFirst: bool)
    requires Runs(true, a + b, q, ended)
    ensures k <= |q|
    ensures if inFirst then ended && Runs(true, a, q, true) else Runs(true, a, q[..k], false) && Runs(true, b, q[k..], ended)
    decreases a
  {
    if a == [] {
      assert a + b == b && q[0..] == q;
      k, inFirst := 0, false;
    } else {
      assert (a + b)[0] == a[0] && (a + b)[1..] == a[1..] + b;
      if ended && StepRuns(true, a[0], q, true) {
        k, inFirst := 0, true;
      } else {
        var i :| 0 <= i <= |q| && RunsSplitAt(true, a + b, q, ended, i);
        var j, inRest := AppendedPath(a[1..], b, q[i..], ended);
        k, inFirst := i + j, inRest;
        if inRest {
          RunsCons(true, a, q[..i], q[i..], true);
          assert q[..i] + q[i..] == q;
        } else {
          RunsCons(true, a, q[..i], q[i..][..j], false);
          assert q[..k] == q[..i] + q[i..][..j];
          assert q[k..] == q[i..][j..];
        }
      }
    }
  }

  lemma EndsInFirst(steps: seq<Step>, p: Path)
    requires steps != [] && StepRuns(true, steps[0], p, true)
    ensures Runs(true, steps, p, true)
  {
  }

  lemma QuietPath(rest: seq<Step>, t: Path, ended: bool)
    requires Quiet(rest) && Runs(true, rest, t, ended)
    ensures t == []
  {
    MayOfPath(rest, t, ended);
  }

  /** The step completes the continuation of its own, and the rest of the list what is queued after it. */
  lemma ListCompletes(steps: seq<Step>, d: DeptId, pre: Path, inner: seq<Step>, skips: bool, quiet: bool, q: Path, ended: bool)
    requires steps != []
    requires StepCompletes(steps[0], d, pre, inner, SkipsAfter(steps[1..], skips), QuietAfter(steps[1..], quiet))
    requires Runs(true, inner + steps[1..], q, ended)
    ensures StartsAt(d, pre, q)
    ensures Runs(true, steps, pre + q, ended) || ((if ended then skips else quiet) && Runs(true, steps, pre + q, !ended))
  {
    var rest := steps[1..];
    var k, inFirst := AppendedPath(inner, rest, q, ended);
    if inFirst {
      InnerEnds(steps, d, pre, inner, skips, quiet, q);
    } else {
      var a, t := q[..k], q[k..];
      assert q == a + t && pre + q == (pre + a) + t;
      if StepRuns(true, steps[0], pre + a, false) {
        RunsCons(true, steps, pre + a, t, ended);
      } else {
        QuietPath(rest, t, ended);
        assert pre + a == pre + q;
        EndsInFirst(steps, pre + q);
        MayOfPath(rest, t, ended);
      }
    }
  }

  lemma InnerEnds(steps: seq<Step>, d: DeptId, pre: Path, inner: seq<Step>, skips: bool, quiet: bool, q: Path)
    requires steps != []
    requires StepCompletes(steps[0], d, pre, inner, SkipsAfter(steps[1..], skips), QuietAfter(steps[1..], quiet))
    requires Runs(true, inner, q, true)
    ensures StartsAt(d, pre, q)
    ensures Runs(true, steps, pre + q, true) || (skips && Runs(true, steps, pre + q, false))
  {
    var rest := steps[1..];
    if StepRuns(true, steps[0], pre + q, true) {
      EndsInFirst(steps, pre + q);
    } else {
      var ended := !(May(rest, false, true) && skips);
      var t := PathOf(rest, ended, true);
      RunsCons(true, steps, pre + q, t, ended);
      assert pre + q + t == pre + q;
    }
  }

  lemma {:induction false} GuardLeads(steps: seq<Step>, d: DeptId, cont: seq<Step>, skips: bool, quiet: bool) returns (pre: Path)
    requires d != "" && WellFormed(steps) && FindRedirectTarget(steps, d) == Some(cont) && Guarded(steps, d, skips, quiet)
    ensures Completes(steps, d, pre, cont, skips, quiet)
    decreases steps
  {
    var within := RedirectWithinStep(steps[0], d);
    if within.Some? {
      pre := GuardLeadsInStep(steps[0], d, within.value, SkipsAfter(steps[1..], skips), QuietAfter(steps[1..], quiet));
      forall q | Runs(true, cont, q, false)
        ensures StartsAt(d, pre, q) && (Runs(true, steps, pre + q, false) || (quiet && Runs(true, steps, pre + q, true)))
      {
        ListCompletes(steps, d, pre, within.value, skips, quiet, q, false);
      }
      forall q | Runs(true, cont, q, true)
        ensures StartsAt(d, pre, q) && (Runs(true, steps, pre + q, true) || (skips && Runs(true, steps, pre + q, false)))
      {
        ListCompletes(steps, d, pre, within.value, skips, quiet, q, true);
      }
    } else {
      var a := StepPathOf(steps[0], false, MayStep(steps[0], false, true));
      var inRest := GuardLeads(steps[1..], d, cont, skips, quiet);
      pre := a + inRest;
      forall q | Runs(true, cont, q, false)
        ensures StartsAt(d, pre, q) && (Runs(true, steps, pre + q, false) || (quiet && Runs(true, steps, pre + q, true)))
      {
        LaterCompletes(steps, d, a, inRest, cont, skips, quiet, q, false);
      }
      forall q | Runs(true, cont, q, true)
        ensures StartsAt(d, pre, q) && (Runs(true, steps, pre + q, true) || (skips && Runs(true, steps, pre + q, false)))
      {
        LaterCompletes(steps, d, a, inRest, cont, skips, quiet, q, true);
      }
    }
  }

  lemma LaterCompletes(steps: seq<Step>, d: DeptId, a: Path, pre: Path, cont: seq<Step>, skips: bool, quiet: bool, q: Path, ended: bool)
    requires steps != [] && StepRuns(true, steps[0], a, false)
    requires Completes(steps[1..], d, pre, cont, skips, quiet) && Runs(true, cont, q, ended)
    ensures StartsAt(d, a + pre, q)
    ensures Runs(true, steps, a + pre + q, ended) || ((if ended then skips else quiet) && Runs(true, steps, a + pre + q, !ended))
  {
    assert a + (pre + q) == a + pre + q;
    if Runs(true, steps[1..], pre + q, ended) {
      RunsCons(true, steps, a, pre + q, ended);
    } else {
      RunsCons(true, steps, a, pre + q, !ended);
    }
  }

  lemma {:induction false} GuardLeadsInStep(step: Step, d: DeptId, cont: seq<Step>, skips: bool, quiet: bool) returns (pre: Path)
    requires d != "" && WellFormedStep(step) && RedirectWithinStep(step, d) == Some(cont) && GuardedStep(step, d, skips, quiet)
    ensures StepCompletes(step, d, pre, cont, skips, quiet)
    decreases step
  {
    match step
    case Sequential(ds) =>
      var j := IndexOf(ds, d);
      pre := RanAll(ds[..j]);
      forall q, ended | Runs(true, cont, q, ended) ensures !ended && pre + q == RanAll(ds) && StartsAt(d, pre, q) {
        NeverEnds(true, cont, q);
        LoneDepartmentPath(true, ds[j..], q);
      }
    case Parallel(bs) =>
      var i;
      i, pre := GuardLeadsInBranches(bs, d, cont, skips);
      forall q, ended | Runs(true, cont, q, ended) ensures StepRuns(true, step, pre + q, false) {
        assert BranchRuns(true, bs[i], pre + q);
      }
    case Exclusive(cs) =>
      pre := GuardLeadsInChoices(cs, cs, d, cont, skips, quiet);
    case SubWorkflow(steps, _, _, _) =>
      pre := GuardLeads(steps, d, cont, true, true);
      forall q, ended | Runs(true, cont, q, ended)
        ensures StepRuns(true, step, pre + q, false) && StartsAt(d, pre, q) && (ended ==> skips)
      {
        MayOfPath(cont, q, ended);
        assert RunsEitherWay(true, steps, pre + q);
      }
  }

  lemma {:induction false} GuardLeadsInBranches(bs: seq<ParallelBranch>, d: DeptId, cont: seq<Step>, skips: bool)
    returns (i: nat, pre: Path)
    requires d != "" && forall i | 0 <= i < |bs| :: WellFormed(bs[i].steps)
    requires RedirectWithinBranches(bs, d) == Some(cont) && GuardedBranches(bs, d, skips)
    ensures i < |bs|
    ensures forall q, ended | Runs(true, cont, q, ended) ::
              BranchRuns(true, bs[i], pre + q) && StartsAt(d, pre, q) && (ended ==> skips)
    decreases bs
  {
    if FindRedirectTarget(bs[0].steps, d).Some? {
      var inner := GuardLeads(bs[0].steps, d, cont, true, true);
      i, pre := 0, [Forked(bs[0].deptId)] + inner;
      forall q, ended | Runs(true, cont, q, ended)
        ensures BranchRuns(true, bs[0], pre + q) && StartsAt(d, pre, q) && (ended ==> skips)
      {
        MayOfPath(cont, q, ended);
        assert (pre + q)[1..] == inner + q;
        assert RunsEitherWay(true, bs[0].steps, inner + q);
      }
    } else if bs[0].deptId == d {
      i, pre := 0, [Forked(d)];
      forall q, ended | Runs(true, cont, q, ended) ensures BranchRuns(true, bs[0], pre + q) && (ended ==> skips) {
        MayOfPath(cont, q, ended);
        assert (pre + q)[1..] == q;
        assert RunsEitherWay(true, bs[0].steps, q);
      }
    } else {
      i, pre := GuardLeadsInBranches(bs[1..], d, cont, skips);
      i := i + 1;
    }
  }

  /** A forward choice run first is a way through its gateway. */
  lemma ForwardFirst(cs: seq<ExclusiveBranch>, i: nat, p: Path, ended: bool)
    requires i < |cs| && cs[i].revertTo == "" && ForwardRuns(true, cs[i], p, ended)
    ensures ChoicesRunPath(true, cs, 0, p, ended)
  {
  }

  /** The choices left to search, `cs`, are the last ones of the gateway's `all`. */
  lemma {:induction false} GuardLeadsInChoices(all: seq<ExclusiveBranch>, cs: seq<ExclusiveBranch>, d: DeptId, cont: seq<Step>,
                                               skips: bool, quiet: bool) returns (pre: Path)
    requires d != "" && (forall i | 0 <= i < |cs| :: WellFormedChoice(cs[i]))
    requires |cs| <= |all| && cs == all[|all|-|cs|..]
    requires RedirectWithinChoices(cs, d) == Some(cont) && GuardedChoices(cs, d, skips, quiet)
    ensures StepCompletes(Exclusive(all), d, pre, cont, skips, quiet)
    decreases cs
  {
    var at := |all| - |cs|;
    assert all[at] == cs[0] && WellFormedChoice(cs[0]);
    if FindRedirectTarget(cs[0].steps, d).Some? {
      pre := GuardLeadsInChoice(all, at, d, cont, skips, quiet);
    } else if LeafNames(cs[0], d) {
      pre := [];
      forall q, ended | Runs(true, cont, q, ended)
        ensures !ended && StartsAt(d, pre, q) && ChoicesRunPath(true, all, 0, pre + q, false)
      {
        NeverEnds(true, cont, q);
        LoneDepartmentPath(true, [d], q);
        assert pre + q == [Ran(d)] && (pre + q)[1..] == [];
        if all[at].revertTo == "" {
          ForwardFirst(all, at, pre + q, false);
        }
      }
    } else {
      pre := GuardLeadsInChoices(all, cs[1..], d, cont, skips, quiet);
    }
  }

  lemma {:induction false} GuardLeadsInChoice(all: seq<ExclusiveBranch>, at: nat, d: DeptId, cont: seq<Step>,
                                              skips: bool, quiet: bool) returns (pre: Path)
    requires d != "" && at < |all| && WellFormedChoice(all[at]) && FindRedirectTarget(all[at].steps, d) == Some(cont)
    requires if all[at].terminates then (CanFinish(cont) ==> quiet) && Guarded(all[at].steps, d, true, quiet)
             else Guarded(all[at].steps, d, skips, quiet)
    ensures StepCompletes(Exclusive(all), d, pre, cont, skips, quiet)
    decreases all[at]
  {
    var c := all[at];
    pre := GuardLeads(c.steps, d, cont, if c.terminates then true else skips, quiet);
    forall q, ended | Runs(true, cont, q, ended)
      ensures StartsAt(d, pre, q)
      ensures var e := if c.terminates then true else ended;
        StepRuns(true, Exclusive(all), pre + q, e)
        || ((if ended then skips else quiet) && StepRuns(true, Exclusive(all), pre + q, !ended))
      ensures c.terminates && !ended ==> quiet
    {
      MayOfPath(cont, q, ended);
      if c.terminates {
        assert RunsEitherWay(true, c.steps, pre + q);
        ForwardFirst(all, at, pre + q, true);
      } else if Runs(true, c.steps, pre + q, ended) {
        ForwardFirst(all, at, pre + q, ended);
      } else {
        ForwardFirst(all, at, pre + q, !ended);
      }
    }
  }

  /** `pre`, put before any path of the continuation, early ends included, gives a path of the plan. */
  ghost predicate LeadsToWithEnds(steps: seq<Step>, d: DeptId, pre: Path, cont: seq<Step>) {
    forall q | RunsEitherWay(true, cont, q) :: RunsEitherWay(true, steps, pre + q) && StartsAt(d, pre, q)
  }

  /** A well-formed list can do something. */
  lemma {:induction false} WellFormedRuns(steps: seq<Step>)
    requires WellFormed(steps)
    ensures CanFinish(steps) || CanEnd(steps)
    decreases steps
  {
    if steps != [] {
      WellFormedStepRuns(steps[0]);
      WellFormedRuns(steps[1..]);
    }
  }

  lemma {:induction false} WellFormedStepRuns(step: Step)
    requires WellFormedStep(step)
    ensures MayStep(step, false, true) || MayStep(step, false, false) || MayStep(step, true, true) || MayStep(step, true, false)
    decreases step
  {
    match step
    case Sequential(_) =>
    case Parallel(bs) => WellFormedRuns(bs[0].steps);
    case Exclusive(cs) =>
      var c := cs[0];
      assert WellFormedChoice(c);
      if c.revertTo == "" {
        WellFormedRuns(c.steps);
        assert MayForward(c, false, true) || MayForward(c, false, false) || MayForward(c, true, true) || MayForward(c, true, false);
      }
    case SubWorkflow(steps, _, _, _) => WellFormedRuns(steps);
  }

  /** With the guard on the target's chain, every path of the continuation completes a path of the plan, ends included. */
  lemma {:induction false} GuardedKeepsTheRest(steps: seq<Step>, d: DeptId, cont: seq<Step>)
    requires d != "" && WellFormed(steps) && FindRedirectTarget(steps, d) == Some(cont) && Guarded(steps, d, true, true)
    ensures exists pre :: LeadsToWithEnds(steps, d, pre, cont)
    ensures exists q :: RunsEitherWay(true, cont, q)
  {
    var pre := GuardLeads(steps, d, cont, true, true);
    assert LeadsToWithEnds(steps, d, pre, cont);
    FindKeepsShape(false, steps, d);
    WellFormedRuns(cont);
    var q := SomeRun(cont);
  }

  /** A list without early ends is guarded wherever the search finds the target. */
  lemma {:induction false} NoEndsIsGuarded(steps: seq<Step>, d: DeptId, skips: bool, quiet: bool)
    requires WellFormed(steps) && NoEnds(steps) && FindRedirectTarget(steps, d).Some?
    ensures Guarded(steps, d, skips, quiet)
    decreases steps
  {
    if RedirectWithinStep(steps[0], d).Some? {
      NoEndsStepIsGuarded(steps[0], d, SkipsAfter(steps[1..], skips), QuietAfter(steps[1..], quiet));
    } else {
      var a := SomeStepPath(true, steps[0]);
      MayOfStepPath(steps[0], a, false);
      NoEndsIsGuarded(steps[1..], d, skips, quiet);
    }
  }

  lemma {:induction false} NoEndsStepIsGuarded(step: Step, d: DeptId, skips: bool, quiet: bool)
    requires WellFormedStep(step) && NoEndsStep(step) && RedirectWithinStep(step, d).Some?
    ensures GuardedStep(step, d, skips, quiet)
    decreases step
  {
    match step
    case Sequential(_) =>
    case Parallel(bs) => NoEndsBranchesAreGuarded(bs, d, skips);
    case Exclusive(cs) => NoEndsChoicesAreGuarded(cs, d, skips, quiet);
    case SubWorkflow(steps, _, _, _) =>
      FindKeepsShape(true, steps, d);
      NoEndsCannotEnd(FindRedirectTarget(steps, d).value);
      NoEndsIsGuarded(steps, d, true, true);
  }

  lemma NoEndsCannotEnd(steps: seq<Step>)
    requires NoEnds(steps)
    ensures !CanEnd(steps)
  {
    if CanEnd(steps) {
      var p := PathOf(steps, true, May(steps, true, true));
      NeverEnds(true, steps, p);
    }
  }

  lemma {:induction false} NoEndsBranchesAreGuarded(bs: seq<ParallelBranch>, d: DeptId, skips: bool)
    requires forall i | 0 <= i < |bs| :: WellFormed(bs[i].steps) && NoEnds(bs[i].steps)
    requires RedirectWithinBranches(bs, d).Some?
    ensures GuardedBranches(bs, d, skips)
    decreases bs
  {
    if FindRedirectTarget(bs[0].steps, d).Some? {
      FindKeepsShape(true, bs[0].steps, d);
      NoEndsCannotEnd(FindRedirectTarget(bs[0].steps, d).value);
      NoEndsIsGuarded(bs[0].steps, d, true, true);
    } else if bs[0].deptId == d {
      NoEndsCannotEnd(bs[0].steps);
    } else {
      NoEndsBranchesAreGuarded(bs[1..], d, skips);
    }
  }

  lemma {:induction false} NoEndsChoicesAreGuarded(cs: seq<ExclusiveBranch>, d: DeptId, skips: bool, quiet: bool)
    requires forall i | 0 <= i < |cs| :: WellFormedChoice(cs[i]) && !cs[i].terminates && NoEnds(cs[i].steps)
    requires RedirectWithinChoices(cs, d).Some?
    ensures GuardedChoices(cs, d, skips, quiet)
    decreases cs
  {
    assert WellFormedChoice(cs[0]);
    if FindRedirectTarget(cs[0].steps, d).Some? {
      NoEndsIsGuarded(cs[0].steps, d, skips, quiet);
    } else if !LeafNames(cs[0], d) {
      NoEndsChoicesAreGuarded(cs[1..], d, skips, quiet);
    }
  }
}
