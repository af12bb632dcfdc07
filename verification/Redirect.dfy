/**
 The redirect transformation: what is left of a plan from a given department on,
 against an independent definition of the paths a step list can run.
 */
module Redirect {
  import opened Plan
  import opened Wrappers

  // ----- the transformation -----

  function IndexOf(ds: seq<DeptId>, d: DeptId): (j: nat)
    ensures j <= |ds|
    ensures j < |ds| ==> ds[j] == d
    ensures d !in ds[..j]
    ensures j == |ds| <==> d !in ds
  {
    if ds == [] || ds[0] == d then 0
    else
      var j := IndexOf(ds[1..], d) + 1;
      assert ds[..j] == [ds[0]] + ds[1..][..j-1];
      j
  }

  function FindRedirectTarget(steps: seq<Step>, d: DeptId): Option<seq<Step>>
  {
    if steps == [] then None
    else
      match RedirectWithinStep(steps[0], d)
      case Some(cont) => Some(cont + steps[1..])
      case None => FindRedirectTarget(steps[1..], d)
  }

  function RedirectWithinStep(step: Step, d: DeptId): Option<seq<Step>>
  {
    match step
    case Sequential(ds) => (var j := IndexOf(ds, d); if j < |ds| then Some([Sequential(ds[j..])]) else None)
    case Parallel(bs) => RedirectWithinBranches(bs, d)
    case Exclusive(cs) => RedirectWithinChoices(cs, d)
    case SubWorkflow(steps, _, _, _) => FindRedirectTarget(steps, d)
  }

  function RedirectWithinBranches(bs: seq<ParallelBranch>, d: DeptId): Option<seq<Step>>
  {
    if bs == [] then None
    else
      match FindRedirectTarget(bs[0].steps, d)
      case Some(cont) => Some(cont)
      case None => if bs[0].deptId == d then Some(bs[0].steps) else RedirectWithinBranches(bs[1..], d)
  }

  predicate LeafNames(c: ExclusiveBranch, d: DeptId) {
    c.steps == [] && (c.target == d || c.revertTo == d)
  }

  function RedirectWithinChoices(cs: seq<ExclusiveBranch>, d: DeptId): Option<seq<Step>>
  {
    if cs == [] then None
    else
      match FindRedirectTarget(cs[0].steps, d)
      case Some(cont) => Some(cont)
      case None => if LeafNames(cs[0], d) then Some([Sequential([d])]) else RedirectWithinChoices(cs[1..], d)
  }

  // ----- the paths of a step list -----

  /** What a path records: a department that ran, or the parallel branch that was entered. */
  datatype Event = Ran(dept: DeptId) | Forked(deptId: DeptId)

  type Path = seq<Event>

  const MAX_REVERT_CYCLES: nat := 50

  function RanAll(ds: seq<DeptId>): (p: Path)
    ensures |p| == |ds|
    ensures forall i :: 0 <= i < |ds| ==> p[i] == Ran(ds[i])
  {
    seq(|ds|, i requires 0 <= i < |ds| => Ran(ds[i]))
  }

  /**
   `p` is a path of `steps`, taking one branch at every gateway. With `ends` set, a
   terminating exclusive branch ends the list it is nested in, up to the enclosing
   parallel branch, sub-workflow or plan; `ended` says whether this path did so.
   With `ends` off, the path goes on as if no branch terminated.
   */
  ghost predicate Runs(ends: bool, steps: seq<Step>, p: Path, ended: bool)
    decreases steps, 1
  {
    if steps == [] then p == [] && !ended
    else
      || (ended && StepRuns(ends, steps[0], p, true))
      || (exists k | 0 <= k <= |p| :: RunsSplitAt(ends, steps, p, ended, k))
  }

  ghost predicate RunsSplitAt(ends: bool, steps: seq<Step>, p: Path, ended: bool, k: nat)
    requires steps != [] && k <= |p|
    decreases steps, 0
  {
    StepRuns(ends, steps[0], p[..k], false) && Runs(ends, steps[1..], p[k..], ended)
  }

  ghost predicate RunsEitherWay(ends: bool, steps: seq<Step>, p: Path)
    decreases steps, 2
  {
    Runs(ends, steps, p, false) || Runs(ends, steps, p, true)
  }

  ghost predicate StepRuns(ends: bool, step: Step, p: Path, ended: bool)
    decreases step
  {
    match step
    case Sequential(ds) => ds != [] && !ended && p == RanAll(ds)
    case Parallel(bs) => !ended && exists i | 0 <= i < |bs| :: BranchRuns(ends, bs[i], p)
    case Exclusive(cs) => ChoicesRunPath(ends, cs, 0, p, ended)
    case SubWorkflow(steps, _, _, _) => !ended && RunsEitherWay(ends, steps, p)
  }

  ghost predicate BranchRuns(ends: bool, b: ParallelBranch, p: Path)
    decreases b
  {
    p != [] && p[0] == Forked(b.deptId) && RunsEitherWay(ends, b.steps, p[1..])
  }

  /**
   The exclusive gateway after `cycle` reverts: at most MAX_REVERT_CYCLES reverts, then a forward branch or,
   once something reverted, none.
   */
  ghost predicate ChoicesRunPath(ends: bool, cs: seq<ExclusiveBranch>, cycle: nat, p: Path, ended: bool)
    decreases cs, if cycle <= MAX_REVERT_CYCLES then MAX_REVERT_CYCLES - cycle else 0
  {
    exists i | 0 <= i < |cs| ::
      if cs[i].revertTo != "" then
        && cycle < MAX_REVERT_CYCLES
        && p != [] && p[0] == Ran(cs[i].revertTo)
        && ((p[1..] == [] && !ended) || ChoicesRunPath(ends, cs, cycle + 1, p[1..], ended))
      else
        ForwardRuns(ends, cs[i], p, ended)
  }

  ghost predicate ForwardRuns(ends: bool, c: ExclusiveBranch, p: Path, ended: bool)
    decreases c
  {
    if c.steps != [] then
      if ends && c.terminates then ended && RunsEitherWay(ends, c.steps, p) else Runs(ends, c.steps, p, ended)
    else if ends && c.terminates then p == [] && ended
    else !ended && p == if c.target == "" then [] else [Ran(c.target)]
  }

  // ----- what a redirectable plan looks like -----

  /** Every gateway has a branch, every sequential step a department, and a reverting branch has nothing else to run. */
  predicate WellFormed(steps: seq<Step>)
  {
    steps != [] ==> WellFormedStep(steps[0]) && WellFormed(steps[1..])
  }

  predicate WellFormedStep(step: Step)
  {
    match step
    case Sequential(ds) => ds != []
    case Parallel(bs) => bs != [] && forall i | 0 <= i < |bs| :: WellFormed(bs[i].steps)
    case Exclusive(cs) => cs != [] && forall i | 0 <= i < |cs| :: WellFormedChoice(cs[i])
    case SubWorkflow(steps, _, _, _) => WellFormed(steps)
  }

  predicate WellFormedChoice(c: ExclusiveBranch)
  {
    (c.revertTo != "" ==> c.steps == [] && c.target == "") && WellFormed(c.steps)
  }

  /** No exclusive branch of the list, at any depth, terminates. */
  predicate NoEnds(steps: seq<Step>)
  {
    steps != [] ==> NoEndsStep(steps[0]) && NoEnds(steps[1..])
  }

  predicate NoEndsStep(step: Step)
  {
    match step
    case Sequential(_) => true
    case Parallel(bs) => forall i | 0 <= i < |bs| :: NoEnds(bs[i].steps)
    case Exclusive(cs) => forall i | 0 <= i < |cs| :: !cs[i].terminates && NoEnds(cs[i].steps)
    case SubWorkflow(steps, _, _, _) => NoEnds(steps)
  }

  // ----- paths of lists -----

  lemma RunsCons(ends: bool, steps: seq<Step>, a: Path, b: Path, ended: bool)
    requires steps != [] && StepRuns(ends, steps[0], a, false) && Runs(ends, steps[1..], b, ended)
    ensures Runs(ends, steps, a + b, ended)
  {
    assert (a + b)[..|a|] == a && (a + b)[|a|..] == b;
    assert RunsSplitAt(ends, steps, a + b, ended, |a|);
  }

  lemma {:induction false} NeverEnds(ends: bool, steps: seq<Step>, p: Path)
    requires ends ==> NoEnds(steps)
    ensures !Runs(ends, steps, p, true)
    decreases steps
  {
    if steps != [] {
      StepNeverEnds(ends, steps[0], p);
      forall k | 0 <= k <= |p| ensures !RunsSplitAt(ends, steps, p, true, k) {
        NeverEnds(ends, steps[1..], p[k..]);
      }
    }
  }

  lemma {:induction false} StepNeverEnds(ends: bool, step: Step, p: Path)
    requires ends ==> NoEndsStep(step)
    ensures !StepRuns(ends, step, p, true)
    decreases step
  {
    match step
    case Exclusive(cs) => ChoicesNeverEnd(ends, cs, 0, p);
    case _ =>
  }

  lemma {:induction false} ChoicesNeverEnd(ends: bool, cs: seq<ExclusiveBranch>, cycle: nat, p: Path)
    requires ends ==> NoEndsStep(Exclusive(cs))
    ensures !ChoicesRunPath(ends, cs, cycle, p, true)
    decreases cs, if cycle <= MAX_REVERT_CYCLES then MAX_REVERT_CYCLES - cycle else 0
  {
    if cycle < MAX_REVERT_CYCLES && p != [] {
      ChoicesNeverEnd(ends, cs, cycle + 1, p[1..]);
    }
    forall i | 0 <= i < |cs| ensures !ForwardRuns(ends, cs[i], p, true) {
      NeverEnds(ends, cs[i].steps, p);
    }
  }

  /** A well-formed list that nothing ends early has a path. */
  lemma {:induction false} SomePath(ends: bool, steps: seq<Step>) returns (p: Path)
    requires WellFormed(steps) && (ends ==> NoEnds(steps))
    ensures Runs(ends, steps, p, false)
    decreases steps
  {
    if steps == [] {
      p := [];
    } else {
      var a := SomeStepPath(ends, steps[0]);
      var b := SomePath(ends, steps[1..]);
      RunsCons(ends, steps, a, b, false);
      p := a + b;
    }
  }

  lemma {:induction false} SomeStepPath(ends: bool, step: Step) returns (p: Path)
    requires WellFormedStep(step) && (ends ==> NoEndsStep(step))
    ensures StepRuns(ends, step, p, false)
    decreases step
  {
    match step
    case Sequential(ds) => p := RanAll(ds);
    case Parallel(bs) =>
      var q := SomePath(ends, bs[0].steps);
      p := [Forked(bs[0].deptId)] + q;
      assert p[1..] == q;
      assert BranchRuns(ends, bs[0], p);
    case Exclusive(cs) =>
      assert WellFormedChoice(cs[0]);
      if cs[0].revertTo != "" {
        p := [Ran(cs[0].revertTo)];
      } else if cs[0].steps != [] {
        p := SomePath(ends, cs[0].steps);
      } else {
        p := if cs[0].target == "" then [] else [Ran(cs[0].target)];
      }
    case SubWorkflow(steps, _, _, _) => p := SomePath(ends, steps);
  }

  lemma {:induction false} RunsAppendSplits(ends: bool, a: seq<Step>, b: seq<Step>, q: Path) returns (k: nat)
    requires Runs(ends, a + b, q, false)
    ensures k <= |q| && Runs(ends, a, q[..k], false) && Runs(ends, b, q[k..], false)
    decreases a
  {
    if a == [] {
      assert a + b == b && q[0..] == q;
      k := 0;
    } else {
      var i :| 0 <= i <= |q| && RunsSplitAt(ends, a + b, q, false, i);
      assert (a + b)[0] == a[0] && (a + b)[1..] == a[1..] + b;
      var j := RunsAppendSplits(ends, a[1..], b, q[i..]);
      k := i + j;
      RunsCons(ends, a, q[..i], q[i..][..j], false);
      assert q[..k] == q[..i] + q[i..][..j];
      assert q[k..] == q[i..][j..];
    }
  }

  lemma {:induction false} RunsAppendJoins(ends: bool, a: seq<Step>, b: seq<Step>, p: Path, q: Path)
    requires Runs(ends, a, p, false) && Runs(ends, b, q, false)
    ensures Runs(ends, a + b, p + q, false)
    decreases a
  {
    if a == [] {
      assert a + b == b && p + q == q;
    } else {
      var i :| 0 <= i <= |p| && RunsSplitAt(ends, a, p, false, i);
      RunsAppendJoins(ends, a[1..], b, p[i..], q);
      assert (a + b)[0] == a[0] && (a + b)[1..] == a[1..] + b;
      RunsCons(ends, a + b, p[..i], p[i..] + q, false);
      assert p[..i] + (p[i..] + q) == p + q;
    }
  }

  lemma {:induction false} LoneStepRuns(ends: bool, steps: seq<Step>, q: Path)
    requires |steps| == 1 && Runs(ends, steps, q, false)
    ensures StepRuns(ends, steps[0], q, false)
  {
    var k :| 0 <= k <= |q| && RunsSplitAt(ends, steps, q, false, k);
    assert steps[1..] == [] && Runs(ends, steps[1..], q[k..], false);
    assert q[..k] == q;
  }

  lemma {:induction false} LoneStepPath(ends: bool, steps: seq<Step>, q: Path)
    requires |steps| == 1
    ensures Runs(ends, steps, q, false) <==> StepRuns(ends, steps[0], q, false)
  {
    if Runs(ends, steps, q, false) {
      LoneStepRuns(ends, steps, q);
    }
    if StepRuns(ends, steps[0], q, false) {
      assert q == q + [];
      RunsCons(ends, steps, q, [], false);
    }
  }

  lemma LoneDepartmentPath(ends: bool, ds: seq<DeptId>, q: Path)
    ensures Runs(ends, [Sequential(ds)], q, false) <==> ds != [] && q == RanAll(ds)
  {
    LoneStepPath(ends, [Sequential(ds)], q);
  }

  // ----- every path of the continuation is a suffix of a path of the plan -----

  /** The suffix `q` after `pre` begins where `d` runs, or right after entering a parallel branch of `d`. */
  ghost predicate StartsAt(d: DeptId, pre: Path, q: Path) {
    (q != [] && q[0] == Ran(d)) || (pre != [] && pre[|pre|-1] == Forked(d))
  }

  /** `pre` leads to the continuation: put before any of its paths it gives a path of `steps`. */
  ghost predicate LeadsTo(steps: seq<Step>, d: DeptId, pre: Path, cont: seq<Step>) {
    forall q | Runs(false, cont, q, false) :: Runs(false, steps, pre + q, false) && StartsAt(d, pre, q)
  }

  ghost predicate StepLeadsTo(step: Step, d: DeptId, pre: Path, cont: seq<Step>) {
    forall q | Runs(false, cont, q, false) :: StepRuns(false, step, pre + q, false) && StartsAt(d, pre, q)
  }

  lemma {:induction false} FindLeadsTo(steps: seq<Step>, d: DeptId, cont: seq<Step>) returns (pre: Path)
    requires d != "" && WellFormed(steps)
    requires FindRedirectTarget(steps, d) == Some(cont)
    ensures LeadsTo(steps, d, pre, cont)
    decreases steps
  {
    var within := RedirectWithinStep(steps[0], d);
    if within.Some? {
      pre := StepLeads(steps[0], d, within.value);
      forall q | Runs(false, cont, q, false)
        ensures Runs(false, steps, pre + q, false) && StartsAt(d, pre, q)
      {
        var k := RunsAppendSplits(false, within.value, steps[1..], q);
        RunsCons(false, steps, pre + q[..k], q[k..], false);
        assert pre + q[..k] + q[k..] == pre + q;
      }
    } else {
      var a := SomeStepPath(false, steps[0]);
      var rest := FindLeadsTo(steps[1..], d, cont);
      pre := a + rest;
      forall q | Runs(false, cont, q, false)
        ensures Runs(false, steps, pre + q, false) && StartsAt(d, pre, q)
      {
        RunsCons(false, steps, a, rest + q, false);
        assert a + (rest + q) == pre + q;
      }
    }
  }

  lemma {:induction false} StepLeads(step: Step, d: DeptId, cont: seq<Step>) returns (pre: Path)
    requires d != "" && WellFormedStep(step)
    requires RedirectWithinStep(step, d) == Some(cont)
    ensures StepLeadsTo(step, d, pre, cont)
    decreases step
  {
    match step
    case Sequential(ds) =>
      var j := IndexOf(ds, d);
      pre := RanAll(ds[..j]);
      forall q | Runs(false, cont, q, false) ensures pre + q == RanAll(ds) && StartsAt(d, pre, q) {
        LoneDepartmentPath(false, ds[j..], q);
      }
    case Parallel(bs) =>
      var i;
      i, pre := BranchLeads(bs, d, cont);
    case Exclusive(cs) =>
      var i;
      i, pre := ChoiceLeads(cs, d, cont);
      forall q | Runs(false, cont, q, false)
        ensures ChoicesRunPath(false, cs, 0, pre + q, false) && StartsAt(d, pre, q)
      {
        assert ChoiceTaken(cs[i], pre + q) && StartsAt(d, pre, q);
      }
    case SubWorkflow(steps, _, _, _) =>
      pre := FindLeadsTo(steps, d, cont);
  }

  lemma {:induction false} BranchLeads(bs: seq<ParallelBranch>, d: DeptId, cont: seq<Step>)
    returns (i: nat, pre: Path)
    requires d != "" && forall i | 0 <= i < |bs| :: WellFormed(bs[i].steps)
    requires RedirectWithinBranches(bs, d) == Some(cont)
    ensures i < |bs|
    ensures forall q | Runs(false, cont, q, false) :: BranchRuns(false, bs[i], pre + q) && StartsAt(d, pre, q)
    decreases bs
  {
    if FindRedirectTarget(bs[0].steps, d).Some? {
      var inner := FindLeadsTo(bs[0].steps, d, cont);
      i, pre := 0, [Forked(bs[0].deptId)] + inner;
      forall q | Runs(false, cont, q, false) ensures BranchRuns(false, bs[0], pre + q) && StartsAt(d, pre, q) {
        assert (pre + q)[1..] == inner + q;
      }
    } else if bs[0].deptId == d {
      i, pre := 0, [Forked(d)];
      forall q | Runs(false, cont, q, false) ensures BranchRuns(false, bs[0], pre + q) {
        assert (pre + q)[1..] == q;
      }
    } else {
      i, pre := BranchLeads(bs[1..], d, cont);
      i := i + 1;
    }
  }

  /** `p` is one way through the gateway that takes choice `c` first. */
  ghost predicate ChoiceTaken(c: ExclusiveBranch, p: Path) {
    if c.revertTo != "" then p == [Ran(c.revertTo)] else ForwardRuns(false, c, p, false)
  }

  lemma {:induction false} ChoiceLeads(cs: seq<ExclusiveBranch>, d: DeptId, cont: seq<Step>)
    returns (i: nat, pre: Path)
    requires d != "" && forall i | 0 <= i < |cs| :: WellFormedChoice(cs[i])
    requires RedirectWithinChoices(cs, d) == Some(cont)
    ensures i < |cs|
    ensures forall q | Runs(false, cont, q, false) :: ChoiceTaken(cs[i], pre + q) && StartsAt(d, pre, q)
    decreases cs
  {
    if FindRedirectTarget(cs[0].steps, d).Some? {
      assert WellFormedChoice(cs[0]);
      var inner := FindLeadsTo(cs[0].steps, d, cont);
      i, pre := 0, inner;
    } else if LeafNames(cs[0], d) {
      assert WellFormedChoice(cs[0]);
      i, pre := 0, [];
      forall q | Runs(false, cont, q, false) ensures ChoiceTaken(cs[0], pre + q) && StartsAt(d, pre, q) {
        LoneDepartmentPath(false, [d], q);
        assert pre + q == [Ran(d)];
      }
    } else {
      assert forall i | 0 <= i < |cs[1..]| :: cs[1..][i] == cs[i+1];
      i, pre := ChoiceLeads(cs[1..], d, cont);
      i := i + 1;
    }
  }

  /** Nothing queued after any enclosing gateway is dropped: one prefix completes every path of the continuation to a path of the plan. */
  lemma {:induction false} RedirectKeepsTheRest(steps: seq<Step>, d: DeptId, cont: seq<Step>)
    requires d != "" && WellFormed(steps)
    requires FindRedirectTarget(steps, d) == Some(cont)
    ensures exists pre :: LeadsTo(steps, d, pre, cont)
    ensures exists q :: Runs(false, cont, q, false)
  {
    var pre := FindLeadsTo(steps, d, cont);
    FindKeepsShape(false, steps, d);
    var q := SomePath(false, cont);
  }

  lemma {:induction false} WellFormedAppend(a: seq<Step>, b: seq<Step>)
    ensures WellFormed(a + b) <==> WellFormed(a) && WellFormed(b)
    ensures NoEnds(a + b) <==> NoEnds(a) && NoEnds(b)
  {
    if a == [] {
      assert a + b == b;
    } else {
      assert (a + b)[0] == a[0] && (a + b)[1..] == a[1..] + b;
      WellFormedAppend(a[1..], b);
    }
  }

  /** Redirecting keeps the plan well formed, and introduces no early end. */
  lemma {:induction false} FindKeepsShape(ends: bool, steps: seq<Step>, d: DeptId)
    requires WellFormed(steps) && (ends ==> NoEnds(steps))
    ensures var r := FindRedirectTarget(steps, d); r.Some? ==> WellFormed(r.value) && (ends ==> NoEnds(r.value))
    decreases steps
  {
    if steps != [] {
      StepKeepsShape(ends, steps[0], d);
      var within := RedirectWithinStep(steps[0], d);
      if within.Some? {
        WellFormedAppend(within.value, steps[1..]);
      } else {
        FindKeepsShape(ends, steps[1..], d);
      }
    }
  }

  lemma {:induction false} StepKeepsShape(ends: bool, step: Step, d: DeptId)
    requires WellFormedStep(step) && (ends ==> NoEndsStep(step))
    ensures var r := RedirectWithinStep(step, d); r.Some? ==> WellFormed(r.value) && (ends ==> NoEnds(r.value))
    decreases step
  {
    match step
    case Sequential(ds) =>
    case Parallel(bs) => BranchesKeepShape(ends, bs, d);
    case Exclusive(cs) => ChoicesKeepShape(ends, cs, d);
    case SubWorkflow(steps, _, _, _) => FindKeepsShape(ends, steps, d);
  }

  lemma {:induction false} BranchesKeepShape(ends: bool, bs: seq<ParallelBranch>, d: DeptId)
    requires forall i | 0 <= i < |bs| :: WellFormed(bs[i].steps) && (ends ==> NoEnds(bs[i].steps))
    ensures var r := RedirectWithinBranches(bs, d); r.Some? ==> WellFormed(r.value) && (ends ==> NoEnds(r.value))
    decreases bs
  {
    if bs != [] {
      FindKeepsShape(ends, bs[0].steps, d);
      BranchesKeepShape(ends, bs[1..], d);
    }
  }

  lemma {:induction false} ChoicesKeepShape(ends: bool, cs: seq<ExclusiveBranch>, d: DeptId)
    requires forall i | 0 <= i < |cs| :: WellFormedChoice(cs[i]) && (ends ==> NoEnds(cs[i].steps))
    ensures var r := RedirectWithinChoices(cs, d); r.Some? ==> WellFormed(r.value) && (ends ==> NoEnds(r.value))
    decreases cs
  {
    if cs != [] {
      assert WellFormedChoice(cs[0]);
      FindKeepsShape(ends, cs[0].steps, d);
      ChoicesKeepShape(ends, cs[1..], d);
    }
  }

  // ----- the search succeeds exactly on the departments a path names -----

  predicate Names(p: Path, d: DeptId) {
    Ran(d) in p || Forked(d) in p
  }

  lemma {:induction false} UnfoundIsUnnamed(ends: bool, steps: seq<Step>, d: DeptId, p: Path, ended: bool)
    requires d != "" && WellFormed(steps) && FindRedirectTarget(steps, d).None?
    requires Runs(ends, steps, p, ended)
    ensures !Names(p, d)
    decreases steps
  {
    if steps != [] {
      if ended && StepRuns(ends, steps[0], p, true) {
        StepUnnamed(ends, steps[0], d, p, true);
      } else {
        var k :| 0 <= k <= |p| && RunsSplitAt(ends, steps, p, ended, k);
        StepUnnamed(ends, steps[0], d, p[..k], false);
        UnfoundIsUnnamed(ends, steps[1..], d, p[k..], ended);
        assert p == p[..k] + p[k..];
      }
    }
  }

  lemma {:induction false} StepUnnamed(ends: bool, step: Step, d: DeptId, p: Path, ended: bool)
    requires d != "" && WellFormedStep(step) && RedirectWithinStep(step, d).None?
    requires StepRuns(ends, step, p, ended)
    ensures !Names(p, d)
    decreases step
  {
    match step
    case Sequential(ds) =>
    case Parallel(bs) =>
      var i :| 0 <= i < |bs| && BranchRuns(ends, bs[i], p);
      BranchesUnfound(bs, d, i);
      assert RunsEitherWay(ends, bs[i].steps, p[1..]);
      UnfoundIsUnnamed(ends, bs[i].steps, d, p[1..], !Runs(ends, bs[i].steps, p[1..], false));
      assert p == [p[0]] + p[1..];
    case Exclusive(cs) =>
      ChoicesUnnamed(ends, cs, d, 0, p, ended);
    case SubWorkflow(steps, _, _, _) =>
      UnfoundIsUnnamed(ends, steps, d, p, !Runs(ends, steps, p, false));
  }

  lemma {:induction false} BranchesUnfound(bs: seq<ParallelBranch>, d: DeptId, i: nat)
    requires i < |bs| && RedirectWithinBranches(bs, d).None?
    ensures FindRedirectTarget(bs[i].steps, d).None? && bs[i].deptId != d
  {
    if i > 0 {
      BranchesUnfound(bs[1..], d, i - 1);
    }
  }

  lemma {:induction false} ChoicesUnfound(cs: seq<ExclusiveBranch>, d: DeptId, i: nat)
    requires i < |cs| && RedirectWithinChoices(cs, d).None?
    ensures FindRedirectTarget(cs[i].steps, d).None? && !LeafNames(cs[i], d)
  {
    if i > 0 {
      ChoicesUnfound(cs[1..], d, i - 1);
    }
  }

  lemma {:induction false} ChoicesUnnamed(ends: bool, cs: seq<ExclusiveBranch>, d: DeptId, cycle: nat, p: Path, ended: bool)
    requires d != "" && WellFormedStep(Exclusive(cs)) && RedirectWithinChoices(cs, d).None?
    requires ChoicesRunPath(ends, cs, cycle, p, ended)
    ensures !Names(p, d)
    decreases cs, if cycle <= MAX_REVERT_CYCLES then MAX_REVERT_CYCLES - cycle else 0
  {
    var i :| 0 <= i < |cs| &&
      if cs[i].revertTo != "" then
        && cycle < MAX_REVERT_CYCLES
        && p != [] && p[0] == Ran(cs[i].revertTo)
        && ((p[1..] == [] && !ended) || ChoicesRunPath(ends, cs, cycle + 1, p[1..], ended))
      else
        ForwardRuns(ends, cs[i], p, ended);
    assert WellFormedChoice(cs[i]);
    ChoicesUnfound(cs, d, i);
    if cs[i].revertTo != "" {
      assert p == [p[0]] + p[1..];
      if p[1..] != [] || ended {
        ChoicesUnnamed(ends, cs, d, cycle + 1, p[1..], ended);
      }
    } else if cs[i].steps != [] {
      ForwardRunsItsSteps(ends, cs[i], p, ended);
      UnfoundIsUnnamed(ends, cs[i].steps, d, p, !Runs(ends, cs[i].steps, p, false));
    }
  }

  lemma ForwardRunsItsSteps(ends: bool, c: ExclusiveBranch, p: Path, ended: bool)
    requires c.steps != [] && ForwardRuns(ends, c, p, ended)
    ensures Runs(ends, c.steps, p, false) || Runs(ends, c.steps, p, true)
    ensures !(ends && c.terminates) ==> Runs(ends, c.steps, p, ended)
  {
    assert ends && c.terminates ==> RunsEitherWay(ends, c.steps, p);
  }

  /** The search finds a continuation if and only if some path of the list names the department. */
  lemma {:induction false} RedirectFindsWhatPathsName(steps: seq<Step>, d: DeptId)
    requires d != "" && WellFormed(steps)
    ensures FindRedirectTarget(steps, d).Some? <==> exists p :: Runs(false, steps, p, false) && Names(p, d)
  {
    match FindRedirectTarget(steps, d)
    case Some(cont) =>
      var pre := FindLeadsTo(steps, d, cont);
      FindKeepsShape(false, steps, d);
      var q := SomePath(false, cont);
      assert Runs(false, steps, pre + q, false) && Names(pre + q, d);
    case None =>
      forall p | Runs(false, steps, p, false) ensures !Names(p, d) {
        UnfoundIsUnnamed(false, steps, d, p, false);
      }
  }

  // ----- where a department runs -----

  function CountIn(ds: seq<DeptId>, d: DeptId): nat {
    if ds == [] then 0 else (if ds[0] == d then 1 else 0) + CountIn(ds[1..], d)
  }

  /** How many places of the list give rise to an event; a place to revert to can run again and counts twice. */
  function Marks(steps: seq<Step>, e: Event): nat {
    if steps == [] then 0 else StepMarks(steps[0], e) + Marks(steps[1..], e)
  }

  function StepMarks(step: Step, e: Event): nat {
    match step
    case Sequential(ds) => (match e case Ran(d) => CountIn(ds, d) case Forked(_) => 0)
    case Parallel(bs) => BranchMarks(bs, e)
    case Exclusive(cs) => ChoiceMarks(cs, e)
    case SubWorkflow(steps, _, _, _) => Marks(steps, e)
  }

  function BranchMarks(bs: seq<ParallelBranch>, e: Event): nat {
    if bs == [] then 0
    else (if e == Forked(bs[0].deptId) then 1 else 0) + Marks(bs[0].steps, e) + BranchMarks(bs[1..], e)
  }

  function ChoiceMarks(cs: seq<ExclusiveBranch>, e: Event): nat {
    if cs == [] then 0
    else Marks(cs[0].steps, e) + LeafMarks(cs[0], e) + ChoiceMarks(cs[1..], e)
  }

  function LeafMarks(c: ExclusiveBranch, e: Event): nat {
    (if c.steps == [] && c.target != "" && e == Ran(c.target) then 1 else 0)
    + (if c.revertTo != "" && e == Ran(c.revertTo) then 2 else 0)
  }

  /** How many places run `d`. */
  function Places(steps: seq<Step>, d: DeptId): nat {
    Marks(steps, Ran(d))
  }

  function StepPlaces(step: Step, d: DeptId): nat {
    StepMarks(step, Ran(d))
  }

  function BranchPlaces(bs: seq<ParallelBranch>, d: DeptId): nat {
    BranchMarks(bs, Ran(d))
  }

  function ChoicePlaces(cs: seq<ExclusiveBranch>, d: DeptId): nat {
    ChoiceMarks(cs, Ran(d))
  }

  /** A parallel branch labelled `d` runs `d`. */
  predicate LabelsRun(steps: seq<Step>, d: DeptId) {
    steps != [] ==> StepLabelsRun(steps[0], d) && LabelsRun(steps[1..], d)
  }

  predicate StepLabelsRun(step: Step, d: DeptId) {
    match step
    case Sequential(_) => true
    case Parallel(bs) => forall i | 0 <= i < |bs| :: BranchLabelRuns(bs[i], d)
    case Exclusive(cs) => forall i | 0 <= i < |cs| :: LabelsRun(cs[i].steps, d)
    case SubWorkflow(steps, _, _, _) => LabelsRun(steps, d)
  }

  predicate BranchLabelRuns(b: ParallelBranch, d: DeptId) {
    (b.deptId == d ==> Places(b.steps, d) > 0) && LabelsRun(b.steps, d)
  }

  lemma {:induction false} FoundHasPlace(steps: seq<Step>, d: DeptId)
    requires d != "" && LabelsRun(steps, d) && FindRedirectTarget(steps, d).Some?
    ensures Places(steps, d) > 0
    decreases steps
  {
    if RedirectWithinStep(steps[0], d).Some? {
      StepFoundHasPlace(steps[0], d);
    } else {
      FoundHasPlace(steps[1..], d);
    }
  }

  lemma {:induction false} StepFoundHasPlace(step: Step, d: DeptId)
    requires d != "" && StepLabelsRun(step, d) && RedirectWithinStep(step, d).Some?
    ensures StepPlaces(step, d) > 0
    decreases step
  {
    match step
    case Sequential(ds) => PresentCounts(ds, d, IndexOf(ds, d));
    case Parallel(bs) => BranchFoundHasPlace(bs, d);
    case Exclusive(cs) => ChoiceFoundHasPlace(cs, d);
    case SubWorkflow(steps, _, _, _) => FoundHasPlace(steps, d);
  }

  lemma {:induction false} BranchFoundHasPlace(bs: seq<ParallelBranch>, d: DeptId)
    requires d != "" && (forall i | 0 <= i < |bs| :: BranchLabelRuns(bs[i], d)) && RedirectWithinBranches(bs, d).Some?
    ensures BranchPlaces(bs, d) > 0
    decreases bs
  {
    assert BranchLabelRuns(bs[0], d);
    if FindRedirectTarget(bs[0].steps, d).Some? {
      FoundHasPlace(bs[0].steps, d);
    } else if bs[0].deptId != d {
      BranchFoundHasPlace(bs[1..], d);
    }
  }

  lemma {:induction false} ChoiceFoundHasPlace(cs: seq<ExclusiveBranch>, d: DeptId)
    requires d != "" && (forall i | 0 <= i < |cs| :: LabelsRun(cs[i].steps, d)) && RedirectWithinChoices(cs, d).Some?
    ensures ChoicePlaces(cs, d) > 0
    decreases cs
  {
    if FindRedirectTarget(cs[0].steps, d).Some? {
      FoundHasPlace(cs[0].steps, d);
    } else if !LeafNames(cs[0], d) {
      ChoiceFoundHasPlace(cs[1..], d);
    }
  }

  lemma {:induction false} PresentCounts(ds: seq<DeptId>, d: DeptId, i: nat)
    requires i < |ds| && ds[i] == d
    ensures CountIn(ds, d) > 0
  {
    if i > 0 {
      PresentCounts(ds[1..], d, i - 1);
    }
  }

  lemma {:induction false} CountedOnce(ds: seq<DeptId>, d: DeptId, i: nat, j: nat)
    requires i < |ds| && j < |ds| && ds[i] == d && ds[j] == d && CountIn(ds, d) <= 1
    ensures i == j
  {
    if i == 0 && j > 0 {
      PresentCounts(ds[1..], d, j - 1);
    } else if j == 0 && i > 0 {
      PresentCounts(ds[1..], d, i - 1);
    } else if i > 0 && j > 0 {
      CountedOnce(ds[1..], d, i - 1, j - 1);
    }
  }

  /** What happens on a path happens at one of its places. */
  lemma {:induction false} HappensAtAPlace(ends: bool, steps: seq<Step>, e: Event, p: Path, ended: bool)
    requires Runs(ends, steps, p, ended) && e in p
    ensures Marks(steps, e) > 0
    decreases steps
  {
    if ended && StepRuns(ends, steps[0], p, true) {
      StepHappensAtAPlace(ends, steps[0], e, p, true);
    } else {
      var k :| 0 <= k <= |p| && RunsSplitAt(ends, steps, p, ended, k);
      assert p == p[..k] + p[k..];
      if e in p[..k] {
        StepHappensAtAPlace(ends, steps[0], e, p[..k], false);
      } else {
        HappensAtAPlace(ends, steps[1..], e, p[k..], ended);
      }
    }
  }

  lemma {:induction false} StepHappensAtAPlace(ends: bool, step: Step, e: Event, p: Path, ended: bool)
    requires StepRuns(ends, step, p, ended) && e in p
    ensures StepMarks(step, e) > 0
    decreases step
  {
    match step
    case Sequential(ds) =>
      var i :| 0 <= i < |p| && p[i] == e;
      PresentCounts(ds, ds[i], i);
    case Parallel(bs) =>
      var i :| 0 <= i < |bs| && BranchRuns(ends, bs[i], p);
      BranchHappensAtAPlace(ends, bs[i], e, p);
      BranchMarksAt(bs, e, i);
    case Exclusive(cs) =>
      ChoicesHappenAtAPlace(ends, cs, e, 0, p, ended);
    case SubWorkflow(steps, _, _, _) =>
      HappensAtAPlace(ends, steps, e, p, !Runs(ends, steps, p, false));
  }

  lemma {:induction false} BranchHappensAtAPlace(ends: bool, b: ParallelBranch, e: Event, p: Path)
    requires BranchRuns(ends, b, p) && e in p
    ensures e == Forked(b.deptId) || Marks(b.steps, e) > 0
    decreases b
  {
    assert p == [p[0]] + p[1..];
    if e != p[0] {
      assert RunsEitherWay(ends, b.steps, p[1..]);
      HappensAtAPlace(ends, b.steps, e, p[1..], !Runs(ends, b.steps, p[1..], false));
    }
  }

  lemma {:induction false} BranchMarksAt(bs: seq<ParallelBranch>, e: Event, i: nat)
    requires i < |bs|
    ensures BranchMarks(bs, e) >= Marks(bs[i].steps, e) + if e == Forked(bs[i].deptId) then 1 else 0
  {
    if i > 0 {
      BranchMarksAt(bs[1..], e, i - 1);
    }
  }

  lemma {:induction false} ChoiceMarksAt(cs: seq<ExclusiveBranch>, e: Event, i: nat)
    requires i < |cs|
    ensures ChoiceMarks(cs, e) >= Marks(cs[i].steps, e) + LeafMarks(cs[i], e)
  {
    if i > 0 {
      ChoiceMarksAt(cs[1..], e, i - 1);
    }
  }

  lemma {:induction false} ChoicesHappenAtAPlace(ends: bool, cs: seq<ExclusiveBranch>, e: Event, cycle: nat, p: Path, ended: bool)
    requires ChoicesRunPath(ends, cs, cycle, p, ended) && e in p
    ensures ChoiceMarks(cs, e) > 0
    decreases cs, if cycle <= MAX_REVERT_CYCLES then MAX_REVERT_CYCLES - cycle else 0
  {
    var i :| 0 <= i < |cs| &&
      if cs[i].revertTo != "" then
        && cycle < MAX_REVERT_CYCLES
        && p != [] && p[0] == Ran(cs[i].revertTo)
        && ((p[1..] == [] && !ended) || ChoicesRunPath(ends, cs, cycle + 1, p[1..], ended))
      else
        ForwardRuns(ends, cs[i], p, ended);
    ChoiceMarksAt(cs, e, i);
    if cs[i].revertTo != "" {
      assert p == [p[0]] + p[1..];
      if e != p[0] {
        ChoicesHappenAtAPlace(ends, cs, e, cycle + 1, p[1..], ended);
      }
    } else {
      ForwardHappensAtAPlace(ends, cs[i], e, p, ended);
    }
  }

  lemma {:induction false} ForwardHappensAtAPlace(ends: bool, c: ExclusiveBranch, e: Event, p: Path, ended: bool)
    requires ForwardRuns(ends, c, p, ended) && e in p
    ensures Marks(c.steps, e) + LeafMarks(c, e) > 0
    decreases c
  {
    if c.steps != [] {
      ForwardRunsItsSteps(ends, c, p, ended);
      HappensAtAPlace(ends, c.steps, e, p, !Runs(ends, c.steps, p, false));
    }
  }
}
