/**
 Plans with early ends: two that a redirect takes off their paths, one where repeated work hides it, and one it keeps to.
 */
module UnguardedPlans {
  import opened EarlyEnds
  import opened GuardNeeded
  import opened Plan
  import opened Redirect
  import opened Residual
  import opened Wrappers

  const END := ExclusiveBranch([], "", "", true)

  function EndAfter(d: DeptId): ExclusiveBranch {
    ExclusiveBranch([Sequential([d])], "", "", true)
  }

  lemma OnlyChoice(ends: bool, c: ExclusiveBranch, p: Path, ended: bool)
    requires c.revertTo == ""
    ensures StepRuns(ends, Exclusive([c]), p, ended) <==> ForwardRuns(ends, c, p, ended)
  {
    var cs := [c];
    assert |cs| == 1 && cs[0] == c;
    if ForwardRuns(ends, c, p, ended) {
      assert ForwardRuns(ends, cs[0], p, ended);
    }
  }

  lemma EndAfterRuns(d: DeptId, p: Path)
    requires d != ""
    ensures !StepRuns(true, Exclusive([EndAfter(d)]), p, false)
    ensures StepRuns(true, Exclusive([EndAfter(d)]), p, true) <==> p == [Ran(d)]
  {
    var c := EndAfter(d);
    OnlyChoice(true, c, p, false);
    OnlyChoice(true, c, p, true);
    NeverEnds(true, c.steps, p);
    LoneDepartmentPath(true, [d], p);
    assert RanAll([d]) == [Ran(d)];
  }

  lemma TwoStepRuns(ends: bool, first: Step, second: Step, p: Path, ended: bool)
    requires Runs(ends, [first, second], p, ended)
    requires ends ==> NoEndsStep(second)
    ensures (ended && StepRuns(ends, first, p, true))
            || exists k | 0 <= k <= |p| :: !ended && StepRuns(ends, first, p[..k], false) && StepRuns(ends, second, p[k..], false)
  {
    var steps := [first, second];
    assert steps[1..] == [second] && steps[0] == first;
    if !(ended && StepRuns(ends, first, p, true)) {
      var k :| 0 <= k <= |p| && RunsSplitAt(ends, steps, p, ended, k);
      NeverEnds(ends, [second], p[k..]);
      LoneStepPath(ends, [second], p[k..]);
    }
  }

  /**
   A target under a terminating branch: the run ends there, the continuation goes on to the work
   queued after the gateway. Its path is a suffix of no run of the plan.
   */
  lemma RedirectRunsPastAnEnd(d: DeptId, x: DeptId)
    requires d != "" && x != ""
    ensures
      var steps := [Exclusive([EndAfter(d)]), Sequential([x])];
      var cont := [Sequential([d]), Sequential([x])];
      && FindRedirectTarget(steps, d) == Some(cont)
      && !Guarded(steps, d, true, true) && !KeepsToThePlan(steps, d, cont)
      && Runs(true, cont, [Ran(d), Ran(x)], false)
      && forall pre :: !RunsEitherWay(true, steps, pre + [Ran(d), Ran(x)])
  {
    var gateway, last := Exclusive([EndAfter(d)]), Sequential([x]);
    var steps, cont := [gateway, last], [Sequential([d]), last];
    var q := [Ran(d), Ran(x)];
    FindUnderEnd(d, last);
    LoneDepartmentPath(true, [d], [Ran(d)]);
    LoneDepartmentPath(true, [x], [Ran(x)]);
    assert RanAll([d]) == [Ran(d)] && RanAll([x]) == [Ran(x)];
    RunsAppendJoins(true, [Sequential([d])], [last], [Ran(d)], [Ran(x)]);
    assert [Sequential([d])] + [last] == cont && [Ran(d)] + [Ran(x)] == q;
    NotGuardedUnderEnd(d, last);
    assert RunsEitherWay(true, cont, q);
    forall pre ensures !RunsEitherWay(true, steps, pre + q) {
      forall ended | Runs(true, steps, pre + q, ended) ensures false {
        TwoStepRuns(true, gateway, last, pre + q, ended);
        EndAfterRuns(d, pre + q);
        forall k | 0 <= k <= |pre + q| ensures !StepRuns(true, gateway, (pre + q)[..k], false) {
          EndAfterRuns(d, (pre + q)[..k]);
        }
      }
    }
  }

  lemma FindUnderEnd(d: DeptId, last: Step)
    ensures FindRedirectTarget([Exclusive([EndAfter(d)]), last], d) == Some([Sequential([d]), last])
  {
    var gateway := Exclusive([EndAfter(d)]);
    var steps, inner := [gateway, last], [Sequential([d])];
    assert EndAfter(d).steps == inner && RedirectWithinStep(inner[0], d) == Some(inner) && inner[1..] == [];
    assert FindRedirectTarget(inner, d) == Some(inner) by { assert inner + [] == inner; }
    assert RedirectWithinChoices(gateway.choices, d) == Some(inner);
    assert steps[1..] == [last] && inner + [last] == [Sequential([d]), last];
  }

  /**
   A target in a parallel branch with a later end: in the plan the end closes only that branch and the
   work after the join still runs, in the continuation it closes everything that is left.
   */
  lemma RedirectDropsWorkAfterAJoin(d: DeptId, x: DeptId)
    requires d != "" && x != "" && d != x
    ensures
      var steps := [Parallel([ParallelBranch("", [Sequential([d]), Exclusive([END])])]), Sequential([x])];
      var cont := [Sequential([d]), Exclusive([END]), Sequential([x])];
      && FindRedirectTarget(steps, d) == Some(cont)
      && !Guarded(steps, d, true, true) && !KeepsToThePlan(steps, d, cont)
      && Runs(true, cont, [Ran(d)], true)
      && forall pre :: !RunsEitherWay(true, steps, pre + [Ran(d)])
  {
    var end, last := Exclusive([END]), Sequential([x]);
    var inner := [Sequential([d]), end];
    var fork := Parallel([ParallelBranch("", inner)]);
    var steps, cont := [fork, last], [Sequential([d]), end, last];
    FindBeforeEnd(d, last);
    OnlyChoice(true, END, [], true);
    assert cont[1..][0] == end && cont[1..] == [end, last];
    assert Runs(true, cont[1..], [], true);
    assert RanAll([d]) == [Ran(d)] && [Ran(d)] + [] == [Ran(d)];
    assert cont[0] == Sequential([d]);
    RunsCons(true, cont, [Ran(d)], [], true);
    NotGuardedBeforeEnd(d, last);
    assert RunsEitherWay(true, cont, [Ran(d)]);
    forall pre ensures !RunsEitherWay(true, steps, pre + [Ran(d)]) {
      var p := pre + [Ran(d)];
      forall ended ensures !Runs(true, steps, p, ended) {
        assert p[|p|-1] == Ran(d);
        if Runs(true, steps, p, ended) {
          JoinThenLast(fork.branches, x, p, ended);
        }
      }
    }
  }

  lemma JoinThenLast(bs: seq<ParallelBranch>, x: DeptId, p: Path, ended: bool)
    requires Runs(true, [Parallel(bs), Sequential([x])], p, ended)
    ensures p != [] && p[|p|-1] == Ran(x)
  {
    TwoStepRuns(true, Parallel(bs), Sequential([x]), p, ended);
    var k :| 0 <= k <= |p| && StepRuns(true, Sequential([x]), p[k..], false);
    LastRuns([x], p[k..]);
    assert p[|p|-1] == p[k..][0];
  }

  lemma LastRuns(ds: seq<DeptId>, p: Path)
    requires StepRuns(true, Sequential(ds), p, false)
    ensures ds != [] && p == RanAll(ds)
  {
  }

  lemma FindBeforeEnd(d: DeptId, last: Step)
    ensures FindRedirectTarget([Parallel([ParallelBranch("", [Sequential([d]), Exclusive([END])])]), last], d)
            == Some([Sequential([d]), Exclusive([END]), last])
  {
    var end := Exclusive([END]);
    var inner := [Sequential([d]), end];
    var bs := [ParallelBranch("", inner)];
    var steps := [Parallel(bs), last];
    assert RedirectWithinStep(inner[0], d) == Some([Sequential([d])]) && inner[1..] == [end];
    assert [Sequential([d])] + [end] == inner;
    assert FindRedirectTarget(inner, d) == Some(inner);
    assert bs[0].steps == inner && RedirectWithinBranches(bs, d) == Some(inner);
    assert RedirectWithinStep(steps[0], d) == Some(inner);
    assert steps[1..] == [last] && inner + [last] == [Sequential([d]), end, last];
  }

  lemma LoneMay(step: Step, ended: bool, empty: bool)
    ensures May([step], ended, empty) <==> MayStep(step, ended, empty)
  {
    var steps := [step];
    assert steps[1..] == [] && steps[0] == step;
  }

  lemma NotGuardedUnderEnd(d: DeptId, last: Step)
    requires last.Sequential? && last.departments != []
    ensures !Guarded([Exclusive([EndAfter(d)]), last], d, true, true)
  {
    var gateway := Exclusive([EndAfter(d)]);
    var steps, inner := [gateway, last], [Sequential([d])];
    FindUnderEnd(d, last);
    assert EndAfter(d).steps == inner && RedirectWithinStep(inner[0], d) == Some(inner) && inner[1..] == [];
    assert FindRedirectTarget(inner, d) == Some(inner) by { assert inner + [] == inner; }
    assert steps[1..] == [last];
    LoneMay(last, false, false);
    LoneMay(Sequential([d]), false, false);
    UnguardedChoice(gateway.choices, d, inner, SkipsAfter([last], true), QuietAfter([last], true));
    UnguardedFirst(steps, d);
  }

  lemma UnguardedFirst(steps: seq<Step>, d: DeptId)
    requires steps != [] && RedirectWithinStep(steps[0], d).Some?
    requires !GuardedStep(steps[0], d, SkipsAfter(steps[1..], true), QuietAfter(steps[1..], true))
    ensures !Guarded(steps, d, true, true)
  {
  }

  lemma UnguardedChoice(cs: seq<ExclusiveBranch>, d: DeptId, cont: seq<Step>, skips: bool, quiet: bool)
    requires cs != [] && FindRedirectTarget(cs[0].steps, d) == Some(cont) && cs[0].terminates && CanFinish(cont) && !quiet
    ensures !GuardedChoices(cs, d, skips, quiet)
  {
  }

  lemma UnguardedBranch(bs: seq<ParallelBranch>, d: DeptId, cont: seq<Step>)
    requires bs != [] && FindRedirectTarget(bs[0].steps, d) == Some(cont) && CanEnd(cont)
    ensures !GuardedBranches(bs, d, false)
  {
  }

  /** A sequential step can neither end nor run nothing. */
  lemma NothingSkips(last: Step)
    requires last.Sequential?
    ensures !SkipsAfter([last], true)
  {
    LoneMay(last, false, true);
    LoneMay(last, true, true);
  }

  lemma NotGuardedBeforeEnd(d: DeptId, last: Step)
    requires last.Sequential? && last.departments != []
    ensures !Guarded([Parallel([ParallelBranch("", [Sequential([d]), Exclusive([END])])]), last], d, true, true)
  {
    var end := Exclusive([END]);
    var inner := [Sequential([d]), end];
    var bs := [ParallelBranch("", inner)];
    var steps := [Parallel(bs), last];
    FindBeforeEnd(d, last);
    assert RedirectWithinStep(inner[0], d) == Some([Sequential([d])]) && inner[1..] == [end];
    assert [Sequential([d])] + [end] == inner;
    assert FindRedirectTarget(inner, d) == Some(inner);
    assert steps[1..] == [last];
    NothingSkips(last);
    LoneMay(end, true, true);
    assert MayForward(END, true, true) && end.choices[0] == END;
    assert MayStep(end, true, true) && CanEnd(inner);
    UnguardedBranch(bs, d, inner);
    UnguardedFirst(steps, d);
  }

  /** The branch runs `d`, and then `y` and ends, or nothing more. */
  function EndsAfterWork(d: DeptId, y: DeptId): seq<Step> {
    [Sequential([d]), Exclusive([EndAfter(y), ExclusiveBranch([], "", "", false)])]
  }

  lemma EndsAfterWorkRuns(d: DeptId, y: DeptId, p: Path, ended: bool)
    ensures Runs(true, EndsAfterWork(d, y), p, ended) <==> p == if ended then [Ran(d), Ran(y)] else [Ran(d)]
  {
    var steps := EndsAfterWork(d, y);
    var cs := steps[1].choices;
    assert steps[1..] == [steps[1]];
    assert RanAll([d]) == [Ran(d)] && RanAll([y]) == [Ran(y)];
    forall t, e ensures StepRuns(true, steps[1], t, e) <==> t == if e then [Ran(y)] else [] {
      ChoiceOfWorkRuns(y, t, e);
    }
    if Runs(true, steps, p, ended) {
      var k := SplitPoint(true, steps, p, ended);
      assert p[..k] == [Ran(d)];
      if ended && StepRuns(true, steps[1], p[k..], true) {
        assert p == p[..k] + p[k..];
      } else {
        var j := SplitPoint(true, steps[1..], p[k..], ended);
        assert p[k..][j..] == [] && p[k..] == p[k..][..j] && p == p[..k] + p[k..];
      }
    }
    if p == if ended then [Ran(d), Ran(y)] else [Ran(d)] {
      var t := if ended then [Ran(y)] else [];
      assert StepRuns(true, steps[1], t, ended);
      if ended {
        EndsInFirst(steps[1..], t);
      } else {
        LoneStepPath(true, steps[1..], t);
      }
      RunsCons(true, steps, [Ran(d)], t, ended);
      assert p == [Ran(d)] + t;
    }
  }

  lemma ChoiceOfWorkRuns(y: DeptId, t: Path, e: bool)
    ensures StepRuns(true, EndsAfterWork("", y)[1], t, e) <==> t == if e then [Ran(y)] else []
  {
    var cs := EndsAfterWork("", y)[1].choices;
    LoneDepartmentPath(true, [y], t);
    NeverEnds(true, [Sequential([y])], t);
    assert RanAll([y]) == [Ran(y)];
    assert ForwardRuns(true, cs[0], t, e) <==> e && t == [Ran(y)];
    assert ForwardRuns(true, cs[1], t, e) <==> !e && t == [];
  }

  /**
   Why the converse asks that every department have one place: work that repeats what the end left out hides that it was
   left out. Here the guard fails, `d` has one place, and the continuation keeps to the plan all the same.
   */
  lemma RepeatedWorkHidesAnEnd(d: DeptId, y: DeptId)
    requires d != "" && y != "" && d != y
    ensures
      var steps := [Parallel([ParallelBranch("", EndsAfterWork(d, y))]), Sequential([y])];
      var cont := EndsAfterWork(d, y) + [Sequential([y])];
      && FindRedirectTarget(steps, d) == Some(cont) && Places(steps, d) == 1
      && !Guarded(steps, d, true, true) && KeepsToThePlan(steps, d, cont)
  {
    var inner, last := EndsAfterWork(d, y), Sequential([y]);
    var bs := [ParallelBranch("", inner)];
    var steps, cont := [Parallel(bs), last], inner + [last];
    assert RedirectWithinStep(inner[0], d) == Some([Sequential([d])]) && [Sequential([d])] + inner[1..] == inner;
    assert FindRedirectTarget(inner, d) == Some(inner);
    assert steps[1..] == [last] && RedirectWithinBranches(bs, d) == Some(inner);
    RepeatedPlaces(d, y);
    EndsAfterWorkRuns(d, y, [Ran(d), Ran(y)], true);
    MayOfPath(inner, [Ran(d), Ran(y)], true);
    NothingSkips(last);
    UnguardedBranch(bs, d, inner);
    UnguardedFirst(steps, d);
    var p := [Forked(""), Ran(d), Ran(y)];
    RepeatedRun(d, y);
    forall q | RunsEitherWay(true, cont, q) ensures exists pre :: RunsEitherWay(true, steps, pre + q) && StartsAt(d, pre, q) {
      RepeatedContinuation(d, y, q);
      assert [Forked("")] + q == p;
      assert RunsEitherWay(true, steps, [Forked("")] + q) && StartsAt(d, [Forked("")], q);
    }
  }

  lemma RepeatedPlaces(d: DeptId, y: DeptId)
    requires d != "" && y != "" && d != y
    ensures Places([Parallel([ParallelBranch("", EndsAfterWork(d, y))]), Sequential([y])], d) == 1
  {
    var inner, last := EndsAfterWork(d, y), Sequential([y]);
    var bs := [ParallelBranch("", inner)];
    var steps := [Parallel(bs), last];
    var cs := inner[1].choices;
    LoneMarks(d, Ran(d));
    LoneMarks(y, Ran(d));
    PairMarks([Sequential([d]), inner[1]], Ran(d));
    assert cs[0].steps == [Sequential([y])] && cs[1].steps == [];
    PairChoiceMarks(cs, Ran(d));
    assert bs[1..] == [];
    LoneBranchMarks(bs, Ran(d));
    PairMarks(steps, Ran(d));
  }

  lemma PairMarks(steps: seq<Step>, e: Event)
    requires |steps| == 2
    ensures Marks(steps, e) == Marks([steps[0]], e) + Marks([steps[1]], e)
    ensures forall i | 0 <= i < 2 :: Marks([steps[i]], e) == StepMarks(steps[i], e)
  {
    assert steps == [steps[0]] + [steps[1]];
    AppendMarks([steps[0]], [steps[1]], e);
    forall i | 0 <= i < 2 ensures Marks([steps[i]], e) == StepMarks(steps[i], e) {
      LoneStepMarks([steps[i]], e);
    }
  }

  lemma LoneStepMarks(steps: seq<Step>, e: Event)
    requires |steps| == 1
    ensures Marks(steps, e) == StepMarks(steps[0], e)
  {
    assert steps[1..] == [];
  }

  lemma PairChoiceMarks(cs: seq<ExclusiveBranch>, e: Event)
    requires |cs| == 2
    ensures ChoiceMarks(cs, e) == Marks(cs[0].steps, e) + LeafMarks(cs[0], e) + Marks(cs[1].steps, e) + LeafMarks(cs[1], e)
  {
    LoneChoiceMarks(cs[1..], e);
  }

  lemma LoneChoiceMarks(cs: seq<ExclusiveBranch>, e: Event)
    requires |cs| == 1
    ensures ChoiceMarks(cs, e) == Marks(cs[0].steps, e) + LeafMarks(cs[0], e)
  {
    assert cs[1..] == [];
  }

  lemma LoneBranchMarks(bs: seq<ParallelBranch>, e: Event)
    requires |bs| == 1 && e.Ran?
    ensures BranchMarks(bs, e) == Marks(bs[0].steps, e)
  {
    assert bs[1..] == [];
  }

  /** The one path the continuation has: with the end after `y`, or with the `y` after the join. */
  lemma RepeatedContinuation(d: DeptId, y: DeptId, q: Path)
    requires RunsEitherWay(true, EndsAfterWork(d, y) + [Sequential([y])], q)
    ensures q == [Ran(d), Ran(y)]
  {
    var inner, last := EndsAfterWork(d, y), [Sequential([y])];
    var ended := !Runs(true, inner + last, q, false);
    var k, inFirst := AppendedPath(inner, last, q, ended);
    if inFirst {
      EndsAfterWorkRuns(d, y, q, true);
    } else {
      EndsAfterWorkRuns(d, y, q[..k], false);
      NeverEnds(true, last, q[k..]);
      LoneDepartmentPath(true, [y], q[k..]);
      assert RanAll([y]) == [Ran(y)] && q == q[..k] + q[k..];
    }
  }

  lemma RepeatedRun(d: DeptId, y: DeptId)
    ensures Runs(true, [Parallel([ParallelBranch("", EndsAfterWork(d, y))]), Sequential([y])], [Forked(""), Ran(d), Ran(y)], false)
  {
    var bs := [ParallelBranch("", EndsAfterWork(d, y))];
    var a := [Forked(""), Ran(d)];
    EndsAfterWorkRuns(d, y, [Ran(d)], false);
    assert a[1..] == [Ran(d)] && RunsEitherWay(true, bs[0].steps, a[1..]);
    assert BranchRuns(true, bs[0], a);
    var steps := [Parallel(bs), Sequential([y])];
    assert steps[1..] == [Sequential([y])];
    LoneDepartmentPath(true, [y], [Ran(y)]);
    assert RanAll([y]) == [Ran(y)];
    RunsCons(true, steps, a, [Ran(y)], false);
    assert a + [Ran(y)] == [Forked(""), Ran(d), Ran(y)];
  }

  /** An end in a sibling of the target's choice is off the chain: the guard holds, whatever is queued after the gateway. */
  lemma SiblingEndIsHarmless(a: DeptId, d: DeptId, last: Step)
    requires a != d && d != ""
    ensures Guarded([Sequential([a]), Exclusive([END, ExclusiveBranch([Sequential([d])], "", "", false)]), last], d, true, true)
  {
    var inner := [Sequential([d])];
    var gateway := Exclusive([END, ExclusiveBranch(inner, "", "", false)]);
    var steps := [Sequential([a]), gateway, last];
    assert RedirectWithinStep(inner[0], d) == Some(inner) && inner + inner[1..] == inner;
    assert FindRedirectTarget(inner, d) == Some(inner);
    assert gateway.choices[0] == END && gateway.choices[1..] == [ExclusiveBranch(inner, "", "", false)];
    GuardedInSecond(gateway.choices, d, inner, SkipsAfter([last], true), QuietAfter([last], true));
    assert steps[1..] == [gateway, last] && steps[1..][1..] == [last];
    assert RedirectWithinStep(steps[0], d).None? && MayStep(steps[0], false, false);
    GuardedFirst(steps[1..], d);
  }

  lemma GuardedFirst(steps: seq<Step>, d: DeptId)
    requires steps != [] && RedirectWithinStep(steps[0], d).Some?
    requires GuardedStep(steps[0], d, SkipsAfter(steps[1..], true), QuietAfter(steps[1..], true))
    ensures Guarded(steps, d, true, true)
  {
  }

  lemma GuardedInSecond(cs: seq<ExclusiveBranch>, d: DeptId, inner: seq<Step>, skips: bool, quiet: bool)
    requires |cs| == 2 && cs[0] == END && cs[1] == ExclusiveBranch(inner, "", "", false) && d != ""
    requires inner == [Sequential([d])] && FindRedirectTarget(inner, d) == Some(inner)
    ensures RedirectWithinChoices(cs, d) == Some(inner) && GuardedChoices(cs, d, skips, quiet)
  {
    var later := cs[1..];
    assert later[0] == cs[1];
    assert RedirectWithinStep(inner[0], d).Some? && Guarded(inner, d, skips, quiet);
  }
}
