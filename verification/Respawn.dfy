/**
 A failed parallel branch made of sequential steps, forced back any number of times: where each respawn
 resumes, and what has been completed over all of them.
 */
module Respawn {
  import opened Plan
  import opened NodeKeys
  import opened Redirect
  import opened Wrappers

  /** How one attempt goes: whether stage number `i` of a department fails in it. */
  type Fate = (DeptId, nat) -> bool

  datatype FailedBranch = FailedBranch(steps: seq<Step>, lastCompletedNode: NodeKey)

  predicate AllSequential(steps: seq<Step>) {
    forall i | 0 <= i < |steps| :: steps[i].Sequential? && steps[i].departments != []
  }

  /** The departments of a sequential branch in the order they run. */
  function Flatten(steps: seq<Step>): seq<DeptId>
    requires AllSequential(steps)
  {
    if steps == [] then [] else steps[0].departments + Flatten(steps[1..])
  }

  ghost predicate Distinct<T>(s: seq<T>) {
    forall i, j | 0 <= i < j < |s| :: s[i] != s[j]
  }

  function FindDepartment(plan: CompiledPlan, d: DeptId): (dept: Option<Department>)
    ensures dept.Some? ==> dept.value in plan.departments && dept.value.id == d
    ensures dept.None? ==> forall i | 0 <= i < |plan.departments| :: plan.departments[i].id != d
  {
    FindFrom(plan.departments, d)
  }

  function FindFrom(departments: seq<Department>, d: DeptId): (dept: Option<Department>)
    ensures dept.Some? ==> dept.value in departments && dept.value.id == d
    ensures dept.None? ==> forall i | 0 <= i < |departments| :: departments[i].id != d
  {
    if departments == [] then None
    else if departments[0].id == d then Some(departments[0])
    else FindFrom(departments[1..], d)
  }

  function StageIndexAfter(dept: Department, node: NodeKey): (next: nat)
    ensures next <= |dept.stages|
  {
    IndexAfter(dept.id, dept.stages, 0, node)
  }

  function IndexAfter(d: DeptId, stages: seq<Stage>, i: nat, node: NodeKey): (next: nat)
    requires i <= |stages|
    ensures next == 0 || i < next <= |stages|
    ensures next != 0 ==> KeyOf(d, stages[next-1]) == node
    ensures forall k | i <= k < if next == 0 then |stages| else next - 1 :: KeyOf(d, stages[k]) != node
    decreases |stages| - i
  {
    if i == |stages| then 0
    else if KeyOf(d, stages[i]) == node then i + 1
    else IndexAfter(d, stages, i + 1, node)
  }

  function StepsAfterDept(steps: seq<Step>, d: DeptId): seq<Step>
  {
    if steps == [] then []
    else if steps[0].Sequential? && d in steps[0].departments then
      var rest := steps[0].departments[IndexOf(steps[0].departments, d) + 1..];
      (if rest == [] then [] else [Sequential(rest)]) + steps[1..]
    else StepsAfterDept(steps[1..], d)
  }

  /** The node a completed department leaves behind: its last stage, or none. */
  function LastKey(plan: CompiledPlan, d: DeptId): NodeKey {
    match FindDepartment(plan, d)
    case None => ""
    case Some(dept) => if dept.stages == [] then "" else KeyOf(d, dept.stages[|dept.stages|-1])
  }

  function NodeAfter(plan: CompiledPlan, completed: seq<DeptId>): NodeKey {
    if completed == [] then "" else LastKey(plan, completed[|completed|-1])
  }

  // ----- what an attempt completes -----

  /** The department is defined and no stage of it fails in the attempt. */
  predicate Passes(plan: CompiledPlan, d: DeptId, fails: Fate) {
    match FindDepartment(plan, d)
    case None => false
    case Some(dept) => forall i: nat | i < |dept.stages| :: !fails(d, i)
  }

  predicate AllDefined(plan: CompiledPlan, ds: seq<DeptId>) {
    forall d | d in ds :: FindDepartment(plan, d).Some?
  }

  predicate AllPass(plan: CompiledPlan, ds: seq<DeptId>, fails: Fate) {
    forall d | d in ds :: Passes(plan, d, fails)
  }

  /** Of the departments to run, those up to the first that does not pass. */
  function Passing(plan: CompiledPlan, ds: seq<DeptId>, fails: Fate): seq<DeptId> {
    if ds == [] || !Passes(plan, ds[0], fails) then [] else [ds[0]] + Passing(plan, ds[1..], fails)
  }

  /** What is completed of the branch after one attempt per fate, each going on where the ones before it stopped. */
  function Progress(plan: CompiledPlan, flat: seq<DeptId>, fates: seq<Fate>): (completed: seq<DeptId>)
    ensures completed <= flat
  {
    if fates == [] then []
    else
      var last := |fates| - 1;
      var before := Progress(plan, flat, fates[..last]);
      PassingIsLongest(plan, flat[|before|..], fates[last]);
      assert flat == before + flat[|before|..];
      before + Passing(plan, flat[|before|..], fates[last])
  }

  /** An attempt completes the longest prefix that passes: what is left of it is nothing, or starts with a department that does not. */
  lemma {:induction false} PassingIsLongest(plan: CompiledPlan, ds: seq<DeptId>, fails: Fate)
    ensures var done := Passing(plan, ds, fails);
      done <= ds && AllPass(plan, done, fails) && (|done| < |ds| ==> !Passes(plan, ds[|done|], fails))
  {
    if ds != [] && Passes(plan, ds[0], fails) {
      PassingIsLongest(plan, ds[1..], fails);
    }
  }

  lemma {:induction false} PassingStopsAt(plan: CompiledPlan, ds: seq<DeptId>, fails: Fate, j: nat)
    requires j <= |ds| && AllPass(plan, ds[..j], fails) && (j < |ds| ==> !Passes(plan, ds[j], fails))
    ensures Passing(plan, ds, fails) == ds[..j]
  {
    if j > 0 {
      assert ds[0] == ds[..j][0] && ds[1..][..j-1] == ds[..j][1..];
      PassingStopsAt(plan, ds[1..], fails, j - 1);
      assert ds[..j] == [ds[0]] + ds[1..][..j-1];
    }
  }

  lemma {:induction false} PassingJoined(plan: CompiledPlan, a: seq<DeptId>, b: seq<DeptId>, fails: Fate)
    ensures Passing(plan, a + b, fails) ==
              if Passing(plan, a, fails) == a then a + Passing(plan, b, fails) else Passing(plan, a, fails)
  {
    if a == [] {
      assert a + b == b && a + Passing(plan, b, fails) == Passing(plan, b, fails);
    } else {
      assert (a + b)[0] == a[0] && (a + b)[1..] == a[1..] + b;
      assert a == [a[0]] + a[1..];
      PassingJoined(plan, a[1..], b, fails);
      assert [a[0]] + (a[1..] + Passing(plan, b, fails)) == a + Passing(plan, b, fails);
      assert Passes(plan, a[0], fails) ==> Passing(plan, a, fails)[1..] == Passing(plan, a[1..], fails);
    }
  }

  /** The branch is whole after an attempt exactly when everything the attempts before it left over passes in it. */
  lemma WholeExactlyWhenTheRestPasses(plan: CompiledPlan, flat: seq<DeptId>, fates: seq<Fate>)
    requires fates != []
    ensures var before, last := Progress(plan, flat, fates[..|fates|-1]), fates[|fates|-1];
            Progress(plan, flat, fates) == flat <==> AllPass(plan, flat[|before|..], last)
  {
    var before, last := Progress(plan, flat, fates[..|fates|-1]), fates[|fates|-1];
    var rest := flat[|before|..];
    assert flat == before + rest;
    PassingIsLongest(plan, rest, last);
    if AllPass(plan, rest, last) {
      assert rest[..|rest|] == rest;
      PassingStopsAt(plan, rest, last, |rest|);
    }
  }

  lemma {:induction false} WholeStaysWhole(plan: CompiledPlan, flat: seq<DeptId>, fates: seq<Fate>, i: nat)
    requires i <= |fates| && Progress(plan, flat, fates[..i]) == flat
    ensures Progress(plan, flat, fates) == flat
  {
    if i == |fates| {
      assert fates[..i] == fates;
    } else {
      assert fates[..|fates|-1][..i] == fates[..i];
      WholeStaysWhole(plan, flat, fates[..|fates|-1], i);
    }
  }

  // ----- the runs themselves -----

  /** Runs the stages of a department from `startIdx`; `last` is the last one completed in this call. */
  method RunDepartmentFrom(plan: CompiledPlan, d: DeptId, startIdx: nat, fails: Fate) returns (last: NodeKey, ok: bool)
    ensures FindDepartment(plan, d).None? ==> !ok
    ensures FindDepartment(plan, d).Some? ==>
              var stages := FindDepartment(plan, d).value.stages;
              && (ok <==> forall i: nat | startIdx <= i < |stages| :: !fails(d, i))
              && (ok ==> last == if startIdx < |stages| then KeyOf(d, stages[|stages|-1]) else "")
  {
    var found := FindDepartment(plan, d);
    if found.None? {
      return "", false;
    }
    var stages := found.value.stages;
    last := "";
    var i := startIdx;
    while i < |stages|
      invariant i == startIdx || startIdx < i <= |stages|
      invariant forall k: nat | startIdx <= k < i :: !fails(d, k)
      invariant last == if startIdx < i then KeyOf(d, stages[i-1]) else ""
    {
      if fails(d, i) {
        return last, false;
      }
      last := KeyOf(d, stages[i]);
      i := i + 1;
    }
    ok := true;
  }

  method RunDepartment(plan: CompiledPlan, d: DeptId, fails: Fate) returns (last: NodeKey, ok: bool)
    ensures ok <==> Passes(plan, d, fails)
    ensures ok ==> last == LastKey(plan, d)
  {
    last, ok := RunDepartmentFrom(plan, d, 0, fails);
  }

  /** An attempt over `ds` that has done its first `j` departments and goes on with the next. */
  ghost predicate Reached(plan: CompiledPlan, ds: seq<DeptId>, fails: Fate, j: nat, completed: seq<DeptId>) {
    j <= |ds| && completed == ds[..j] && Passing(plan, ds, fails) == completed + Passing(plan, ds[j..], fails)
  }

  /** An attempt over `ds` that is over, with `completed` done. */
  ghost predicate Over(plan: CompiledPlan, ds: seq<DeptId>, fails: Fate, completed: seq<DeptId>, ok: bool) {
    completed == Passing(plan, ds, fails) && completed <= ds && (ok <==> completed == ds)
  }

  lemma ReachedFirst(plan: CompiledPlan, ds: seq<DeptId>, fails: Fate)
    ensures Reached(plan, ds, fails, 0, [])
  {
    assert ds[0..] == ds;
  }

  lemma ReachedNext(plan: CompiledPlan, ds: seq<DeptId>, fails: Fate, j: nat, completed: seq<DeptId>)
    requires j < |ds| && Reached(plan, ds, fails, j, completed)
    ensures Passes(plan, ds[j], fails) ==> Reached(plan, ds, fails, j + 1, completed + [ds[j]])
    ensures !Passes(plan, ds[j], fails) ==> Over(plan, ds, fails, completed, false)
  {
    assert ds[j..][0] == ds[j] && ds[j..][1..] == ds[j+1..];
    assert ds[..j+1] == completed + [ds[j]];
  }

  lemma ReachedLast(plan: CompiledPlan, ds: seq<DeptId>, fails: Fate, completed: seq<DeptId>)
    requires Reached(plan, ds, fails, |ds|, completed)
    ensures Over(plan, ds, fails, completed, true)
  {
    assert ds[..|ds|] == ds && ds[|ds|..] == [];
  }

  /** Runs the departments of one sequential step, going on from `node`. */
  method RunDepartments(plan: CompiledPlan, ds: seq<DeptId>, node: NodeKey, fails: Fate)
    returns (last: NodeKey, ok: bool, completed: seq<DeptId>)
    ensures completed == Passing(plan, ds, fails) && completed <= ds
    ensures ok <==> completed == ds
    ensures last == if completed == [] then node else NodeAfter(plan, completed)
  {
    last, completed := node, [];
    ReachedFirst(plan, ds, fails);
    var j := 0;
    while j < |ds|
      invariant j <= |ds| && Reached(plan, ds, fails, j, completed)
      invariant last == if completed == [] then node else NodeAfter(plan, completed)
    {
      ReachedNext(plan, ds, fails, j, completed);
      var deptLast, done := RunDepartment(plan, ds[j], fails);
      if !done {
        return last, false, completed;
      }
      last := deptLast;
      completed := completed + [ds[j]];
      j := j + 1;
    }
    ReachedLast(plan, ds, fails, completed);
    ok := true;
  }

  lemma NodeAfterMore(plan: CompiledPlan, before: seq<DeptId>, done: seq<DeptId>)
    ensures NodeAfter(plan, before + done) == if done == [] then NodeAfter(plan, before) else NodeAfter(plan, done)
  {
    assert done == [] ==> before + done == before;
  }

  /** A run of the list that has done its first `i` steps and goes on with the next. */
  ghost predicate StepsDone(plan: CompiledPlan, steps: seq<Step>, fails: Fate, i: nat, completed: seq<DeptId>)
    requires AllSequential(steps)
  {
    && i <= |steps| && Flatten(steps) == completed + Flatten(steps[i..])
    && Passing(plan, Flatten(steps), fails) == completed + Passing(plan, Flatten(steps[i..]), fails)
  }

  lemma NextStepDone(plan: CompiledPlan, steps: seq<Step>, fails: Fate, i: nat, completed: seq<DeptId>)
    requires AllSequential(steps) && i < |steps| && StepsDone(plan, steps, fails, i, completed)
    ensures var done := Passing(plan, steps[i].departments, fails);
      if done == steps[i].departments then StepsDone(plan, steps, fails, i + 1, completed + done)
      else Over(plan, Flatten(steps), fails, completed + done, false)
  {
    var ds, tail := steps[i].departments, Flatten(steps[i+1..]);
    FlattenAt(steps, i);
    PassingJoined(plan, ds, tail, fails);
    PassingIsLongest(plan, ds, fails);
    PrefixPutBefore(completed, Passing(plan, ds, fails), ds, tail);
    Regrouped(completed, ds, Passing(plan, tail, fails));
  }

  lemma AllStepsDone(plan: CompiledPlan, steps: seq<Step>, fails: Fate, completed: seq<DeptId>)
    requires AllSequential(steps) && StepsDone(plan, steps, fails, |steps|, completed)
    ensures Over(plan, Flatten(steps), fails, completed, true)
  {
    assert steps[|steps|..] == [];
    assert completed + [] == completed;
  }

  /** Runs a sequential list; `completed` lists the departments that ran to their end. */
  method RunStepList(plan: CompiledPlan, steps: seq<Step>, fails: Fate)
    returns (last: NodeKey, ok: bool, completed: seq<DeptId>)
    requires AllSequential(steps)
    ensures completed == Passing(plan, Flatten(steps), fails) && completed <= Flatten(steps)
    ensures ok <==> completed == Flatten(steps)
    ensures last == NodeAfter(plan, completed)
  {
    last, completed := "", [];
    var i := 0;
    assert steps[0..] == steps;
    while i < |steps|
      invariant i <= |steps| && StepsDone(plan, steps, fails, i, completed)
      invariant last == NodeAfter(plan, completed)
    {
      NextStepDone(plan, steps, fails, i, completed);
      var done;
      last, ok, done := RunDepartments(plan, steps[i].departments, last, fails);
      NodeAfterMore(plan, completed, done);
      completed := completed + done;
      if !ok {
        return last, false, completed;
      }
      i := i + 1;
    }
    AllStepsDone(plan, steps, fails, completed);
    ok := true;
  }

  lemma Regrouped(a: seq<DeptId>, b: seq<DeptId>, c: seq<DeptId>)
    ensures a + (b + c) == a + b + c
  {
  }

  lemma PrefixPutBefore(before: seq<DeptId>, done: seq<DeptId>, ds: seq<DeptId>, tail: seq<DeptId>)
    requires done <= ds
    ensures before + done <= before + (ds + tail)
    ensures done == ds ==> before + (ds + tail) == before + done + tail
    ensures done != ds ==> before + done != before + (ds + tail)
  {
    assert ds == done + ds[|done|..];
    assert before + (ds + tail) == before + done + (ds[|done|..] + tail);
  }

  lemma FlattenAt(steps: seq<Step>, i: nat)
    requires AllSequential(steps) && i < |steps|
    ensures Flatten(steps[i..]) == steps[i].departments + Flatten(steps[i+1..])
  {
    assert steps[i..][0] == steps[i] && steps[i..][1..] == steps[i+1..];
  }

  /**
   What the branch needs for a saved node to name its department's end: ids without a slash, and every defined
   department with a stage and no repeated stage id.
   */
  ghost predicate Resumable(plan: CompiledPlan, flat: seq<DeptId>) {
    && Distinct(flat)
    && (forall d | d in flat :: '/' !in d)
    && forall d | d in flat && FindDepartment(plan, d).Some? :: StagesDistinct(FindDepartment(plan, d).value.stages)
  }

  ghost predicate StagesDistinct(stages: seq<Stage>) {
    stages != [] && forall i, j | 0 <= i < j < |stages| :: stages[i].id != stages[j].id
  }

  lemma {:induction false} IndexAfterLast(d: DeptId, stages: seq<Stage>, i: nat)
    requires StagesDistinct(stages) && i < |stages|
    ensures IndexAfter(d, stages, i, KeyOf(d, stages[|stages|-1])) == |stages|
    decreases |stages| - i
  {
    var last := stages[|stages|-1];
    if i < |stages| - 1 {
      assert KeyOf(d, stages[i])[|d| + 1..] == stages[i].id && KeyOf(d, last)[|d| + 1..] == last.id;
      IndexAfterLast(d, stages, i + 1);
    }
  }

  /** Whatever the list: it is cut after the department's first place at its top level, and nothing is left if it has none there. */
  lemma {:induction false} CutsAtTheFirstPlace(steps: seq<Step>, d: DeptId, i: nat, j: nat)
    requires i <= |steps| && forall k | 0 <= k < i :: !(steps[k].Sequential? && d in steps[k].departments)
    requires i < |steps| ==>
               steps[i].Sequential? && j < |steps[i].departments| && steps[i].departments[j] == d && d !in steps[i].departments[..j]
    ensures i == |steps| ==> StepsAfterDept(steps, d) == []
    ensures i < |steps| ==>
              var left := steps[i].departments[j+1..];
              StepsAfterDept(steps, d) == (if left == [] then [] else [Sequential(left)]) + steps[i+1..]
  {
    if i > 0 {
      assert forall k | 0 <= k < i - 1 :: steps[1..][k] == steps[k+1];
      CutsAtTheFirstPlace(steps[1..], d, i - 1, j);
    } else if i < |steps| {
      var ds := steps[0].departments;
      var first := IndexOf(ds, d);
      assert forall k | 0 <= k < j :: ds[k] in ds[..j];
      assert forall k | 0 <= k < first :: ds[k] in ds[..first];
      assert first == j;
    }
  }

  /** Cutting the branch after its `k`-th department leaves the departments from `k` on. */
  lemma {:induction false} CutAfter(steps: seq<Step>, k: nat)
    requires AllSequential(steps) && Distinct(Flatten(steps)) && 0 < k <= |Flatten(steps)|
    ensures var rest := StepsAfterDept(steps, Flatten(steps)[k-1]);
            AllSequential(rest) && Flatten(rest) == Flatten(steps)[k..]
  {
    var ds, tail := steps[0].departments, Flatten(steps[1..]);
    DistinctParts(ds, tail);
    if k <= |ds| {
      CutWithinFirst(steps, k);
    } else {
      assert ds[..] + tail == Flatten(steps) && Flatten(steps)[k-1] == tail[k-1-|ds|];
      CutAfter(steps[1..], k - |ds|);
      assert (ds + tail)[k..] == tail[k-|ds|..];
    }
  }

  lemma DistinctParts(a: seq<DeptId>, b: seq<DeptId>)
    requires Distinct(a + b)
    ensures Distinct(a) && Distinct(b) && forall j | 0 <= j < |b| :: b[j] !in a
  {
    forall i, j | 0 <= i < j < |a| ensures a[i] != a[j] {
      assert (a + b)[i] == a[i] && (a + b)[j] == a[j];
    }
    forall i, j | 0 <= i < j < |b| ensures b[i] != b[j] {
      assert (a + b)[|a| + i] == b[i] && (a + b)[|a| + j] == b[j];
    }
    forall i, j | 0 <= i < |a| && 0 <= j < |b| ensures a[i] != b[j] {
      assert (a + b)[i] == a[i] && (a + b)[|a| + j] == b[j];
    }
  }

  lemma CutWithinFirst(steps: seq<Step>, k: nat)
    requires AllSequential(steps) && steps != [] && Distinct(steps[0].departments) && 0 < k <= |steps[0].departments|
    ensures var rest := StepsAfterDept(steps, steps[0].departments[k-1]);
            AllSequential(rest) && Flatten(rest) == Flatten(steps)[k..]
  {
    var ds, tail := steps[0].departments, Flatten(steps[1..]);
    assert IndexOf(ds, ds[k-1]) == k - 1;
    var rest := ds[k..];
    assert (ds + tail)[k..] == rest + tail;
    if rest == [] {
      assert [] + steps[1..] == steps[1..] && rest + tail == tail;
    } else {
      var cut := [Sequential(rest)] + steps[1..];
      assert cut[0] == Sequential(rest) && cut[1..] == steps[1..];
      assert AllSequential(cut);
    }
  }

  /** One respawn of a branch that had completed its first departments, up to and including the node it reports when it settles. */
  method RespawnBranch(plan: CompiledPlan, fb: FailedBranch, fails: Fate, ghost before: seq<DeptId>)
    returns (node: NodeKey, ok: bool, completed: seq<DeptId>)
    requires AllSequential(fb.steps) && Resumable(plan, Flatten(fb.steps))
    requires before <= Flatten(fb.steps) && before != Flatten(fb.steps)
    requires AllDefined(plan, before)
    requires fb.lastCompletedNode == NodeAfter(plan, before)
    ensures completed == Passing(plan, Flatten(fb.steps)[|before|..], fails) && before + completed <= Flatten(fb.steps)
    ensures ok <==> before + completed == Flatten(fb.steps)
    ensures node == NodeAfter(plan, before + completed)
  {
    SavedNode(plan, Flatten(fb.steps), before);
    if fb.lastCompletedNode == "" {
      assert Flatten(fb.steps)[0..] == Flatten(fb.steps);
      node, ok, completed := RunStepList(plan, fb.steps, fails);
      assert before + completed == completed;
      return;
    }
    node, ok, completed := ResumeBranch(plan, fb, fails, before);
  }

  /** What is left of the saved department: nothing, as its last stage is the one saved. */
  method FinishSavedDepartment(plan: CompiledPlan, ghost flat: seq<DeptId>, saved: NodeKey, fails: Fate, ghost before: seq<DeptId>)
    returns (node: NodeKey)
    requires Resumable(plan, flat) && before <= flat && before != []
    requires AllDefined(plan, before)
    requires saved == NodeAfter(plan, before)
    ensures node == "" && saved != "" && DeptFromNodeKey(saved) == flat[|before|-1]
  {
    SavedNode(plan, flat, before);
    var resumeDept := DeptFromNodeKey(saved);
    var dept := FindDepartment(plan, resumeDept).value;
    IndexAfterLast(resumeDept, dept.stages, 0);
    var done;
    node, done := RunDepartmentFrom(plan, resumeDept, StageIndexAfter(dept, saved), fails);
  }

  /** A respawn after a saved node: the rest of its department, which is nothing, then the departments after it. */
  method ResumeBranch(plan: CompiledPlan, fb: FailedBranch, fails: Fate, ghost before: seq<DeptId>)
    returns (node: NodeKey, ok: bool, completed: seq<DeptId>)
    requires AllSequential(fb.steps) && Resumable(plan, Flatten(fb.steps))
    requires before <= Flatten(fb.steps) && before != Flatten(fb.steps) && before != []
    requires AllDefined(plan, before)
    requires fb.lastCompletedNode == NodeAfter(plan, before)
    ensures completed == Passing(plan, Flatten(fb.steps)[|before|..], fails) && before + completed <= Flatten(fb.steps)
    ensures ok <==> before + completed == Flatten(fb.steps)
    ensures node == NodeAfter(plan, before + completed)
  {
    node := FinishSavedDepartment(plan, Flatten(fb.steps), fb.lastCompletedNode, fails, before);
    var resumeDept := DeptFromNodeKey(fb.lastCompletedNode);
    CutAfter(fb.steps, |before|);
    var rest := StepsAfterDept(fb.steps, resumeDept);
    var last;
    last, ok, completed := RunStepList(plan, rest, fails);
    if last != "" {
      node := last;
    }
    if !ok && node == "" {
      node := fb.lastCompletedNode;
    }
    AfterResume(plan, Flatten(fb.steps), before, fails);
  }

  /** What a respawn adds to the departments completed before, and the node this leaves: a new one if it adds any. */
  lemma AfterResume(plan: CompiledPlan, flat: seq<DeptId>, before: seq<DeptId>, fails: Fate)
    requires Resumable(plan, flat) && before <= flat
    ensures var done := Passing(plan, flat[|before|..], fails);
      && before + done <= flat && (before + done == flat <==> done == flat[|before|..])
      && NodeAfter(plan, before + done) == (if done == [] then NodeAfter(plan, before) else NodeAfter(plan, done))
      && (done != [] ==> NodeAfter(plan, done) != "")
  {
    var done := Passing(plan, flat[|before|..], fails);
    PassingIsLongest(plan, flat[|before|..], fails);
    PutTogether(flat, before, done);
    NodeAfterMore(plan, before, done);
    if done != [] {
      var last := done[|done|-1];
      assert last in done && Passes(plan, last, fails);
      NodeOfDefined(plan, flat, last);
    }
  }

  /** The saved node is empty exactly when nothing is completed, and otherwise names the last completed department. */
  lemma SavedNode(plan: CompiledPlan, flat: seq<DeptId>, before: seq<DeptId>)
    requires Resumable(plan, flat) && before <= flat && AllDefined(plan, before)
    ensures NodeAfter(plan, before) == "" <==> before == []
    ensures before != [] ==>
              var d := flat[|before|-1];
              && DeptFromNodeKey(NodeAfter(plan, before)) == d && FindDepartment(plan, d).Some?
              && StagesDistinct(FindDepartment(plan, d).value.stages) && NodeAfter(plan, before) == LastKey(plan, d)
  {
    if before != [] {
      var d := before[|before|-1];
      assert flat[|before|-1] == d;
      NodeOfDefined(plan, flat, d);
    }
  }

  lemma PutTogether(flat: seq<DeptId>, before: seq<DeptId>, completed: seq<DeptId>)
    requires before <= flat && completed <= flat[|before|..]
    ensures before + completed <= flat
    ensures before + completed == flat <==> completed == flat[|before|..]
    ensures forall d | d in completed :: d in flat
  {
    assert flat == before + flat[|before|..];
    forall d | d in completed ensures d in flat {
      var i :| 0 <= i < |completed| && completed[i] == d;
      assert flat[|before| + i] == d;
    }
  }

  /** A completed department leaves the key of its last stage, from which its id can be read back. */
  lemma NodeOfDefined(plan: CompiledPlan, flat: seq<DeptId>, d: DeptId)
    requires Resumable(plan, flat) && d in flat && FindDepartment(plan, d).Some?
    ensures LastKey(plan, d) != "" && DeptFromNodeKey(LastKey(plan, d)) == d
  {
    var stages := FindDepartment(plan, d).value.stages;
    DeptOfKey(d, stages[|stages|-1].id);
  }

  /**
   A branch run once and then forced back after every failure, one attempt per fate: what is completed over all the
   attempts is what the fates let pass, in order and without repetition, and the whole branch exactly when an attempt settled.
   */
  method RunWithForceBacks(plan: CompiledPlan, steps: seq<Step>, fates: seq<Fate>)
    returns (settled: bool, completed: seq<DeptId>)
    requires AllSequential(steps) && Resumable(plan, Flatten(steps)) && fates != []
    ensures completed == Progress(plan, Flatten(steps), fates)
    ensures completed <= Flatten(steps) && Distinct(completed)
    ensures settled <==> completed == Flatten(steps)
  {
    ghost var flat := Flatten(steps);
    var node, ok, done := RunStepList(plan, steps, fates[0]);
    settled, completed := ok, done;
    var i := 1;
    OneMoreAttempt(plan, flat, fates, 0);
    while !settled && i < |fates|
      invariant 1 <= i <= |fates|
      invariant completed == Progress(plan, flat, fates[..i]) && AllDefined(plan, completed)
      invariant settled <==> completed == flat
      invariant !settled ==> node == NodeAfter(plan, completed)
      decreases |fates| - i
    {
      OneMoreAttempt(plan, flat, fates, i);
      node, ok, done := RespawnBranch(plan, FailedBranch(steps, node), fates[i], completed);
      settled, completed := ok, completed + done;
      i := i + 1;
    }
    if settled {
      WholeStaysWhole(plan, flat, fates, i);
    } else {
      assert fates[..i] == fates;
    }
  }

  lemma OneMoreAttempt(plan: CompiledPlan, flat: seq<DeptId>, fates: seq<Fate>, i: nat)
    requires i < |fates| && AllDefined(plan, Progress(plan, flat, fates[..i]))
    ensures var before := Progress(plan, flat, fates[..i]);
      && Progress(plan, flat, fates[..i+1]) == before + Passing(plan, flat[|before|..], fates[i])
      && AllDefined(plan, Progress(plan, flat, fates[..i+1]))
      && (i == 0 ==> before == [] && Progress(plan, flat, fates[..1]) == Passing(plan, flat, fates[0]))
  {
    var before := Progress(plan, flat, fates[..i]);
    assert fates[..i+1][..i] == fates[..i];
    PassingIsLongest(plan, flat[|before|..], fates[i]);
    assert forall d | d in Passing(plan, flat[|before|..], fates[i]) :: Passes(plan, d, fates[i]);
    if i == 0 {
      assert flat[0..] == flat && [] + Passing(plan, flat, fates[0]) == Passing(plan, flat, fates[0]);
    }
  }
}
