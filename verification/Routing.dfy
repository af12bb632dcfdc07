/**
 Which open gateway, and which of its branches, a force-forward applies to.
 */
module Routing {
  import opened Plan
  import opened Redirect
  import opened Wrappers

  // ----- branch keys -----

  /** A branch's key is its place, written in decimal. */
  function Itoa(n: nat): (s: string)
    ensures s != ""
  {
    var digit := [('0' as int + n % 10) as char];
    if n < 10 then digit else Itoa(n / 10) + digit
  }

  lemma {:induction false} ItoaInjective(a: nat, b: nat)
    requires Itoa(a) == Itoa(b)
    ensures a == b
  {
    var s := Itoa(a);
    assert s[|s|-1] == ('0' as int + a % 10) as char == ('0' as int + b % 10) as char;
    assert a % 10 == b % 10;
    if a >= 10 && b >= 10 {
      assert Itoa(a / 10) == s[..|s|-1] == Itoa(b / 10);
      ItoaInjective(a / 10, b / 10);
    }
  }

  /** An open gateway: where its parallel step stands, its branches, and the keys already resolved. */
  datatype Gateway = Gateway(root: nat, address: seq<nat>, branches: seq<ParallelBranch>, resolved: set<string>) {

    function Keys(): (keys: seq<string>)
      ensures |keys| == |branches|
    {
      seq(|branches|, i requires 0 <= i < |branches| => Itoa(i))
    }

    predicate Unresolved(i: nat) {
      i < |branches| && Itoa(i) !in resolved
    }

    /** The place of the first unresolved branch from `i` on whose steps run `d`, its key not being `d`; the branch count if none. */
    function FirstRunning(i: nat, d: DeptId): (k: nat)
      requires i <= |branches|
      ensures i <= k <= |branches|
      ensures k < |branches| ==> Unresolved(k) && StepsRun(branches[k].steps, d)
      ensures forall j | i <= j < k :: !(Unresolved(j) && Itoa(j) != d && StepsRun(branches[j].steps, d))
      decreases |branches| - i
    {
      if i == |branches| then i
      else if Unresolved(i) && Itoa(i) != d && StepsRun(branches[i].steps, d) then i
      else FirstRunning(i + 1, d)
    }

    /** The key of the branch a force-forward to `d` takes, "" if none: a branch keyed `d` first, else one whose steps run `d`. */
    function BranchRunning(d: DeptId): string {
      if d in Keys() && d !in resolved then d
      else
        var k := FirstRunning(0, d);
        if k < |branches| then Itoa(k) else ""
    }

    /** Some unresolved branch runs `d`. */
    ghost predicate RunsNow(d: DeptId) {
      exists i: nat :: Unresolved(i) && StepsRun(branches[i].steps, d)
    }

    /** Some unresolved branch has `d` for its key and does not run it. */
    ghost predicate Misleads(d: DeptId) {
      exists i: nat :: Unresolved(i) && Keys()[i] == d && !StepsRun(branches[i].steps, d)
    }

    /** The pick is an unresolved branch that runs `d`, and is made whenever there is one. */
    ghost predicate PicksRight(d: DeptId) {
      if BranchRunning(d) == "" then !RunsNow(d)
      else exists i: nat :: Unresolved(i) && Keys()[i] == BranchRunning(d) && StepsRun(branches[i].steps, d)
    }
  }

  /** A branch is picked exactly when one runs the target or is keyed by it. */
  lemma SomethingIsPicked(g: Gateway, d: DeptId)
    ensures g.BranchRunning(d) != "" <==> g.RunsNow(d) || g.Misleads(d)
  {
    var k := g.FirstRunning(0, d);
    if d in g.Keys() && d !in g.resolved {
      var i: nat :| i < |g.Keys()| && g.Keys()[i] == d;
      assert g.Unresolved(i) && g.Keys()[i] == d;
    } else if k < |g.branches| {
      assert g.Unresolved(k) && StepsRun(g.branches[k].steps, d);
    }
    forall i: nat | g.Unresolved(i) ensures g.Keys()[i] == Itoa(i) && Itoa(i) in g.Keys() {
    }
  }

  /** The pick runs the target exactly when no unresolved branch is keyed by the target without running it. */
  lemma PicksRightUnlessMisled(g: Gateway, d: DeptId)
    ensures g.PicksRight(d) <==> !g.Misleads(d)
  {
    SomethingIsPicked(g, d);
    if g.Misleads(d) {
      var i: nat :| g.Unresolved(i) && g.Keys()[i] == d && !StepsRun(g.branches[i].steps, d);
      assert d in g.Keys() && d !in g.resolved && g.BranchRunning(d) == d;
      forall k: nat | g.Unresolved(k) && g.Keys()[k] == d ensures k == i {
        ItoaInjective(k, i);
      }
    } else if d in g.Keys() && d !in g.resolved {
      var i: nat :| i < |g.Keys()| && g.Keys()[i] == d;
      assert g.Unresolved(i) && g.Keys()[i] == g.BranchRunning(d);
    } else {
      var k := g.FirstRunning(0, d);
      if k < |g.branches| {
        assert g.Unresolved(k) && g.Keys()[k] == g.BranchRunning(d);
      }
    }
  }

  /** Among several branches that run the target the first unresolved one is picked, unless an unresolved branch is keyed by it. */
  lemma PicksTheFirst(g: Gateway, d: DeptId, i: nat)
    requires g.Unresolved(i) && StepsRun(g.branches[i].steps, d)
    requires forall j | 0 <= j < i :: !(g.Unresolved(j) && StepsRun(g.branches[j].steps, d))
    ensures g.BranchRunning(d) == if exists k: nat :: g.Unresolved(k) && g.Keys()[k] == d then d else g.Keys()[i]
  {
    if k: nat :| g.Unresolved(k) && g.Keys()[k] == d {
      assert d in g.Keys();
    } else {
      assert forall k: nat | k < |g.branches| :: g.Keys()[k] == d ==> !g.Unresolved(k);
      assert g.Keys()[i] == Itoa(i) != d;
    }
  }

  /** An id equal to another branch's key takes that branch, though it does not run the target. */
  lemma NumeralIdTakesTheWrongBranch()
    ensures var g := Gateway(0, [0], [ParallelBranch("a", [Sequential(["a"])]), ParallelBranch("b", [Sequential(["0"])])], {});
            g.RunsNow("0") && g.BranchRunning("0") == Itoa(0) && !StepsRun(g.branches[0].steps, "0") && !g.PicksRight("0")
  {
    var second := [Sequential(["0"])];
    var g := Gateway(0, [0], [ParallelBranch("a", [Sequential(["a"])]), ParallelBranch("b", second)], {});
    assert Itoa(0) == "0";
    assert g.Keys()[0] == "0";
    assert StepRunsDept(second[0], "0") && StepsRun(second, "0");
    assert g.Unresolved(1) && g.branches[1].steps == second;
    var first := [Sequential(["a"])];
    assert first[1..] == [] && !StepsRun(first, "0");
    assert g.Unresolved(0) && g.branches[0].steps == first;
    PicksRightUnlessMisled(g, "0");
  }

  // ----- the owner of a force-forward -----

  /** The latest opened gateway with an unresolved branch running `d`, searched from the end. */
  function InnermostGatewayRunning(gateways: seq<Gateway>, d: DeptId): Option<nat>
  {
    if gateways == [] then None
    else if gateways[|gateways|-1].BranchRunning(d) != "" then Some(|gateways| - 1)
    else InnermostGatewayRunning(gateways[..|gateways|-1], d)
  }

  lemma {:induction false} InnermostIsLastPicking(gateways: seq<Gateway>, d: DeptId)
    ensures match InnermostGatewayRunning(gateways, d)
            case Some(i) => i < |gateways| && gateways[i].BranchRunning(d) != ""
                            && forall j | i < j < |gateways| :: gateways[j].BranchRunning(d) == ""
            case None => forall j | 0 <= j < |gateways| :: gateways[j].BranchRunning(d) == ""
  {
    if gateways != [] {
      var init := gateways[..|gateways|-1];
      InnermostIsLastPicking(init, d);
      assert forall j | 0 <= j < |init| :: gateways[j] == init[j];
    }
  }

  /** Every gateway with a misleading key has a later one that runs `d`. */
  ghost predicate Unmisled(gateways: seq<Gateway>, d: DeptId) {
    forall j | 0 <= j < |gateways| && gateways[j].Misleads(d) :: exists i :: j < i < |gateways| && gateways[i].RunsNow(d)
  }

  /** The owner is the last gateway that runs `d`, and picks a branch that does; there is none only if none runs `d`. */
  ghost predicate OwnerIsLast(gateways: seq<Gateway>, d: DeptId) {
    match InnermostGatewayRunning(gateways, d)
    case Some(i) =>
      && i < |gateways| && gateways[i].RunsNow(d) && gateways[i].PicksRight(d)
      && forall j | i < j < |gateways| :: !gateways[j].RunsNow(d)
    case None => forall j | 0 <= j < |gateways| :: !gateways[j].RunsNow(d)
  }

  lemma UnmisledFindsTheLast(gateways: seq<Gateway>, d: DeptId)
    requires Unmisled(gateways, d)
    ensures OwnerIsLast(gateways, d)
  {
    InnermostIsLastPicking(gateways, d);
    forall j | 0 <= j < |gateways| ensures gateways[j].RunsNow(d) ==> gateways[j].BranchRunning(d) != "" {
      SomethingIsPicked(gateways[j], d);
    }
    var owner := InnermostGatewayRunning(gateways, d);
    if owner.Some? {
      SomethingIsPicked(gateways[owner.value], d);
      PicksRightUnlessMisled(gateways[owner.value], d);
    }
  }

  lemma LastIsFoundUnmisled(gateways: seq<Gateway>, d: DeptId)
    requires OwnerIsLast(gateways, d)
    ensures Unmisled(gateways, d)
  {
    InnermostIsLastPicking(gateways, d);
    var owner := InnermostGatewayRunning(gateways, d);
    forall j | 0 <= j < |gateways| && gateways[j].Misleads(d) ensures exists i :: j < i < |gateways| && gateways[i].RunsNow(d) {
      SomethingIsPicked(gateways[j], d);
      PicksRightUnlessMisled(gateways[j], d);
      assert owner.Some? && j < owner.value && gateways[owner.value].RunsNow(d);
    }
  }

  /** The search finds the right gateway and branch exactly when no misleading key stands behind the last gateway that runs `d`. */
  lemma InnermostIsLast(gateways: seq<Gateway>, d: DeptId)
    ensures OwnerIsLast(gateways, d) <==> Unmisled(gateways, d)
  {
    if Unmisled(gateways, d) {
      UnmisledFindsTheLast(gateways, d);
    }
    if OwnerIsLast(gateways, d) {
      LastIsFoundUnmisled(gateways, d);
    }
  }

  // ----- addresses in the plan -----

  /** The step list inside a step that child number `j` runs. */
  function Child(step: Step, j: nat): Option<seq<Step>> {
    match step
    case Sequential(_) => None
    case Parallel(bs) => if j < |bs| then Some(bs[j].steps) else None
    case Exclusive(cs) => if j < |cs| then Some(cs[j].steps) else None
    case SubWorkflow(steps, _, _, _) => if j == 0 then Some(steps) else None
  }

  /** The step at an address: step index, child number, step index, and so on, ending with a step index. */
  function StepAt(steps: seq<Step>, address: seq<nat>): Option<Step>
    decreases |address|
  {
    if address == [] || address[0] >= |steps| then None
    else if |address| == 1 then Some(steps[address[0]])
    else
      match Child(steps[address[0]], address[1])
      case Some(list) => StepAt(list, address[2..])
      case None => None
  }

  /** A sequential step that runs `d` stands at the address. */
  predicate RunsAt(steps: seq<Step>, d: DeptId, address: seq<nat>) {
    match StepAt(steps, address)
    case Some(step) => step.Sequential? && d in step.departments
    case None => false
  }

  /** Inside the step: the address starts with a child number. */
  predicate RunsInside(step: Step, d: DeptId, address: seq<nat>) {
    address != [] && Child(step, address[0]).Some? && RunsAt(Child(step, address[0]).value, d, address[1..])
  }

  lemma RunsAtFirst(steps: seq<Step>, d: DeptId, address: seq<nat>)
    requires steps != [] && address != [] && address[0] == 0
    ensures RunsAt(steps, d, address) <==>
              if |address| == 1 then steps[0].Sequential? && d in steps[0].departments else RunsInside(steps[0], d, address[1..])
  {
    if |address| > 1 {
      assert address[1..][1..] == address[2..];
    }
  }

  lemma RunsAtLater(steps: seq<Step>, d: DeptId, address: seq<nat>)
    requires steps != [] && address != []
    ensures RunsAt(steps, d, [address[0] + 1] + address[1..]) <==> RunsAt(steps[1..], d, address)
  {
    var shifted := [address[0] + 1] + address[1..];
    if |address| > 1 {
      assert shifted[1] == address[1] && shifted[2..] == address[2..];
    }
  }

  /**
   A department is run by a list exactly when some address inside it, down through gateways and sub-workflow plans,
   leads to a sequential step with that department.
   */
  lemma {:induction false} RunsExactlyAtAnAddress(steps: seq<Step>, d: DeptId)
    ensures StepsRun(steps, d) <==> exists address :: RunsAt(steps, d, address)
    decreases steps
  {
    if steps != [] {
      StepRunsExactlyInside(steps[0], d);
      RunsExactlyAtAnAddress(steps[1..], d);
      if steps[0].Sequential? && StepRunsDept(steps[0], d) {
        assert RunsAt(steps, d, [0]);
      } else if address :| RunsInside(steps[0], d, address) {
        assert ([0] + address)[1..] == address;
        RunsAtFirst(steps, d, [0] + address);
        assert RunsAt(steps, d, [0] + address);
      }
      if address :| RunsAt(steps[1..], d, address) {
        RunsAtLater(steps, d, address);
        assert RunsAt(steps, d, [address[0] + 1] + address[1..]);
      }
      if address :| RunsAt(steps, d, address) {
        if address[0] == 0 {
          RunsAtFirst(steps, d, address);
        } else {
          var earlier := [address[0] - 1] + address[1..];
          assert [earlier[0] + 1] + earlier[1..] == address;
          RunsAtLater(steps, d, earlier);
        }
      }
    }
  }

  lemma {:induction false} StepRunsExactlyInside(step: Step, d: DeptId)
    ensures StepRunsDept(step, d) <==> (step.Sequential? && d in step.departments) || exists address :: RunsInside(step, d, address)
    decreases step
  {
    forall j: nat | Child(step, j).Some?
      ensures StepsRun(Child(step, j).value, d) <==> exists address :: RunsAt(Child(step, j).value, d, address)
    {
      RunsExactlyAtAnAddress(Child(step, j).value, d);
    }
    InsideIsInAChild(step, d);
    match step
    case Sequential(_) =>
    case Parallel(bs) => BranchesRunSomewhere(bs, d);
    case Exclusive(cs) => ChoicesRunSomewhere(cs, d);
    case SubWorkflow(steps, _, _, _) => assert ChildRuns(step, d, 0) <==> StepsRun(steps, d);
  }

  predicate ChildRuns(step: Step, d: DeptId, j: nat) {
    Child(step, j).Some? && StepsRun(Child(step, j).value, d)
  }

  lemma InsideIsInAChild(step: Step, d: DeptId)
    requires forall j: nat | Child(step, j).Some? ::
               StepsRun(Child(step, j).value, d) <==> exists address :: RunsAt(Child(step, j).value, d, address)
    ensures (exists address :: RunsInside(step, d, address)) <==> exists j: nat :: ChildRuns(step, d, j)
  {
    if address :| RunsInside(step, d, address) {
      assert ChildRuns(step, d, address[0]);
    }
    if j: nat :| ChildRuns(step, d, j) {
      var address :| RunsAt(Child(step, j).value, d, address);
      assert ([j] + address)[1..] == address;
      assert RunsInside(step, d, [j] + address);
    }
  }

  lemma {:induction false} BranchesRunSomewhere(bs: seq<ParallelBranch>, d: DeptId)
    ensures BranchesRun(bs, d) <==> exists j: nat :: ChildRuns(Parallel(bs), d, j)
  {
    if bs != [] {
      BranchesRunSomewhere(bs[1..], d);
      if j: nat :| ChildRuns(Parallel(bs), d, j) {
        assert j > 0 ==> ChildRuns(Parallel(bs[1..]), d, j - 1);
      }
      if j: nat :| ChildRuns(Parallel(bs[1..]), d, j) {
        assert ChildRuns(Parallel(bs), d, j + 1);
      }
      assert StepsRun(bs[0].steps, d) ==> ChildRuns(Parallel(bs), d, 0);
    }
  }

  lemma {:induction false} ChoicesRunSomewhere(cs: seq<ExclusiveBranch>, d: DeptId)
    ensures ChoicesRun(cs, d) <==> exists j: nat :: ChildRuns(Exclusive(cs), d, j)
  {
    if cs != [] {
      ChoicesRunSomewhere(cs[1..], d);
      if j: nat :| ChildRuns(Exclusive(cs), d, j) {
        assert j > 0 ==> ChildRuns(Exclusive(cs[1..]), d, j - 1);
      }
      if j: nat :| ChildRuns(Exclusive(cs[1..]), d, j) {
        assert ChildRuns(Exclusive(cs), d, j + 1);
      }
      assert StepsRun(cs[0].steps, d) ==> ChildRuns(Exclusive(cs), d, 0);
    }
  }

  lemma {:induction false} StepPlacesAt(steps: seq<Step>, i: nat, d: DeptId)
    requires i < |steps|
    ensures Places(steps, d) >= StepPlaces(steps[i], d)
  {
    if i > 0 {
      StepPlacesAt(steps[1..], i - 1, d);
    }
  }

  lemma {:induction false} TwoStepPlaces(steps: seq<Step>, i: nat, j: nat, d: DeptId)
    requires i < j < |steps|
    ensures Places(steps, d) >= StepPlaces(steps[i], d) + StepPlaces(steps[j], d)
  {
    if i > 0 {
      TwoStepPlaces(steps[1..], i - 1, j - 1, d);
    } else {
      StepPlacesAt(steps[1..], j - 1, d);
    }
  }

  lemma {:induction false} TwoBranchPlaces(bs: seq<ParallelBranch>, i: nat, j: nat, d: DeptId)
    requires i < j < |bs|
    ensures BranchPlaces(bs, d) >= Places(bs[i].steps, d) + Places(bs[j].steps, d)
  {
    if i > 0 {
      TwoBranchPlaces(bs[1..], i - 1, j - 1, d);
    } else {
      BranchMarksAt(bs[1..], Ran(d), j - 1);
    }
  }

  lemma {:induction false} TwoChoicePlaces(cs: seq<ExclusiveBranch>, i: nat, j: nat, d: DeptId)
    requires i < j < |cs|
    ensures ChoicePlaces(cs, d) >= Places(cs[i].steps, d) + Places(cs[j].steps, d)
  {
    if i > 0 {
      TwoChoicePlaces(cs[1..], i - 1, j - 1, d);
    } else {
      ChoiceMarksAt(cs[1..], Ran(d), j - 1);
    }
  }

  lemma ChildPlaces(step: Step, j: nat, d: DeptId)
    requires Child(step, j).Some?
    ensures StepPlaces(step, d) >= Places(Child(step, j).value, d)
  {
    match step
    case Parallel(bs) => BranchMarksAt(bs, Ran(d), j);
    case Exclusive(cs) => ChoiceMarksAt(cs, Ran(d), j);
    case _ =>
  }

  lemma TwoChildPlaces(step: Step, i: nat, j: nat, d: DeptId)
    requires i != j && Child(step, i).Some? && Child(step, j).Some?
    ensures StepPlaces(step, d) >= Places(Child(step, i).value, d) + Places(Child(step, j).value, d)
  {
    var lo, hi := if i < j then i else j, if i < j then j else i;
    match step
    case Parallel(bs) => TwoBranchPlaces(bs, lo, hi, d);
    case Exclusive(cs) => TwoChoicePlaces(cs, lo, hi, d);
    case _ =>
  }

  lemma {:induction false} RunHasPlace(steps: seq<Step>, d: DeptId)
    requires StepsRun(steps, d)
    ensures Places(steps, d) > 0
    decreases steps
  {
    if StepRunsDept(steps[0], d) {
      StepRunHasPlace(steps[0], d);
    } else {
      RunHasPlace(steps[1..], d);
    }
  }

  lemma {:induction false} StepRunHasPlace(step: Step, d: DeptId)
    requires StepRunsDept(step, d)
    ensures StepPlaces(step, d) > 0
    decreases step
  {
    match step
    case Sequential(ds) =>
      var i :| 0 <= i < |ds| && ds[i] == d;
      PresentCounts(ds, d, i);
    case Parallel(bs) => BranchRunHasPlace(bs, d);
    case Exclusive(cs) => ChoiceRunHasPlace(cs, d);
    case SubWorkflow(steps, _, _, _) => RunHasPlace(steps, d);
  }

  lemma {:induction false} BranchRunHasPlace(bs: seq<ParallelBranch>, d: DeptId)
    requires BranchesRun(bs, d)
    ensures BranchPlaces(bs, d) > 0
    decreases bs
  {
    if StepsRun(bs[0].steps, d) {
      RunHasPlace(bs[0].steps, d);
    } else {
      BranchRunHasPlace(bs[1..], d);
    }
  }

  lemma {:induction false} ChoiceRunHasPlace(cs: seq<ExclusiveBranch>, d: DeptId)
    requires ChoicesRun(cs, d)
    ensures ChoicePlaces(cs, d) > 0
    decreases cs
  {
    if StepsRun(cs[0].steps, d) {
      RunHasPlace(cs[0].steps, d);
    } else {
      ChoiceRunHasPlace(cs[1..], d);
    }
  }

  lemma {:induction false} AddressHasPlace(steps: seq<Step>, a: seq<nat>, d: DeptId)
    requires StepAt(steps, a).Some? && StepRunsDept(StepAt(steps, a).value, d)
    ensures StepPlaces(steps[a[0]], d) > 0
    decreases |a|
  {
    if |a| == 1 {
      StepRunHasPlace(steps[a[0]], d);
    } else {
      var list := Child(steps[a[0]], a[1]).value;
      AddressHasPlace(list, a[2..], d);
      StepPlacesAt(list, a[2], d);
      ChildPlaces(steps[a[0]], a[1], d);
    }
  }

  /** Two steps that both run a department with one place are one inside the other. */
  lemma {:induction false} OnePlaceNests(steps: seq<Step>, a: seq<nat>, b: seq<nat>, d: DeptId)
    requires StepAt(steps, a).Some? && StepRunsDept(StepAt(steps, a).value, d)
    requires StepAt(steps, b).Some? && StepRunsDept(StepAt(steps, b).value, d)
    requires Places(steps, d) <= 1
    ensures a <= b || b <= a
    decreases |a|
  {
    AddressHasPlace(steps, a, d);
    AddressHasPlace(steps, b, d);
    if a[0] != b[0] {
      TwoStepPlaces(steps, if a[0] < b[0] then a[0] else b[0], if a[0] < b[0] then b[0] else a[0], d);
      assert false;
    }
    if |a| > 1 && |b| > 1 {
      var step := steps[a[0]];
      var listA, listB := Child(step, a[1]).value, Child(step, b[1]).value;
      AddressHasPlace(listA, a[2..], d);
      AddressHasPlace(listB, b[2..], d);
      StepPlacesAt(listA, a[2], d);
      StepPlacesAt(listB, b[2], d);
      StepPlacesAt(steps, a[0], d);
      if a[1] != b[1] {
        TwoChildPlaces(step, a[1], b[1], d);
        assert false;
      }
      ChildPlaces(step, a[1], d);
      OnePlaceNests(listA, a[2..], b[2..], d);
      assert a == a[..2] + a[2..] && b == b[..2] + b[2..];
      assert a[..2] == b[..2];
    }
  }

  // ----- every run of opening, resolving and closing gateways -----

  /** The step lists gateways can open in: the main steps and the boundary paths. */
  type Roots = seq<seq<Step>>

  datatype GatewayEvent =
    | Open(root: nat, address: seq<nat>)
    | Resolve(index: nat, key: string)
    | Close(index: nat)

  /** `outer` stands around `inner`, or is the same step. */
  predicate Encloses(outer: Gateway, inner: Gateway) {
    outer.root == inner.root && outer.address <= inner.address
  }

  /** A gateway opens at a parallel step when neither that step nor one inside it is open: gateways run to their own join. */
  predicate Allowed(roots: Roots, gateways: seq<Gateway>, e: GatewayEvent) {
    match e
    case Open(root, address) =>
      && root < |roots|
      && StepAt(roots[root], address).Some? && StepAt(roots[root], address).value.Parallel?
      && forall i | 0 <= i < |gateways| :: !Encloses(Gateway(root, address, [], {}), gateways[i])
    case Resolve(index, _) => index < |gateways|
    case Close(index) => index < |gateways|
  }

  function Apply(roots: Roots, gateways: seq<Gateway>, e: GatewayEvent): seq<Gateway>
    requires Allowed(roots, gateways, e)
  {
    match e
    case Open(root, address) => gateways + [Gateway(root, address, StepAt(roots[root], address).value.branches, {})]
    case Resolve(index, key) => gateways[index := gateways[index].(resolved := gateways[index].resolved + {key})]
    case Close(index) => gateways[..index] + gateways[index+1..]
  }

  /** Every list of open gateways reached from none by events that were allowed when they came. */
  ghost predicate Reaches(roots: Roots, events: seq<GatewayEvent>, gateways: seq<Gateway>)
  {
    if events == [] then gateways == []
    else
      var last := |events| - 1;
      exists before :: Reaches(roots, events[..last], before) && Allowed(roots, before, events[last])
                       && gateways == Apply(roots, before, events[last])
  }

  ghost predicate Standing(roots: Roots, g: Gateway) {
    && g.root < |roots|
    && StepAt(roots[g.root], g.address) == Some(Parallel(g.branches))
  }

  /** Every gateway stands in the plan, and none stands inside a later one. */
  ghost predicate Ordered(roots: Roots, gateways: seq<Gateway>) {
    && (forall i | 0 <= i < |gateways| :: Standing(roots, gateways[i]))
    && (forall i, j | 0 <= i < j < |gateways| :: !Encloses(gateways[j], gateways[i]))
  }

  /** A gateway can open at a parallel step exactly while none stands at that step or inside it, and opens with nothing resolved. */
  lemma OpensExactlyWhenFree(roots: Roots, gateways: seq<Gateway>, root: nat, address: seq<nat>)
    ensures Allowed(roots, gateways, Open(root, address)) <==>
              && root < |roots| && StepAt(roots[root], address).Some? && StepAt(roots[root], address).value.Parallel?
              && forall g | g in gateways :: !(g.root == root && address <= g.address)
    ensures Allowed(roots, gateways, Open(root, address)) ==>
              Apply(roots, gateways, Open(root, address)) ==
                gateways + [Gateway(root, address, StepAt(roots[root], address).value.branches, {})]
  {
  }

  /** Resolving a branch of an open gateway takes that branch out and no other, so it is not picked again. */
  lemma ResolvedIsNotPickedAgain(roots: Roots, gateways: seq<Gateway>, index: nat, place: nat, d: DeptId)
    requires index < |gateways| && place < |gateways[index].branches|
    ensures Allowed(roots, gateways, Resolve(index, Itoa(place)))
    ensures var now := Apply(roots, gateways, Resolve(index, Itoa(place)));
      && |now| == |gateways| && (forall k | 0 <= k < |now| && k != index :: now[k] == gateways[k])
      && now[index].branches == gateways[index].branches
      && (forall i: nat :: now[index].Unresolved(i) <==> gateways[index].Unresolved(i) && i != place)
      && now[index].BranchRunning(d) != Itoa(place)
  {
    var now := Apply(roots, gateways, Resolve(index, Itoa(place)));
    forall i: nat | Itoa(i) == Itoa(place) ensures i == place {
      ItoaInjective(i, place);
    }
    var k := now[index].FirstRunning(0, d);
    assert k < |now[index].branches| ==> now[index].Unresolved(k);
  }

  /** A gateway that is over is no longer among the open ones; the others stay in order. */
  lemma ClosedIsGone(roots: Roots, gateways: seq<Gateway>, index: nat)
    requires index < |gateways|
    ensures Allowed(roots, gateways, Close(index))
    ensures var now := Apply(roots, gateways, Close(index));
      |now| == |gateways| - 1 && forall k | 0 <= k < |now| :: now[k] == gateways[if k < index then k else k + 1]
  {
  }

  lemma EventKeepsOrder(roots: Roots, gateways: seq<Gateway>, e: GatewayEvent)
    requires Ordered(roots, gateways) && Allowed(roots, gateways, e)
    ensures Ordered(roots, Apply(roots, gateways, e))
  {
    var now := Apply(roots, gateways, e);
    match e
    case Open(root, address) =>
      forall i, j | 0 <= i < j < |now| ensures !Encloses(now[j], now[i]) {
        assert now[i] == gateways[i];
      }
    case Resolve(index, key) =>
      forall i | 0 <= i < |now| ensures now[i].root == gateways[i].root && now[i].address == gateways[i].address
                                        && now[i].branches == gateways[i].branches {
      }
    case Close(index) =>
      forall i | 0 <= i < |now| ensures now[i] == gateways[if i < index then i else i + 1] {
      }
  }

  lemma {:induction false} OpeningKeepsOrder(roots: Roots, events: seq<GatewayEvent>, gateways: seq<Gateway>)
    requires Reaches(roots, events, gateways)
    ensures Ordered(roots, gateways)
  {
    if events != [] {
      var last := |events| - 1;
      var before :| Reaches(roots, events[..last], before) && Allowed(roots, before, events[last])
                    && gateways == Apply(roots, before, events[last]);
      OpeningKeepsOrder(roots, events[..last], before);
      EventKeepsOrder(roots, before, events[last]);
    }
  }

  /** The department has at most one place in all the lists together. */
  ghost predicate OnePlace(roots: Roots, d: DeptId) {
    && (forall r | 0 <= r < |roots| :: Places(roots[r], d) <= 1)
    && (forall r, s | 0 <= r < s < |roots| :: Places(roots[r], d) == 0 || Places(roots[s], d) == 0)
  }

  lemma {:induction false} BranchOfGatewayRuns(bs: seq<ParallelBranch>, i: nat, d: DeptId)
    requires i < |bs| && StepsRun(bs[i].steps, d)
    ensures BranchesRun(bs, d)
  {
    if i > 0 {
      BranchOfGatewayRuns(bs[1..], i - 1, d);
    }
  }

  /**
   The owner is the deepest gateway with an unresolved branch that runs the target: every other such gateway properly
   encloses it. It picks a branch that runs the target, and there is no owner only if no gateway runs it.
   */
  ghost predicate OwnerIsDeepest(gateways: seq<Gateway>, d: DeptId) {
    match InnermostGatewayRunning(gateways, d)
    case None => forall j | 0 <= j < |gateways| :: !gateways[j].RunsNow(d)
    case Some(i) =>
      && i < |gateways| && gateways[i].RunsNow(d) && gateways[i].PicksRight(d)
      && forall j | 0 <= j < |gateways| && j != i && gateways[j].RunsNow(d) ::
           gateways[j].root == gateways[i].root && gateways[j].address < gateways[i].address
  }

  /**
   However gateways opened, resolved branches and closed, a force-forward goes to the deepest gateway running the
   target, and to a branch running it, exactly when every gateway with a misleading key has a later one running it.
   */
  lemma {:induction false} ForceForwardReachesTheDeepest(roots: Roots, events: seq<GatewayEvent>, gateways: seq<Gateway>, d: DeptId)
    requires Reaches(roots, events, gateways) && OnePlace(roots, d)
    ensures OwnerIsDeepest(gateways, d) <==> Unmisled(gateways, d)
  {
    OpeningKeepsOrder(roots, events, gateways);
    InnermostIsLast(gateways, d);
    var owner := InnermostGatewayRunning(gateways, d);
    if owner.Some? && owner.value < |gateways| && gateways[owner.value].RunsNow(d) {
      var i := owner.value;
      forall j | 0 <= j < |gateways| && j != i && gateways[j].RunsNow(d)
        ensures Encloses(if j < i then gateways[j] else gateways[i], if j < i then gateways[i] else gateways[j])
        ensures j < i ==> |gateways[j].address| < |gateways[i].address|
      {
        RunningNests(roots, gateways[j], gateways[i], d);
        assert j < i ==> !Encloses(gateways[i], gateways[j]);
        assert j > i ==> !Encloses(gateways[j], gateways[i]);
      }
    }
  }

  lemma RunningNests(roots: Roots, g: Gateway, h: Gateway, d: DeptId)
    requires Standing(roots, g) && Standing(roots, h) && g.RunsNow(d) && h.RunsNow(d) && OnePlace(roots, d)
    ensures Encloses(g, h) || Encloses(h, g)
  {
    var k: nat :| g.Unresolved(k) && StepsRun(g.branches[k].steps, d);
    BranchOfGatewayRuns(g.branches, k, d);
    var l: nat :| h.Unresolved(l) && StepsRun(h.branches[l].steps, d);
    BranchOfGatewayRuns(h.branches, l, d);
    AddressHasPlace(roots[g.root], g.address, d);
    AddressHasPlace(roots[h.root], h.address, d);
    StepPlacesAt(roots[g.root], g.address[0], d);
    StepPlacesAt(roots[h.root], h.address[0], d);
    assert g.root == h.root;
    OnePlaceNests(roots[g.root], g.address, h.address, d);
  }
}
