/**
 The order in which a redirect searches a plan. Every step list of the plan has an address, the lists are searched in
 the order of their addresses, and a redirect runs the continuation found at the first address that has one.
 */
module SearchOrder {
  import opened Plan
  import opened Redirect
  import opened RedirectSearch
  import opened Wrappers

  // ----- lists at addresses -----

  type Address = seq<nat>

  /** Addresses in the order of a book's sections: a part comes before its own parts, and before the parts after it. */
  predicate Before(a: Address, b: Address) {
    b != [] && (a == [] || a[0] < b[0] || (a[0] == b[0] && Before(a[1..], b[1..])))
  }

  /** One list, or numbered parts. */
  datatype Place = The(path: seq<Step>) | Each(parts: seq<Place>)

  function ListAt(p: Place, a: Address): Option<seq<Step>>
    decreases |a|
  {
    match p
    case The(path) => if a == [] then Some(path) else None
    case Each(parts) => if a == [] || a[0] >= |parts| then None else ListAt(parts[a[0]], a[1..])
  }

  function Lists(p: Place): seq<seq<Step>>
    decreases p
  {
    match p
    case The(path) => [path]
    case Each(parts) => ListsOf(parts)
  }

  function ListsOf(parts: seq<Place>): seq<seq<Step>>
    decreases parts
  {
    if parts == [] then [] else Lists(parts[0]) + ListsOf(parts[1..])
  }

  /** The lists stand at the addresses, which are in order and are all there are. */
  ghost predicate Enumerates(p: Place, addresses: seq<Address>, lists: seq<seq<Step>>) {
    && |addresses| == |lists|
    && (forall i | 0 <= i < |lists| :: ListAt(p, addresses[i]) == Some(lists[i]))
    && (forall i, j | 0 <= i < j < |lists| :: Before(addresses[i], addresses[j]))
    && (forall a :: ListAt(p, a).Some? ==> a in addresses)
  }

  function Inside(addresses: seq<Address>): (inner: seq<Address>)
    ensures |inner| == |addresses| && forall i | 0 <= i < |inner| :: inner[i] == [0] + addresses[i]
  {
    seq(|addresses|, i requires 0 <= i < |addresses| => [0] + addresses[i])
  }

  function Moved(a: Address): Address {
    if a == [] then [] else [a[0] + 1] + a[1..]
  }

  function AllMoved(addresses: seq<Address>): (moved: seq<Address>)
    ensures |moved| == |addresses| && forall i | 0 <= i < |moved| :: moved[i] == Moved(addresses[i])
  {
    seq(|addresses|, i requires 0 <= i < |addresses| => Moved(addresses[i]))
  }

  lemma FirstPartAt(parts: seq<Place>, a: Address)
    requires parts != []
    ensures ListAt(Each(parts), [0] + a) == ListAt(parts[0], a)
  {
    assert ([0] + a)[1..] == a;
  }

  lemma LaterPartAt(parts: seq<Place>, a: Address)
    requires parts != []
    ensures ListAt(Each(parts), Moved(a)) == ListAt(Each(parts[1..]), a)
  {
    if a != [] {
      assert Moved(a)[1..] == a[1..];
    }
  }

  lemma InsideKeepsOrder(a: Address, b: Address)
    ensures Before([0] + a, [0] + b) <==> Before(a, b)
  {
    assert ([0] + a)[1..] == a && ([0] + b)[1..] == b;
  }

  lemma MovedKeepsOrder(a: Address, b: Address)
    requires a != [] && b != []
    ensures Before(Moved(a), Moved(b)) <==> Before(a, b)
    ensures forall c :: Before([0] + c, Moved(b))
  {
    assert Moved(a)[1..] == a[1..] && Moved(b)[1..] == b[1..];
  }

  lemma PartsStandAt(parts: seq<Place>, first: seq<Address>, later: seq<Address>, i: nat)
    requires parts != [] && Enumerates(parts[0], first, Lists(parts[0])) && Enumerates(Each(parts[1..]), later, ListsOf(parts[1..]))
    requires i < |first| + |later|
    ensures |ListsOf(parts)| == |first| + |later|
    ensures ListAt(Each(parts), (Inside(first) + AllMoved(later))[i]) == Some(ListsOf(parts)[i])
  {
    var n, inner, rest := |first|, Lists(parts[0]), ListsOf(parts[1..]);
    assert ListsOf(parts) == inner + rest;
    if i < n {
      assert (Inside(first) + AllMoved(later))[i] == [0] + first[i] && (inner + rest)[i] == inner[i];
      FirstPartAt(parts, first[i]);
    } else {
      assert (Inside(first) + AllMoved(later))[i] == Moved(later[i-n]) && (inner + rest)[i] == rest[i-n];
      LaterPartAt(parts, later[i-n]);
    }
  }

  lemma PartsAreOrdered(first: seq<Address>, later: seq<Address>, i: nat, j: nat)
    requires forall k, l | 0 <= k < l < |first| :: Before(first[k], first[l])
    requires forall k, l | 0 <= k < l < |later| :: Before(later[k], later[l])
    requires forall k | 0 <= k < |later| :: later[k] != []
    requires i < j < |first| + |later|
    ensures Before((Inside(first) + AllMoved(later))[i], (Inside(first) + AllMoved(later))[j])
  {
    var n := |first|;
    if j < n {
      InsideKeepsOrder(first[i], first[j]);
    } else {
      MovedKeepsOrder(later[if i < n then j - n else i - n], later[j-n]);
    }
  }

  /** The first part's lists, then those of the parts after it. */
  lemma PartsInOrder(parts: seq<Place>, first: seq<Address>, later: seq<Address>)
    requires parts != [] && Enumerates(parts[0], first, Lists(parts[0])) && Enumerates(Each(parts[1..]), later, ListsOf(parts[1..]))
    ensures Enumerates(Each(parts), Inside(first) + AllMoved(later), ListsOf(parts))
  {
    var addresses := Inside(first) + AllMoved(later);
    forall i | 0 <= i < |addresses| ensures ListAt(Each(parts), addresses[i]) == Some(ListsOf(parts)[i]) {
      PartsStandAt(parts, first, later, i);
    }
    forall i, j | 0 <= i < j < |addresses| ensures Before(addresses[i], addresses[j]) {
      PartsAreOrdered(first, later, i, j);
    }
    forall a | ListAt(Each(parts), a).Some? ensures a in addresses {
      PartsMissNone(parts, first, later, a);
    }
  }

  lemma PartsMissNone(parts: seq<Place>, first: seq<Address>, later: seq<Address>, a: Address)
    requires parts != [] && Enumerates(parts[0], first, Lists(parts[0])) && Enumerates(Each(parts[1..]), later, ListsOf(parts[1..]))
    requires ListAt(Each(parts), a).Some?
    ensures a in Inside(first) + AllMoved(later)
  {
    if a[0] == 0 {
      assert a == [0] + a[1..];
      FirstPartAt(parts, a[1..]);
      var i :| 0 <= i < |first| && first[i] == a[1..];
      assert Inside(first)[i] == a;
    } else {
      var earlier := [a[0] - 1] + a[1..];
      assert Moved(earlier) == a;
      LaterPartAt(parts, earlier);
      var i :| 0 <= i < |later| && later[i] == earlier;
      assert AllMoved(later)[i] == a;
    }
  }

  /** The lists of a place, taken in order, are those at its addresses, in order. */
  lemma {:induction false} ListsInOrder(p: Place) returns (addresses: seq<Address>)
    ensures Enumerates(p, addresses, Lists(p))
    decreases p
  {
    match p
    case The(path) =>
      addresses := [[]];
      assert [] in addresses;
    case Each(parts) => addresses := AllInOrder(parts);
  }

  lemma {:induction false} AllInOrder(parts: seq<Place>) returns (addresses: seq<Address>)
    ensures Enumerates(Each(parts), addresses, ListsOf(parts))
    decreases parts
  {
    if parts == [] {
      addresses := [];
    } else {
      var first := ListsInOrder(parts[0]);
      var later := AllInOrder(parts[1..]);
      PartsInOrder(parts, first, later);
      addresses := Inside(first) + AllMoved(later);
    }
  }

  // ----- the plan's own lists -----

  /**
   The boundary paths inside a list, step by step. In a sub-workflow: its own error, timer and message paths, then what
   is in its plan, then what is in each of those paths.
   */
  function PathsIn(steps: seq<Step>): Place
    decreases steps
  {
    Each(seq(|steps|, i requires 0 <= i < |steps| => PathsInStep(steps[i])))
  }

  function PathsInStep(step: Step): Place
    decreases step
  {
    match step
    case Sequential(_) => Each([])
    case Parallel(bs) => Each(seq(|bs|, i requires 0 <= i < |bs| => PathsIn(bs[i].steps)))
    case Exclusive(cs) => Each(seq(|cs|, i requires 0 <= i < |cs| => PathsIn(cs[i].steps)))
    case SubWorkflow(steps, errorPaths, timerPaths, messagePaths) =>
      Each([
        Each([OwnPaths(errorPaths), OwnPaths(timerPaths), OwnPaths(messagePaths)]),
        PathsIn(steps),
        Each([PathsInEach(errorPaths), PathsInEach(timerPaths), PathsInEach(messagePaths)])])
  }

  function OwnPaths(paths: seq<BoundaryPath>): Place {
    Each(seq(|paths|, i requires 0 <= i < |paths| => The(paths[i].steps)))
  }

  function PathsInEach(paths: seq<BoundaryPath>): Place
    decreases paths
  {
    Each(seq(|paths|, i requires 0 <= i < |paths| => PathsIn(paths[i].steps)))
  }

  /** A stage's boundary path, then the boundary paths inside it. */
  function WithInner(path: Option<seq<Step>>): Place {
    match path
    case Some(steps) => Each([The(steps), PathsIn(steps)])
    case None => Each([])
  }

  function StagePlace(stage: Stage): Place {
    Each([WithInner(stage.timerPath), WithInner(stage.messagePath)])
  }

  function DepartmentPlace(department: Department): Place {
    Each(seq(|department.stages|, i requires 0 <= i < |department.stages| => StagePlace(department.stages[i])))
  }

  function DepartmentPlaces(departments: seq<Department>): Place {
    Each(seq(|departments|, i requires 0 <= i < |departments| => DepartmentPlace(departments[i])))
  }

  /** Part 0 is the main list, part 1 the boundary paths inside it, part 2 the departments' stages, timer before message. */
  function PlanLists(plan: CompiledPlan): Place {
    Each([The(plan.steps), PathsIn(plan.steps), DepartmentPlaces(plan.departments)])
  }

  // ----- the search takes them in order -----

  lemma TwoParts(p: Place, q: Place)
    ensures ListsOf([p, q]) == Lists(p) + Lists(q)
  {
    var last := [q];
    assert last[0] == q && last[1..] == [] && Lists(q) + [] == Lists(q);
    assert ListsOf(last) == Lists(q);
    assert [p, q][0] == p && [p, q][1..] == last;
  }

  lemma ThreeParts(p: Place, q: Place, r: Place)
    ensures ListsOf([p, q, r]) == Lists(p) + Lists(q) + Lists(r)
  {
    assert [p, q, r][1..] == [q, r];
    TwoParts(q, r);
    assert Lists(p) + (Lists(q) + Lists(r)) == Lists(p) + Lists(q) + Lists(r);
  }

  lemma {:induction false} CallPathsInOrder(steps: seq<Step>)
    ensures Lists(PathsIn(steps)) == CallPaths(steps)
    decreases steps
  {
    if steps != [] {
      StepPathsInOrder(steps[0]);
      CallPathsInOrder(steps[1..]);
      assert PathsIn(steps).parts[1..] == PathsIn(steps[1..]).parts;
    }
  }

  lemma {:induction false} StepPathsInOrder(step: Step)
    ensures Lists(PathsInStep(step)) == StepCallPaths(step)
    decreases step
  {
    match step
    case Sequential(_) =>
    case Parallel(bs) => BranchPathsInOrder(bs);
    case Exclusive(cs) => ChoicePathsInOrder(cs);
    case SubWorkflow(steps, errorPaths, timerPaths, messagePaths) =>
      CallPathsInOrder(steps);
      EachPathsInOrder(errorPaths);
      EachPathsInOrder(timerPaths);
      EachPathsInOrder(messagePaths);
      OwnPathsInOrder(errorPaths);
      OwnPathsInOrder(timerPaths);
      OwnPathsInOrder(messagePaths);
      ThreeParts(OwnPaths(errorPaths), OwnPaths(timerPaths), OwnPaths(messagePaths));
      ThreeParts(PathsInEach(errorPaths), PathsInEach(timerPaths), PathsInEach(messagePaths));
      ThreeParts(Each([OwnPaths(errorPaths), OwnPaths(timerPaths), OwnPaths(messagePaths)]), PathsIn(steps),
                 Each([PathsInEach(errorPaths), PathsInEach(timerPaths), PathsInEach(messagePaths)]));
  }

  lemma {:induction false} BranchPathsInOrder(bs: seq<ParallelBranch>)
    ensures Lists(PathsInStep(Parallel(bs))) == BranchCallPaths(bs)
    decreases bs
  {
    if bs != [] {
      CallPathsInOrder(bs[0].steps);
      BranchPathsInOrder(bs[1..]);
      assert PathsInStep(Parallel(bs)).parts[1..] == PathsInStep(Parallel(bs[1..])).parts;
    }
  }

  lemma {:induction false} ChoicePathsInOrder(cs: seq<ExclusiveBranch>)
    ensures Lists(PathsInStep(Exclusive(cs))) == ChoiceCallPaths(cs)
    decreases cs
  {
    if cs != [] {
      CallPathsInOrder(cs[0].steps);
      ChoicePathsInOrder(cs[1..]);
      assert PathsInStep(Exclusive(cs)).parts[1..] == PathsInStep(Exclusive(cs[1..])).parts;
    }
  }

  lemma {:induction false} EachPathsInOrder(paths: seq<BoundaryPath>)
    ensures Lists(PathsInEach(paths)) == EachCallPaths(paths)
    decreases paths
  {
    if paths != [] {
      CallPathsInOrder(paths[0].steps);
      EachPathsInOrder(paths[1..]);
      assert PathsInEach(paths).parts[1..] == PathsInEach(paths[1..]).parts;
    }
  }

  lemma {:induction false} OwnPathsInOrder(paths: seq<BoundaryPath>)
    ensures Lists(OwnPaths(paths)) == StepsOf(paths)
  {
    if paths != [] {
      OwnPathsInOrder(paths[1..]);
      assert OwnPaths(paths).parts[1..] == OwnPaths(paths[1..]).parts;
      assert Lists(OwnPaths(paths).parts[0]) == [paths[0].steps];
      assert StepsOf(paths) == [paths[0].steps] + StepsOf(paths[1..]);
    }
  }

  lemma {:induction false} WithCallPathsJoined(a: seq<seq<Step>>, b: seq<seq<Step>>)
    ensures WithCallPaths(a + b) == WithCallPaths(a) + WithCallPaths(b)
  {
    if a == [] {
      assert a + b == b;
    } else {
      assert (a + b)[0] == a[0] && (a + b)[1..] == a[1..] + b;
      WithCallPathsJoined(a[1..], b);
    }
  }

  lemma WithInnerInOrder(path: Option<seq<Step>>)
    ensures Lists(WithInner(path)) == WithCallPaths(OptionPath(path))
  {
    if path.Some? {
      CallPathsInOrder(path.value);
      TwoParts(The(path.value), PathsIn(path.value));
      assert [path.value][1..] == [];
    }
  }

  lemma {:induction false} StagesInOrder(department: Department)
    ensures Lists(DepartmentPlace(department)) == WithCallPaths(StagePaths(department.stages))
    decreases |department.stages|
  {
    var stages := department.stages;
    if stages != [] {
      var timer, message := OptionPath(stages[0].timerPath), OptionPath(stages[0].messagePath);
      WithInnerInOrder(stages[0].timerPath);
      WithInnerInOrder(stages[0].messagePath);
      TwoParts(WithInner(stages[0].timerPath), WithInner(stages[0].messagePath));
      StagesInOrder(department.(stages := stages[1..]));
      assert DepartmentPlace(department).parts[1..] == DepartmentPlace(department.(stages := stages[1..])).parts;
      assert Lists(DepartmentPlace(department).parts[0]) == Lists(StagePlace(stages[0])) == WithCallPaths(timer) + WithCallPaths(message);
      WithCallPathsJoined(timer, message);
      WithCallPathsJoined(timer + message, StagePaths(stages[1..]));
    }
  }

  lemma {:induction false} DepartmentsInOrder(departments: seq<Department>)
    ensures Lists(DepartmentPlaces(departments)) == WithCallPaths(DepartmentPaths(departments))
  {
    if departments != [] {
      StagesInOrder(departments[0]);
      DepartmentsInOrder(departments[1..]);
      assert DepartmentPlaces(departments).parts[1..] == DepartmentPlaces(departments[1..]).parts;
      WithCallPathsJoined(StagePaths(departments[0].stages), DepartmentPaths(departments[1..]));
    }
  }

  /** The lists a redirect searches are the plan's lists in the order of their addresses. */
  lemma SearchedInOrder(plan: CompiledPlan) returns (addresses: seq<Address>)
    ensures Enumerates(PlanLists(plan), addresses, [plan.steps] + BoundaryPaths(plan))
  {
    CallPathsInOrder(plan.steps);
    DepartmentsInOrder(plan.departments);
    ThreeParts(The(plan.steps), PathsIn(plan.steps), DepartmentPlaces(plan.departments));
    assert [plan.steps] + CallPaths(plan.steps) + WithCallPaths(DepartmentPaths(plan.departments))
        == [plan.steps] + BoundaryPaths(plan);
    addresses := ListsInOrder(PlanLists(plan));
  }

  /** The list at the address names `d`, and no list at an earlier address does. */
  ghost predicate FirstNamedAt(plan: CompiledPlan, d: DeptId, a: Address) {
    && ListAt(PlanLists(plan), a).Some? && FoundIn(ListAt(PlanLists(plan), a).value, d)
    && forall b | Before(b, a) && ListAt(PlanLists(plan), b).Some? :: !FoundIn(ListAt(PlanLists(plan), b).value, d)
  }

  lemma {:induction false} BeforeIsStrict(a: Address, b: Address)
    ensures !(Before(a, b) && Before(b, a)) && !Before(a, a)
    decreases |a|
  {
    if a != [] && b != [] {
      BeforeIsStrict(a[1..], b[1..]);
    }
    if a != [] {
      BeforeIsStrict(a[1..], a[1..]);
    }
  }

  /**
   What a redirect runs: the continuation in the list at the first address whose list names the department, or, if the
   plan names it nowhere, the department alone.
   */
  lemma RedirectRunsTheFirstNamed(plan: CompiledPlan, d: DeptId)
    ensures !NamedInPlan(plan, d) ==> RedirectSteps(plan, d) == [Sequential([d])]
    ensures NamedInPlan(plan, d) ==>
              exists a :: FirstNamedAt(plan, d, a)
                     && FindRedirectTarget(ListAt(PlanLists(plan), a).value, d) == Some(RedirectSteps(plan, d))
  {
    var lists := [plan.steps] + BoundaryPaths(plan);
    FallbackExactlyWhenUnnamed(plan, d);
    if NamedInPlan(plan, d) {
      var i := FirstSearched(plan, d);
      var addresses := SearchedInOrder(plan);
      forall b | Before(b, addresses[i]) && ListAt(PlanLists(plan), b).Some?
        ensures !FoundIn(ListAt(PlanLists(plan), b).value, d)
      {
        var j :| 0 <= j < |addresses| && addresses[j] == b;
        BeforeIsStrict(addresses[i], b);
        assert j < i;
      }
      assert FirstNamedAt(plan, d, addresses[i]);
    }
  }

  lemma FirstSearched(plan: CompiledPlan, d: DeptId) returns (i: nat)
    requires RedirectWithinPlan(plan, d).Some?
    ensures var lists := [plan.steps] + BoundaryPaths(plan);
      FoundFirstIn(lists, d, i) && FindRedirectTarget(lists[i], d) == RedirectWithinPlan(plan, d)
  {
    var lists := [plan.steps] + BoundaryPaths(plan);
    if FindRedirectTarget(plan.steps, d).Some? {
      i := 0;
    } else {
      var k := FirstFoundIsFirst(BoundaryPaths(plan), d);
      assert forall j | 0 < j <= k + 1 :: lists[j] == BoundaryPaths(plan)[j-1];
      i := k + 1;
    }
  }
}
