/**
 A parallel gateway from fork to exit: the join with forced routing, and the DEGRADED park that
 follows when a branch failed, with its force-forwards, force-backs and respawned branches.
 */
module ParallelJoin {
  import opened Plan
  import opened NodeKeys
  import R = Redirect
  import opened Routing

  /** Branch records carry the branch's place, which no decision of the gateway reads. */
  datatype CompletedBranch = CompletedBranch(place: nat, deptId: DeptId, lastNode: NodeKey)

  datatype FailedBranch = FailedBranch(place: nat, deptId: DeptId, steps: seq<Step>, lastCompletedNode: NodeKey)

  datatype Signal = Signal(deptId: DeptId, nodeKey: NodeKey)

  /**
   What the gateway receives, in the order it receives it. A branch settles with its last node, with or
   without an error; so does a respawned branch, named by its place among those in flight.
   */
  datatype Event =
    | Settled(place: nat, lastNode: NodeKey, failed: bool)
    | RespawnSettled(index: nat, lastNode: NodeKey, failed: bool)
    | Cancel
    | ParkTerminate
    | ForceForward(sig: Signal)
    | ForceBack(sig: Signal, forkEntryRuns: bool)

  datatype Phase = Joining | Parked | Left(degraded: bool) | Terminated | Broken

  datatype State = State(
    branches: seq<ParallelBranch>,
    resolved: set<string>,
    completed: seq<CompletedBranch>,
    failed: seq<FailedBranch>,
    respawned: seq<FailedBranch>,
    phase: Phase
  )

  function Unresolved(branches: seq<ParallelBranch>, resolved: set<string>): set<nat> {
    set i: nat | i < |branches| && Itoa(i) !in resolved
  }

  function Fork(branches: seq<ParallelBranch>): State {
    AfterJoin(State(branches, {}, [], [], [], Joining))
  }

  /** The join ends with its last unresolved branch: normally if none failed, else in the park. */
  function AfterJoin(s: State): State {
    if Unresolved(s.branches, s.resolved) != {} then s
    else if s.failed == [] then s.(phase := Left(false))
    else s.(phase := Parked)
  }

  /** The park ends when no branch is failed or in flight. */
  function AfterPark(s: State): State {
    if s.failed == [] && s.respawned == [] then s.(phase := Left(true)) else s
  }

  function View(s: State): Gateway {
    Gateway(0, [], s.branches, s.resolved)
  }

  function IndexOfFailedBranch(failed: seq<FailedBranch>, d: DeptId): (i: nat)
    ensures i <= |failed|
    ensures i < |failed| ==> failed[i].deptId == d
    ensures forall j | 0 <= j < i :: failed[j].deptId != d
  {
    if failed == [] || failed[0].deptId == d then 0 else IndexOfFailedBranch(failed[1..], d) + 1
  }

  predicate Concerns(fb: FailedBranch, d: DeptId) {
    StepsRun(fb.steps, d) || DeptFromNodeKey(fb.lastCompletedNode) == d
  }

  function FirstConcerned(failed: seq<FailedBranch>, d: DeptId): (i: nat)
    ensures i <= |failed|
    ensures i < |failed| ==> Concerns(failed[i], d)
    ensures forall j | 0 <= j < i :: !Concerns(failed[j], d)
  {
    if failed == [] || Concerns(failed[0], d) then 0 else FirstConcerned(failed[1..], d) + 1
  }

  /** The failed branch a signal in the park names; the number of failed branches if none. */
  function FailedBranchFor(failed: seq<FailedBranch>, d: DeptId): (i: nat)
    ensures i <= |failed|
  {
    if d == "" && |failed| == 1 then 0
    else
      var i := IndexOfFailedBranch(failed, d);
      if i < |failed| then i else FirstConcerned(failed, d)
  }

  function Remove<T>(s: seq<T>, i: nat): seq<T>
    requires i < |s|
  {
    s[..i] + s[i+1..]
  }

  function JoinStep(s: State, e: Event): State
  {
    match e
    case Settled(place, lastNode, failed) =>
      if place >= |s.branches| || Itoa(place) in s.resolved then s
      else
        var b := s.branches[place];
        var t := s.(resolved := s.resolved + {Itoa(place)});
        AfterJoin(
          if failed then t.(failed := s.failed + [FailedBranch(place, b.deptId, b.steps, lastNode)])
          else t.(completed := s.completed + [CompletedBranch(place, b.deptId, lastNode)]))
    case ForceForward(sig) =>
      var key := View(s).BranchRunning(sig.deptId);
      if key == "" then s
      else
        AfterJoin(s.(resolved := s.resolved + {key},
                     completed := s.completed + [CompletedBranch(R.IndexOf(View(s).Keys(), key), sig.deptId, sig.nodeKey)]))
    case ForceBack(_, forkEntryRuns) => if forkEntryRuns then s else s.(phase := Broken)
    case Cancel => s.(phase := Terminated)
    case ParkTerminate => s
    case RespawnSettled(_, _, _) => s
  }

  function ParkStep(s: State, e: Event): State
  {
    match e
    case Cancel => s.(phase := Terminated)
    case ParkTerminate => s.(phase := Terminated)
    case ForceForward(sig) =>
      var i := FailedBranchFor(s.failed, sig.deptId);
      if i == |s.failed| then s
      else
        var fb := s.failed[i];
        AfterPark(s.(failed := Remove(s.failed, i),
                     completed := s.completed + [CompletedBranch(fb.place, fb.deptId, sig.nodeKey)]))
    case ForceBack(sig, _) =>
      var i := FailedBranchFor(s.failed, sig.deptId);
      if i == |s.failed| then s
      else s.(failed := Remove(s.failed, i), respawned := s.respawned + [s.failed[i]])
    case RespawnSettled(index, lastNode, failed) =>
      if index >= |s.respawned| then s
      else
        var fb := s.respawned[index];
        var t := s.(respawned := Remove(s.respawned, index));
        AfterPark(
          if failed then t.(failed := s.failed + [fb.(lastCompletedNode := lastNode)])
          else t.(completed := s.completed + [CompletedBranch(fb.place, fb.deptId, lastNode)]))
    case Settled(_, _, _) => s
  }

  function Next(s: State, e: Event): State {
    match s.phase
    case Joining => JoinStep(s, e)
    case Parked => ParkStep(s, e)
    case _ => s
  }

  function Run(s: State, events: seq<Event>): State
    decreases |events|
  {
    if events == [] then s else Run(Next(s, events[0]), events[1..])
  }

  // ----- conservation -----

  function CompletedPlaces(bs: seq<CompletedBranch>): multiset<nat> {
    multiset(seq(|bs|, i requires 0 <= i < |bs| => bs[i].place))
  }

  function FailedPlaces(bs: seq<FailedBranch>): multiset<nat> {
    multiset(seq(|bs|, i requires 0 <= i < |bs| => bs[i].place))
  }

  function Open(s: State): multiset<nat> {
    multiset(Unresolved(s.branches, s.resolved))
  }

  /** Where every branch is: unresolved, completed, failed, or in flight after a force-back. */
  function Tally(s: State): multiset<nat> {
    Open(s) + CompletedPlaces(s.completed) + FailedPlaces(s.failed) + FailedPlaces(s.respawned)
  }

  function UpTo(n: nat): (places: set<nat>)
    ensures forall i: nat :: i in places <==> i < n
    ensures |places| == n
  {
    if n == 0 then {} else UpTo(n - 1) + {n - 1}
  }

  function AllPlaces(branches: seq<ParallelBranch>): multiset<nat> {
    multiset(UpTo(|branches|))
  }

  lemma CompletedOneMore(bs: seq<CompletedBranch>, b: CompletedBranch)
    ensures CompletedPlaces(bs + [b]) == CompletedPlaces(bs) + multiset{b.place}
  {
    var places := seq(|bs|, i requires 0 <= i < |bs| => bs[i].place);
    assert seq(|bs + [b]|, i requires 0 <= i < |bs + [b]| => (bs + [b])[i].place) == places + [b.place];
  }

  lemma FailedOneMore(bs: seq<FailedBranch>, b: FailedBranch)
    ensures FailedPlaces(bs + [b]) == FailedPlaces(bs) + multiset{b.place}
  {
    var places := seq(|bs|, i requires 0 <= i < |bs| => bs[i].place);
    assert seq(|bs + [b]|, i requires 0 <= i < |bs + [b]| => (bs + [b])[i].place) == places + [b.place];
  }

  lemma FailedOneLess(bs: seq<FailedBranch>, i: nat)
    requires i < |bs|
    ensures FailedPlaces(Remove(bs, i)) + multiset{bs[i].place} == FailedPlaces(bs)
  {
    var places := seq(|bs|, k requires 0 <= k < |bs| => bs[k].place);
    var less := Remove(bs, i);
    assert seq(|less|, k requires 0 <= k < |less| => less[k].place) == places[..i] + places[i+1..];
    assert places == places[..i] + [places[i]] + places[i+1..];
  }

  lemma ResolvingOne(branches: seq<ParallelBranch>, resolved: set<string>, k: nat)
    requires k < |branches| && Itoa(k) !in resolved
    ensures k in Unresolved(branches, resolved)
    ensures Unresolved(branches, resolved + {Itoa(k)}) == Unresolved(branches, resolved) - {k}
    ensures multiset(Unresolved(branches, resolved + {Itoa(k)})) + multiset{k} == multiset(Unresolved(branches, resolved))
  {
    forall i: nat | i < |branches| && i != k ensures Itoa(i) != Itoa(k) {
      if Itoa(i) == Itoa(k) { ItoaInjective(i, k); }
    }
  }

  /** A key picked by the join is an unresolved branch's own key. */
  lemma PickedKey(g: Gateway, d: DeptId)
    requires g.BranchRunning(d) != ""
    ensures var key := g.BranchRunning(d); var k := R.IndexOf(g.Keys(), key);
            k < |g.branches| && key == Itoa(k) && key !in g.resolved
  {
    var key := g.BranchRunning(d);
    var k := g.FirstRunning(0, d);
    if d !in g.Keys() || d in g.resolved {
      assert g.Keys()[k] == Itoa(k) == key;
    }
    assert key in g.Keys();
  }

  /** No step of the join or the park moves a branch out of the tally or puts it there twice. */
  lemma StepConserves(s: State, e: Event)
    ensures Tally(Next(s, e)) == Tally(s) && Next(s, e).branches == s.branches
  {
    match s.phase
    case Joining => JoinConserves(s, e);
    case Parked => ParkConserves(s, e);
    case _ =>
  }

  /** One place less in one part and one more in another: the sum of all four stays. */
  lemma SumKept(u: multiset<nat>, c: multiset<nat>, f: multiset<nat>, r: multiset<nat>,
                u2: multiset<nat>, c2: multiset<nat>, f2: multiset<nat>, r2: multiset<nat>, x: nat)
    requires
      || (u2 + multiset{x} == u && c2 == c + multiset{x} && f2 == f && r2 == r)
      || (u2 + multiset{x} == u && c2 == c && f2 == f + multiset{x} && r2 == r)
      || (u2 == u && c2 == c + multiset{x} && f2 + multiset{x} == f && r2 == r)
      || (u2 == u && c2 == c && f2 + multiset{x} == f && r2 == r + multiset{x})
      || (u2 == u && c2 == c + multiset{x} && f2 == f && r2 + multiset{x} == r)
      || (u2 == u && c2 == c && f2 == f + multiset{x} && r2 + multiset{x} == r)
    ensures u2 + c2 + f2 + r2 == u + c + f + r
  {
    assert u2 + c2 + f2 + r2 == u + c + f + r by {
      forall y ensures (u2 + c2 + f2 + r2)[y] == (u + c + f + r)[y] {
        assert (u2 + multiset{x})[y] == u2[y] + multiset{x}[y];
        assert (c2 + multiset{x})[y] == c2[y] + multiset{x}[y];
        assert (f2 + multiset{x})[y] == f2[y] + multiset{x}[y];
        assert (r2 + multiset{x})[y] == r2[y] + multiset{x}[y];
      }
    }
  }

  lemma TallyKept(s: State, t: State, x: nat)
    requires
      || (Open(t) + multiset{x} == Open(s) && CompletedPlaces(t.completed) == CompletedPlaces(s.completed) + multiset{x}
          && t.failed == s.failed && t.respawned == s.respawned)
      || (Open(t) + multiset{x} == Open(s) && t.completed == s.completed
          && FailedPlaces(t.failed) == FailedPlaces(s.failed) + multiset{x} && t.respawned == s.respawned)
      || (Open(t) == Open(s) && CompletedPlaces(t.completed) == CompletedPlaces(s.completed) + multiset{x}
          && FailedPlaces(t.failed) + multiset{x} == FailedPlaces(s.failed) && t.respawned == s.respawned)
      || (Open(t) == Open(s) && t.completed == s.completed && FailedPlaces(t.failed) + multiset{x} == FailedPlaces(s.failed)
          && FailedPlaces(t.respawned) == FailedPlaces(s.respawned) + multiset{x})
      || (Open(t) == Open(s) && CompletedPlaces(t.completed) == CompletedPlaces(s.completed) + multiset{x}
          && t.failed == s.failed && FailedPlaces(t.respawned) + multiset{x} == FailedPlaces(s.respawned))
      || (Open(t) == Open(s) && t.completed == s.completed && FailedPlaces(t.failed) == FailedPlaces(s.failed) + multiset{x}
          && FailedPlaces(t.respawned) + multiset{x} == FailedPlaces(s.respawned))
    ensures Tally(t) == Tally(s)
  {
    SumKept(Open(s), CompletedPlaces(s.completed), FailedPlaces(s.failed), FailedPlaces(s.respawned),
            Open(t), CompletedPlaces(t.completed), FailedPlaces(t.failed), FailedPlaces(t.respawned), x);
  }

  lemma PhaseAside(s: State)
    ensures Tally(AfterJoin(s)) == Tally(s) && Tally(AfterPark(s)) == Tally(s)
  {
  }

  lemma JoinConserves(s: State, e: Event)
    ensures Tally(JoinStep(s, e)) == Tally(s) && JoinStep(s, e).branches == s.branches
  {
    match e
    case Settled(place, lastNode, failed) => JoinSettleConserves(s, place, lastNode, failed);
    case ForceForward(sig) => JoinForwardConserves(s, sig);
    case _ =>
  }

  lemma JoinSettleConserves(s: State, place: nat, lastNode: NodeKey, failed: bool)
    ensures Tally(JoinStep(s, Settled(place, lastNode, failed))) == Tally(s)
  {
    if place < |s.branches| && Itoa(place) !in s.resolved {
      var b := s.branches[place];
      ResolvingOne(s.branches, s.resolved, place);
      FailedOneMore(s.failed, FailedBranch(place, b.deptId, b.steps, lastNode));
      CompletedOneMore(s.completed, CompletedBranch(place, b.deptId, lastNode));
      TallyKept(s, JoinStep(s, Settled(place, lastNode, failed)), place);
    }
  }

  lemma JoinForwardConserves(s: State, sig: Signal)
    ensures Tally(JoinStep(s, ForceForward(sig))) == Tally(s)
  {
    var key := View(s).BranchRunning(sig.deptId);
    if key != "" {
      var k := R.IndexOf(View(s).Keys(), key);
      PickedKey(View(s), sig.deptId);
      ResolvingOne(s.branches, s.resolved, k);
      CompletedOneMore(s.completed, CompletedBranch(k, sig.deptId, sig.nodeKey));
      TallyKept(s, JoinStep(s, ForceForward(sig)), k);
    }
  }

  lemma ParkConserves(s: State, e: Event)
    ensures Tally(ParkStep(s, e)) == Tally(s) && ParkStep(s, e).branches == s.branches
  {
    match e
    case ForceForward(sig) => ParkForwardConserves(s, sig);
    case ForceBack(sig, runs) => ParkBackConserves(s, sig, runs);
    case RespawnSettled(index, lastNode, failed) => RespawnConserves(s, index, lastNode, failed);
    case _ =>
  }

  lemma ParkForwardConserves(s: State, sig: Signal)
    ensures Tally(ParkStep(s, ForceForward(sig))) == Tally(s)
  {
    var i := FailedBranchFor(s.failed, sig.deptId);
    if i < |s.failed| {
      var fb := s.failed[i];
      FailedOneLess(s.failed, i);
      CompletedOneMore(s.completed, CompletedBranch(fb.place, fb.deptId, sig.nodeKey));
      var t := s.(failed := Remove(s.failed, i), completed := s.completed + [CompletedBranch(fb.place, fb.deptId, sig.nodeKey)]);
      TallyKept(s, t, fb.place);
      PhaseAside(t);
    }
  }

  lemma ParkBackConserves(s: State, sig: Signal, runs: bool)
    ensures Tally(ParkStep(s, ForceBack(sig, runs))) == Tally(s)
  {
    var i := FailedBranchFor(s.failed, sig.deptId);
    if i < |s.failed| {
      FailedOneLess(s.failed, i);
      FailedOneMore(s.respawned, s.failed[i]);
      TallyKept(s, ParkStep(s, ForceBack(sig, runs)), s.failed[i].place);
    }
  }

  lemma RespawnConserves(s: State, index: nat, lastNode: NodeKey, failed: bool)
    ensures Tally(ParkStep(s, RespawnSettled(index, lastNode, failed))) == Tally(s)
  {
    if index < |s.respawned| {
      var fb := s.respawned[index];
      FailedOneLess(s.respawned, index);
      FailedOneMore(s.failed, fb.(lastCompletedNode := lastNode));
      CompletedOneMore(s.completed, CompletedBranch(fb.place, fb.deptId, lastNode));
      var left := s.(respawned := Remove(s.respawned, index));
      var t :=
        if failed then left.(failed := s.failed + [fb.(lastCompletedNode := lastNode)])
        else left.(completed := s.completed + [CompletedBranch(fb.place, fb.deptId, lastNode)]);
      TallyKept(s, t, fb.place);
      PhaseAside(t);
    }
  }

  lemma {:induction false} RunConserves(s: State, events: seq<Event>)
    ensures Tally(Run(s, events)) == Tally(s) && Run(s, events).branches == s.branches
    decreases |events|
  {
    if events != [] {
      StepConserves(s, events[0]);
      RunConserves(Next(s, events[0]), events[1..]);
    }
  }

  /** From the fork on, whatever arrives, every branch is in exactly one place of the tally, so the four counts add up to the branches. */
  lemma GatewayConserves(branches: seq<ParallelBranch>, events: seq<Event>)
    ensures var s := Run(Fork(branches), events);
            && Tally(s) == AllPlaces(branches)
            && |Unresolved(branches, s.resolved)| + |s.completed| + |s.failed| + |s.respawned| == |branches|
  {
    var start := Fork(branches);
    RunConserves(start, events);
    var s := Run(start, events);
    assert Unresolved(branches, {}) == UpTo(|branches|);
    assert CompletedPlaces([]) == multiset{} && FailedPlaces([]) == multiset{};
    assert Tally(start) == AllPlaces(branches);
    assert |Tally(s)| == |Unresolved(branches, s.resolved)| + |s.completed| + |s.failed| + |s.respawned|;
  }

  // ----- how a gateway leaves -----

  ghost predicate EverFailed(s: State, events: seq<Event>) {
    exists k | 0 <= k <= |events| :: Run(s, events[..k]).failed != []
  }

  /** Event `k` is the failure of a branch that was unresolved, while the gateway was joining. */
  ghost predicate FailsAtTheJoin(s: State, events: seq<Event>, k: nat) {
    k < |events| && JoinSeesAFailure(Run(s, events[..k]), events[k])
  }

  predicate JoinSeesAFailure(s: State, e: Event) {
    s.phase == Joining && e.Settled? && e.failed && e.place < |s.branches| && Itoa(e.place) !in s.resolved
  }

  lemma FailureComesFromTheJoin(s: State, e: Event)
    requires s.failed == [] && s.respawned == []
    ensures Next(s, e).respawned == [] && (Next(s, e).failed != [] <==> JoinSeesAFailure(s, e))
  {
  }

  lemma JoinKeepsFailures(s: State, e: Event)
    requires JoinSeesAFailure(s, e)
    ensures Next(s, e).failed != []
  {
  }

  lemma {:induction false} RunOneMore(s: State, events: seq<Event>, k: nat)
    requires k < |events|
    ensures Run(s, events[..k+1]) == Next(Run(s, events[..k]), events[k])
    decreases k
  {
    if k == 0 {
      assert events[..1] == [events[0]] && events[..0] == [] && [events[0]][1..] == [];
    } else {
      RunOneMore(Next(s, events[0]), events[1..], k - 1);
      assert events[..k+1][1..] == events[1..][..k] && events[..k][1..] == events[1..][..k-1];
    }
  }

  lemma {:induction false} NothingFailedYet(s: State, events: seq<Event>, k: nat)
    requires s.failed == [] && s.respawned == [] && k <= |events|
    requires forall j | 0 <= j < k :: !FailsAtTheJoin(s, events, j)
    ensures Run(s, events[..k]).failed == [] && Run(s, events[..k]).respawned == []
  {
    if k > 0 {
      NothingFailedYet(s, events, k - 1);
      RunOneMore(s, events, k - 1);
      assert !FailsAtTheJoin(s, events, k - 1);
      FailureComesFromTheJoin(Run(s, events[..k-1]), events[k-1]);
    }
  }

  /** A gateway ever has a failed branch exactly if an unresolved branch fails at its join. */
  lemma EverFailedAtTheJoin(s: State, events: seq<Event>)
    requires s.failed == [] && s.respawned == []
    ensures EverFailed(s, events) <==> exists k: nat :: FailsAtTheJoin(s, events, k)
  {
    if k: nat :| FailsAtTheJoin(s, events, k) {
      RunOneMore(s, events, k);
      JoinKeepsFailures(Run(s, events[..k]), events[k]);
      assert Run(s, events[..k+1]).failed != [];
    } else {
      forall k | 0 <= k <= |events| ensures Run(s, events[..k]).failed == [] {
        NothingFailedYet(s, events, k);
      }
    }
  }

  /** The phase follows from what is in the tally. */
  predicate Coherent(s: State) {
    match s.phase
    case Joining => Unresolved(s.branches, s.resolved) != {} && s.respawned == []
    case Parked => Unresolved(s.branches, s.resolved) == {} && (s.failed != [] || s.respawned != [])
    case Left(_) => Unresolved(s.branches, s.resolved) == {} && s.failed == [] && s.respawned == []
    case _ => true
  }

  lemma StepCoherent(s: State, e: Event)
    requires Coherent(s)
    ensures Coherent(Next(s, e))
    ensures s.phase.Joining? && Next(s, e).phase.Left? ==> s.failed == [] && Next(s, e).phase == Left(false)
    ensures s.phase.Joining? && (Next(s, e).phase.Joining? || Next(s, e).phase.Parked?) ==> s.failed != [] ==> Next(s, e).failed != []
    ensures s.phase.Joining? && Next(s, e).phase.Parked? ==> Next(s, e).failed != []
    ensures s.phase.Parked? && Next(s, e).phase.Left? ==> Next(s, e).phase == Left(true)
  {
  }

  /** A gateway that left normally passed through DEGRADED exactly when a branch had failed, and every branch is completed once. */
  lemma GatewayLeavesComplete(branches: seq<ParallelBranch>, events: seq<Event>)
    requires Run(Fork(branches), events).phase.Left?
    ensures var s := Run(Fork(branches), events);
            && CompletedPlaces(s.completed) == AllPlaces(branches)
            && |s.completed| == |branches|
            && (s.phase.degraded <==> exists k: nat :: FailsAtTheJoin(Fork(branches), events, k))
  {
    var start := Fork(branches);
    var s := Run(start, events);
    EverFailedAtTheJoin(start, events);
    GatewayConserves(branches, events);
    RunCoherent(start, events);
    assert FailedPlaces([]) == multiset{};
    assert Tally(s) == multiset{} + CompletedPlaces(s.completed) + multiset{} + multiset{};
  }

  lemma {:induction false} RunCoherent(s: State, events: seq<Event>)
    requires Coherent(s)
    requires s.phase.Joining? || s.phase == Left(false)
    requires s.phase == Left(false) ==> s.failed == []
    ensures Coherent(Run(s, events))
    ensures Run(s, events).phase.Left? ==> (Run(s, events).phase.degraded <==> EverFailed(s, events))
    decreases |events|
  {
    if events == [] {
      assert events[..0] == [];
      assert s.phase.Left? ==> forall k | 0 <= k <= 0 :: events[..k] == [];
    } else {
      var t := Next(s, events[0]);
      StepCoherent(s, events[0]);
      assert events[..0] == [];
      forall k | 1 <= k <= |events| ensures Run(s, events[..k]) == Run(t, events[1..][..k-1]) {
        assert events[..k][0] == events[0] && events[..k][1..] == events[1..][..k-1];
      }
      if t.phase.Joining? || t.phase == Left(false) {
        RunCoherent(t, events[1..]);
        if t.phase.Joining? && s.failed != [] {
          FailureStays(t, events[1..]);
        }
        if k :| 0 <= k <= |events[1..]| && Run(t, events[1..][..k]).failed != [] {
          assert Run(s, events[..k+1]).failed != [];
        }
      } else {
        ParkRunCoherent(t, events[1..]);
        if t.phase.Parked? {
          assert Run(t, events[1..][..0]) == t;
          assert Run(s, events[..1]).failed != [];
        }
      }
    }
  }

  lemma {:induction false} ParkRunCoherent(s: State, events: seq<Event>)
    requires Coherent(s) && !s.phase.Joining? && s.phase != Left(false)
    ensures Coherent(Run(s, events)) && Run(s, events).phase != Left(false) && !Run(s, events).phase.Joining?
    ensures !s.phase.Parked? ==> Run(s, events) == s
    decreases |events|
  {
    if events != [] {
      StepCoherent(s, events[0]);
      ParkRunCoherent(Next(s, events[0]), events[1..]);
    }
  }

  /** A failure seen at the join is still there when the join ends. */
  lemma {:induction false} FailureStays(s: State, events: seq<Event>)
    requires Coherent(s) && s.phase.Joining? && s.failed != []
    ensures Run(s, events).phase != Left(false)
    decreases |events|
  {
    if events != [] {
      var t := Next(s, events[0]);
      StepCoherent(s, events[0]);
      if t.phase.Joining? {
        FailureStays(t, events[1..]);
      } else {
        ParkRunCoherent(t, events[1..]);
      }
    }
  }

  /** A gateway is stopped by a cancel or, in the park, by its own terminate; it breaks when a force-back at the join fails to run. */
  lemma StopsExactlyWhenTold(s: State, e: Event)
    requires s.phase == Joining || s.phase == Parked
    ensures Next(s, e).phase == Terminated <==> e == Cancel || (e == ParkTerminate && s.phase == Parked)
    ensures Next(s, e).phase == Broken <==> s.phase == Joining && e.ForceBack? && !e.forkEntryRuns
  {
  }

  // ----- which branch an event moves, and what is kept of it -----

  predicate SomeLabelled(failed: seq<FailedBranch>, d: DeptId) {
    exists i | 0 <= i < |failed| :: failed[i].deptId == d
  }

  /** The branch works for the department: its steps run it, or the last node it completed is of it. */
  predicate WorksFor(fb: FailedBranch, d: DeptId) {
    StepsRun(fb.steps, d) || DeptFromNodeKey(fb.lastCompletedNode) == d
  }

  /**
   The failed branch a signal to `d` names: the only one left when `d` is empty, else the first labelled `d`, else the
   first that works for it.
   */
  predicate Names(failed: seq<FailedBranch>, d: DeptId, i: nat) {
    && i < |failed|
    && if d == "" && |failed| == 1 then true
       else if SomeLabelled(failed, d) then failed[i].deptId == d && forall j | 0 <= j < i :: failed[j].deptId != d
       else WorksFor(failed[i], d) && forall j | 0 <= j < i :: !WorksFor(failed[j], d)
  }

  lemma NamedIsFound(failed: seq<FailedBranch>, d: DeptId, i: nat)
    ensures Names(failed, d, i) <==> i == FailedBranchFor(failed, d) < |failed|
  {
    assert forall j | 0 <= j < |failed| :: WorksFor(failed[j], d) <==> Concerns(failed[j], d);
    assert SomeLabelled(failed, d) <==> IndexOfFailedBranch(failed, d) < |failed|;
  }

  /** A force-forward in the park completes the branch it names, under the node it was forced to, and no other; naming none it is dropped. */
  lemma ParkForwardMovesTheNamed(s: State, sig: Signal)
    requires s.phase == Parked
    ensures forall i: nat | Names(s.failed, sig.deptId, i) ::
              Next(s, ForceForward(sig)) ==
                s.(failed := s.failed[..i] + s.failed[i+1..],
                   completed := s.completed + [CompletedBranch(s.failed[i].place, s.failed[i].deptId, sig.nodeKey)],
                   phase := if |s.failed| == 1 && s.respawned == [] then Left(true) else Parked)
    ensures (forall i: nat :: !Names(s.failed, sig.deptId, i)) ==> Next(s, ForceForward(sig)) == s
  {
    NamedIsFound(s.failed, sig.deptId, FailedBranchFor(s.failed, sig.deptId));
    forall i: nat | Names(s.failed, sig.deptId, i) ensures i == FailedBranchFor(s.failed, sig.deptId) {
      NamedIsFound(s.failed, sig.deptId, i);
    }
  }

  /** A force-back in the park respawns the branch it names, with its own record, and no other; naming none it is dropped. */
  lemma ParkBackRespawnsTheNamed(s: State, sig: Signal, forkEntryRuns: bool)
    requires s.phase == Parked
    ensures forall i: nat | Names(s.failed, sig.deptId, i) ::
              Next(s, ForceBack(sig, forkEntryRuns)) ==
                s.(failed := s.failed[..i] + s.failed[i+1..], respawned := s.respawned + [s.failed[i]])
    ensures (forall i: nat :: !Names(s.failed, sig.deptId, i)) ==> Next(s, ForceBack(sig, forkEntryRuns)) == s
  {
    NamedIsFound(s.failed, sig.deptId, FailedBranchFor(s.failed, sig.deptId));
    forall i: nat | Names(s.failed, sig.deptId, i) ensures i == FailedBranchFor(s.failed, sig.deptId) {
      NamedIsFound(s.failed, sig.deptId, i);
    }
  }

  /** A respawned branch that settles leaves the flight, completed, or failed again with the node it got to. */
  lemma RespawnSettlesItsOwn(s: State, index: nat, lastNode: NodeKey, failed: bool)
    requires s.phase == Parked && index < |s.respawned|
    ensures var fb, t := s.respawned[index], Next(s, RespawnSettled(index, lastNode, failed));
      && t.respawned == s.respawned[..index] + s.respawned[index+1..]
      && t.failed == s.failed + (if failed then [FailedBranch(fb.place, fb.deptId, fb.steps, lastNode)] else [])
      && t.completed == s.completed + (if failed then [] else [CompletedBranch(fb.place, fb.deptId, lastNode)])
      && t.resolved == s.resolved
      && (t.phase == Left(true) <==> !failed && s.failed == [] && |s.respawned| == 1)
  {
  }

  /** The first outcome of an unresolved branch at the join: completed, or failed with its steps and the node it got to. */
  lemma OutcomeIsItsBranchs(s: State, place: nat, lastNode: NodeKey, failed: bool)
    requires s.phase == Joining && place < |s.branches| && Itoa(place) !in s.resolved
    ensures var b, t := s.branches[place], Next(s, Settled(place, lastNode, failed));
      && t.resolved == s.resolved + {Itoa(place)} && t.respawned == s.respawned
      && t.failed == s.failed + (if failed then [FailedBranch(place, b.deptId, b.steps, lastNode)] else [])
      && t.completed == s.completed + (if failed then [] else [CompletedBranch(place, b.deptId, lastNode)])
  {
  }

  /** A force-forward at the join completes the branch it picks, under the target and the node it was forced to; picking none it is dropped. */
  lemma JoinForwardMovesThePicked(s: State, sig: Signal)
    requires s.phase == Joining
    ensures forall place: nat | place < |s.branches| && View(s).BranchRunning(sig.deptId) == Itoa(place) ::
              var t := Next(s, ForceForward(sig));
              && t.resolved == s.resolved + {Itoa(place)} && t.failed == s.failed && t.respawned == s.respawned
              && t.completed == s.completed + [CompletedBranch(place, sig.deptId, sig.nodeKey)]
    ensures View(s).BranchRunning(sig.deptId) == "" ==> Next(s, ForceForward(sig)) == s
  {
    var key := View(s).BranchRunning(sig.deptId);
    if key != "" {
      PickedKey(View(s), sig.deptId);
      forall place: nat | place < |s.branches| && key == Itoa(place) ensures place == R.IndexOf(View(s).Keys(), key) {
        ItoaInjective(place, R.IndexOf(View(s).Keys(), key));
      }
    }
  }

  /** The event that completed the branch as it is recorded: its own success, a respawn's, or a force-forward to that node. */
  predicate Completes(branches: seq<ParallelBranch>, e: Event, c: CompletedBranch) {
    && c.place < |branches|
    && match e
       case Settled(place, lastNode, failed) =>
         !failed && c == CompletedBranch(place, branches[c.place].deptId, lastNode)
       case RespawnSettled(_, lastNode, failed) =>
         !failed && c == CompletedBranch(c.place, branches[c.place].deptId, lastNode)
       case ForceForward(sig) =>
         c.lastNode == sig.nodeKey && c.deptId in {sig.deptId, branches[c.place].deptId}
       case _ => false
  }

  /** The event that left the branch failed as it is recorded: its own failure, or a respawn's. */
  predicate Fails(branches: seq<ParallelBranch>, e: Event, f: FailedBranch) {
    && f.place < |branches| && f.deptId == branches[f.place].deptId && f.steps == branches[f.place].steps
    && match e
       case Settled(place, lastNode, failed) => failed && f.place == place && f.lastCompletedNode == lastNode
       case RespawnSettled(_, lastNode, failed) => failed && f.lastCompletedNode == lastNode
       case _ => false
  }

  ghost predicate AllAccounted(s: State, events: seq<Event>) {
    && (forall c | c in s.completed :: exists e :: e in events && Completes(s.branches, e, c))
    && (forall f | f in s.failed || f in s.respawned :: exists e :: e in events && Fails(s.branches, e, f))
  }

  /** A step accounts for what it records anew; what was recorded before stays accounted for. */
  lemma NewRecordsSuffice(s: State, events: seq<Event>, e: Event, t: State)
    requires AllAccounted(s, events) && t.branches == s.branches
    requires forall c | c in t.completed :: c in s.completed || Completes(t.branches, e, c)
    requires forall f | f in t.failed || f in t.respawned :: f in s.failed || f in s.respawned || Fails(t.branches, e, f)
    ensures AllAccounted(t, events + [e])
  {
    var more := events + [e];
    assert e in more && forall x | x in events :: x in more;
  }

  lemma JoinAccounts(s: State, events: seq<Event>, e: Event)
    requires AllAccounted(s, events)
    ensures AllAccounted(JoinStep(s, e), events + [e])
  {
    if e.ForceForward? && View(s).BranchRunning(e.sig.deptId) != "" {
      PickedKey(View(s), e.sig.deptId);
    }
    NewRecordsSuffice(s, events, e, JoinStep(s, e));
  }

  lemma ParkAccounts(s: State, events: seq<Event>, e: Event)
    requires AllAccounted(s, events)
    ensures AllAccounted(ParkStep(s, e), events + [e])
  {
    if e.ForceForward? || e.ForceBack? {
      var i := FailedBranchFor(s.failed, e.sig.deptId);
      assert i < |s.failed| ==> s.failed[i] in s.failed;
    } else if e.RespawnSettled? && e.index < |s.respawned| {
      assert s.respawned[e.index] in s.respawned;
    }
    NewRecordsSuffice(s, events, e, ParkStep(s, e));
  }

  lemma StepAccounts(s: State, events: seq<Event>, e: Event)
    requires AllAccounted(s, events)
    ensures AllAccounted(Next(s, e), events + [e])
  {
    match s.phase
    case Joining => JoinAccounts(s, events, e);
    case Parked => ParkAccounts(s, events, e);
    case _ => NewRecordsSuffice(s, events, e, s);
  }

  lemma {:induction false} RunAccounts(s: State, before: seq<Event>, events: seq<Event>)
    requires AllAccounted(s, before)
    ensures AllAccounted(Run(s, events), before + events)
    decreases |events|
  {
    if events == [] {
      assert before + events == before;
    } else {
      StepAccounts(s, before, events[0]);
      RunAccounts(Next(s, events[0]), before + [events[0]], events[1..]);
      assert before + [events[0]] + events[1..] == before + events;
    }
  }

  /** In every run, a branch recorded completed or failed is so because of an event that says so, with that event's node. */
  lemma RecordsHaveTheirEvents(branches: seq<ParallelBranch>, events: seq<Event>)
    ensures var s := Run(Fork(branches), events);
      && (forall c | c in s.completed :: exists e :: e in events && Completes(branches, e, c))
      && (forall f | f in s.failed || f in s.respawned :: exists e :: e in events && Fails(branches, e, f))
  {
    RunAccounts(Fork(branches), [], events);
    RunConserves(Fork(branches), events);
    assert [] + events == events;
  }

  // ----- a forced branch's own outcome comes too late -----

  lemma {:induction false} ResolvedStays(s: State, events: seq<Event>, key: string)
    requires key in s.resolved
    ensures key in Run(s, events).resolved
    decreases |events|
  {
    if events != [] {
      ResolvedStays(Next(s, events[0]), events[1..], key);
    }
  }

  /** Once a force-forward took a branch, that branch's own outcome changes nothing, however much later it arrives. */
  lemma LateOutcomeChangesNothing(s: State, sig: Signal, events: seq<Event>, place: nat, lastNode: NodeKey, failed: bool)
    requires s.phase.Joining? && place < |s.branches| && View(s).BranchRunning(sig.deptId) == Itoa(place)
    ensures var later := Run(Next(s, ForceForward(sig)), events);
            Next(later, Settled(place, lastNode, failed)) == later
  {
    ResolvedStays(Next(s, ForceForward(sig)), events, Itoa(place));
  }

  // ----- the two loops -----

  lemma {:induction false} NothingAfterTheEnd(s: State, events: seq<Event>)
    requires !s.phase.Joining? && !s.phase.Parked?
    ensures Run(s, events) == s
    decreases |events|
  {
    if events != [] {
      NothingAfterTheEnd(s, events[1..]);
    }
  }

  lemma RunOne(s: State, events: seq<Event>, i: nat)
    requires i < |events|
    ensures Run(s, events[i..]) == Run(Next(s, events[i]), events[i+1..])
  {
    assert events[i..][1..] == events[i+1..];
  }

  /** An event that ends the gateway settles the run. */
  lemma EndsTheRun(s: State, events: seq<Event>, i: nat)
    requires i < |events| && !Next(s, events[i]).phase.Joining? && !Next(s, events[i]).phase.Parked?
    ensures Run(s, events[i..]) == Next(s, events[i])
  {
    RunOne(s, events, i);
    NothingAfterTheEnd(Next(s, events[i]), events[i+1..]);
  }

  /** A branch's outcome at the join: the first for its branch counts it down, a later one is dropped. */
  method ReceiveOutcome(branches: seq<ParallelBranch>, resolved: set<string>, completed: seq<CompletedBranch>, failed: seq<FailedBranch>,
                        remaining: nat, place: nat, lastNode: NodeKey, branchFailed: bool)
    returns (nowResolved: set<string>, nowCompleted: seq<CompletedBranch>, nowFailed: seq<FailedBranch>, left: nat)
    requires remaining == |Unresolved(branches, resolved)| > 0
    ensures AfterJoin(State(branches, nowResolved, nowCompleted, nowFailed, [], Joining))
         == JoinStep(State(branches, resolved, completed, failed, [], Joining), Settled(place, lastNode, branchFailed))
    ensures left == |Unresolved(branches, nowResolved)|
  {
    nowResolved, nowCompleted, nowFailed, left := resolved, completed, failed, remaining;
    if place >= |branches| || Itoa(place) in resolved {
      return;
    }
    ResolvingOne(branches, resolved, place);
    nowResolved := resolved + {Itoa(place)};
    left := remaining - 1;
    if branchFailed {
      nowFailed := failed + [FailedBranch(place, branches[place].deptId, branches[place].steps, lastNode)];
    } else {
      nowCompleted := completed + [CompletedBranch(place, branches[place].deptId, lastNode)];
    }
  }

  /** A force-forward at the join: the branch it picks is counted down as completed, without waiting for its outcome. */
  method ForceBranch(branches: seq<ParallelBranch>, resolved: set<string>, completed: seq<CompletedBranch>, ghost failed: seq<FailedBranch>,
                     remaining: nat, sig: Signal)
    returns (nowResolved: set<string>, nowCompleted: seq<CompletedBranch>, left: nat)
    requires remaining == |Unresolved(branches, resolved)| > 0
    ensures AfterJoin(State(branches, nowResolved, nowCompleted, failed, [], Joining))
         == JoinStep(State(branches, resolved, completed, failed, [], Joining), ForceForward(sig))
    ensures left == |Unresolved(branches, nowResolved)|
  {
    nowResolved, nowCompleted, left := resolved, completed, remaining;
    var gw := Gateway(0, [], branches, resolved);
    var key := gw.BranchRunning(sig.deptId);
    if key == "" {
      return;
    }
    PickedKey(gw, sig.deptId);
    ResolvingOne(branches, resolved, R.IndexOf(gw.Keys(), key));
    nowResolved := resolved + {key};
    left := remaining - 1;
    nowCompleted := completed + [CompletedBranch(R.IndexOf(gw.Keys(), key), sig.deptId, sig.nodeKey)];
  }

  /** The join's receive loop: it counts `remaining` down and hands over to the park when it reaches zero with a failure. */
  method RunParallel(branches: seq<ParallelBranch>, events: seq<Event>) returns (phase: Phase, completed: seq<CompletedBranch>)
    ensures phase == Run(Fork(branches), events).phase
    ensures completed == Run(Fork(branches), events).completed
  {
    var resolved: set<string> := {};
    var failed: seq<FailedBranch> := [];
    var remaining := |branches|;
    completed := [];
    ghost var s := Fork(branches);
    ghost var whole := Run(s, events);
    assert Unresolved(branches, {}) == UpTo(|branches|);
    var i := 0;
    while remaining > 0 && i < |events|
      invariant i <= |events|
      invariant s == AfterJoin(State(branches, resolved, completed, failed, [], Joining))
      invariant remaining == |Unresolved(branches, resolved)|
      invariant whole == Run(s, events[i..])
      decreases |events| - i
    {
      assert s == State(branches, resolved, completed, failed, [], Joining);
      var e := events[i];
      if e.Settled? {
        resolved, completed, failed, remaining :=
          ReceiveOutcome(branches, resolved, completed, failed, remaining, e.place, e.lastNode, e.failed);
      } else if e.ForceForward? {
        resolved, completed, remaining := ForceBranch(branches, resolved, completed, failed, remaining, e.sig);
      } else if e.ForceBack? && !e.forkEntryRuns {
        EndsTheRun(s, events, i);
        return Broken, completed;
      } else if e.Cancel? {
        EndsTheRun(s, events, i);
        return Terminated, completed;
      }
      RunOne(s, events, i);
      s := Next(s, e);
      i := i + 1;
    }
    if remaining > 0 {
      return Joining, completed;
    }
    if |failed| == 0 {
      NothingAfterTheEnd(s, events[i..]);
      return Left(false), completed;
    }
    phase, completed := EnterDegraded(s, completed, failed, events[i..]);
  }

  /** The park loop: it ends when nothing is failed and nothing is respawning, or when the instance is cancelled. */
  method EnterDegraded(ghost start: State, before: seq<CompletedBranch>, parked: seq<FailedBranch>, events: seq<Event>)
    returns (phase: Phase, completed: seq<CompletedBranch>)
    requires start.phase == Parked && start.respawned == [] && start.completed == before && start.failed == parked && parked != []
    ensures phase == Run(start, events).phase
    ensures completed == Run(start, events).completed
  {
    completed := before;
    var failed := parked;
    var inFlight: seq<FailedBranch> := [];
    var respawning := 0;
    ghost var s := start;
    ghost var whole := Run(start, events);
    var i := 0;
    while (|failed| > 0 || respawning > 0) && i < |events|
      invariant i <= |events|
      invariant respawning == |inFlight|
      invariant s == AfterPark(start.(completed := completed, failed := failed, respawned := inFlight))
      invariant whole == Run(s, events[i..])
      decreases |events| - i
    {
      RunOne(s, events, i);
      match events[i] {
        case Cancel =>
          EndsTheRun(s, events, i);
          return Terminated, completed;
        case ParkTerminate =>
          EndsTheRun(s, events, i);
          return Terminated, completed;
        case ForceForward(sig) =>
          var k := FailedBranchFor(failed, sig.deptId);
          if k < |failed| {
            completed := completed + [CompletedBranch(failed[k].place, failed[k].deptId, sig.nodeKey)];
            failed := Remove(failed, k);
          }
        case ForceBack(sig, _) =>
          var k := FailedBranchFor(failed, sig.deptId);
          if k < |failed| {
            inFlight := inFlight + [failed[k]];
            failed := Remove(failed, k);
            respawning := respawning + 1;
          }
        case RespawnSettled(index, lastNode, branchFailed) =>
          if index < |inFlight| {
            var fb := inFlight[index];
            inFlight := Remove(inFlight, index);
            respawning := respawning - 1;
            if branchFailed {
              failed := failed + [fb.(lastCompletedNode := lastNode)];
            } else {
              completed := completed + [CompletedBranch(fb.place, fb.deptId, lastNode)];
            }
          }
        case Settled(_, _, _) =>
      }
      s := Next(s, events[i]);
      i := i + 1;
    }
    if |failed| > 0 || respawning > 0 {
      return Parked, completed;
    }
    NothingAfterTheEnd(s, events[i..]);
    phase := Left(true);
  }
}
