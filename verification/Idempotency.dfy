/**
 The idempotency wrapper over one cache key: any number of concurrent requests carrying the same key, one cache
 call or handler call of one request at a time.
 */
module Idempotency {
  import opened Wrappers

  type RequestId = nat
  type BodyHash = string
  type Body = string

  /** `holder` notes which request's claim it is; the cache holds only that the key is claimed. */
  datatype Value = Claimed(holder: RequestId) | Stored(status: int, body: Body, hash: BodyHash)

  datatype Entry = Entry(value: Value, expiry: nat)

  datatype Reply = Fresh(status: int, body: Body) | Replay(status: int, body: Body) | Conflict

  datatype Phase =
    | Arrived
    | Handling(expiry: nat)
    | Responding(expiry: nat, status: int, body: Body)
    | Refused
    | Finished(reply: Reply)

  datatype Request = Request(hash: BodyHash, phase: Phase)

  datatype State = State(clock: nat, entry: Option<Entry>, requests: map<RequestId, Request>)

  const START := State(0, None, map[])

  datatype Event =
    | Tick(now: nat)
    | Arrive(request: RequestId, hash: BodyHash)
    | TryClaim(request: RequestId)
    | HandlerReturns(request: RequestId, status: int, body: Body)
    | StoreResult(request: RequestId, written: bool)
    | LookUp(request: RequestId, readable: bool)
    | Die(request: RequestId)

  predicate Succeeded(status: int) {
    200 <= status < 300
  }

  predicate Live(s: State) {
    s.entry.Some? && s.clock < s.entry.value.expiry
  }

  predicate InHandler(p: Phase) {
    p.Handling? || p.Responding?
  }

  /** Which phase the event leaves; a request may die in any. */
  predicate Leaves(e: Event, p: Phase) {
    match e
    case TryClaim(_) => p.Arrived?
    case HandlerReturns(_, _, _) => p.Handling?
    case StoreResult(_, _) => p.Responding?
    case LookUp(_, _) => p.Refused?
    case Die(_) => true
    case _ => false
  }

  predicate Enabled(s: State, e: Event) {
    if e.Tick? then s.clock <= e.now
    else if e.Arrive? then e.request !in s.requests && e.hash != ""
    else e.request in s.requests && Leaves(e, s.requests[e.request].phase)
  }

  /** A request finishes within the lifetime of the claim it made. */
  ghost predicate InTime(s: State, e: Event) {
    e.Tick? ==> forall r | r in s.requests && InHandler(s.requests[r].phase) :: e.now < s.requests[r].phase.expiry
  }

  function Goto(s: State, r: RequestId, p: Phase): State
    requires r in s.requests
  {
    s.(requests := s.requests[r := s.requests[r].(phase := p)])
  }

  /** Set-if-absent on the key. */
  function NextTryClaim(s: State, ttl: nat, r: RequestId): State
    requires r in s.requests
  {
    if Live(s) then Goto(s, r, Refused)
    else Goto(s.(entry := Some(Entry(Claimed(r), s.clock + ttl))), r, Handling(s.clock + ttl))
  }

  /** A success is kept for replay; anything else gives the claim up. A write the cache did not take changes nothing. */
  function NextStoreResult(s: State, ttl: nat, r: RequestId, written: bool): State
    requires r in s.requests && s.requests[r].phase.Responding?
  {
    var p := s.requests[r].phase;
    var entry :=
      if !written then s.entry
      else if Succeeded(p.status) then Some(Entry(Stored(p.status, p.body, s.requests[r].hash), s.clock + ttl))
      else None;
    Goto(s.(entry := entry), r, Finished(Fresh(p.status, p.body)))
  }

  function ReplyTo(s: State, hash: BodyHash, readable: bool): Reply {
    if !readable || !Live(s) || s.entry.value.value.Claimed? then Conflict
    else
      var stored := s.entry.value.value;
      if stored.hash != "" && stored.hash != hash then Conflict else Replay(stored.status, stored.body)
  }

  function Next(s: State, ttl: nat, e: Event): State
    requires Enabled(s, e)
  {
    match e
    case Tick(now) => s.(clock := now)
    case Arrive(r, hash) => s.(requests := s.requests[r := Request(hash, Arrived)])
    case TryClaim(r) => NextTryClaim(s, ttl, r)
    case HandlerReturns(r, status, body) => Goto(s, r, Responding(s.requests[r].phase.expiry, status, body))
    case StoreResult(r, written) => NextStoreResult(s, ttl, r, written)
    case LookUp(r, readable) => Goto(s, r, Finished(ReplyTo(s, s.requests[r].hash, readable)))
    case Die(r) => s.(requests := s.requests - {r})
  }

  ghost predicate Step(s: State, ttl: nat, e: Event, t: State) {
    Enabled(s, e) && InTime(s, e) && t == Next(s, ttl, e)
  }

  ghost predicate IsRun(ttl: nat, run: seq<State>, events: seq<Event>) {
    && 0 < ttl && |run| == |events| + 1 && run[0] == START
    && forall i | 0 <= i < |events| :: Step(run[i], ttl, events[i], run[i+1])
  }

  // ----- at most one handler -----

  /** A request in its handler holds the key under its own live claim. */
  predicate HoldsKey(s: State, r: RequestId)
    requires r in s.requests
  {
    && s.requests[r].hash != ""
    && (InHandler(s.requests[r].phase) ==>
          s.entry == Some(Entry(Claimed(r), s.requests[r].phase.expiry)) && s.clock < s.requests[r].phase.expiry)
  }

  ghost predicate KeyHeld(s: State) {
    forall r | r in s.requests :: HoldsKey(s, r)
  }

  lemma StepKeepsKeyHeld(s: State, ttl: nat, e: Event, t: State)
    requires KeyHeld(s) && 0 < ttl && Step(s, ttl, e, t)
    ensures KeyHeld(t)
  {
    forall r | r in t.requests ensures HoldsKey(t, r) {
      if r in s.requests {
        assert HoldsKey(s, r);
        if e.StoreResult? {
          assert HoldsKey(s, e.request);
        }
      }
    }
  }

  lemma {:induction false} RunKeepsKeyHeld(ttl: nat, run: seq<State>, events: seq<Event>, i: nat)
    requires IsRun(ttl, run, events) && i < |run|
    ensures KeyHeld(run[i])
  {
    if i > 0 {
      RunKeepsKeyHeld(ttl, run, events, i - 1);
      assert Step(run[i-1], ttl, events[i-1], run[i]);
      StepKeepsKeyHeld(run[i-1], ttl, events[i-1], run[i]);
    }
  }

  /** At most one request is in its handler, or between its handler and the store. */
  lemma OneHandlerAtATime(ttl: nat, run: seq<State>, events: seq<Event>, i: nat, q: RequestId, r: RequestId)
    requires IsRun(ttl, run, events) && i < |run| && q in run[i].requests && r in run[i].requests
    requires InHandler(run[i].requests[q].phase) && InHandler(run[i].requests[r].phase)
    ensures q == r
  {
    RunKeepsKeyHeld(ttl, run, events, i);
    assert HoldsKey(run[i], q) && HoldsKey(run[i], r);
  }

  // ----- none after a success, while it is kept -----

  predicate StoresSuccess(s: State, e: Event) {
    && e.StoreResult? && e.written && e.request in s.requests && s.requests[e.request].phase.Responding?
    && 200 <= s.requests[e.request].phase.status < 300
  }

  lemma StoredKeyHasNoHandler(s: State, r: RequestId)
    requires KeyHeld(s) && r in s.requests && s.entry.Some? && s.entry.value.value.Stored?
    ensures !InHandler(s.requests[r].phase)
  {
    assert HoldsKey(s, r);
  }

  /** A stored success keeps the key for its whole lifetime. */
  lemma {:induction false} SuccessStays(ttl: nat, run: seq<State>, events: seq<Event>, i: nat, j: nat)
    requires IsRun(ttl, run, events) && i < j < |run| && StoresSuccess(run[i], events[i])
    requires run[j].clock < run[i].clock + ttl
    ensures run[j].entry == run[i+1].entry && Live(run[j])
    decreases j
  {
    assert Step(run[i], ttl, events[i], run[i+1]);
    if i + 1 < j {
      assert Step(run[j-1], ttl, events[j-1], run[j]);
      SuccessStays(ttl, run, events, i, j - 1);
      RunKeepsKeyHeld(ttl, run, events, j - 1);
      var e := events[j-1];
      if e.StoreResult? {
        StoredKeyHasNoHandler(run[j-1], e.request);
      }
    }
  }

  /** From the store of a success to the end of its lifetime no handler runs. */
  lemma NoHandlerAfterASuccess(ttl: nat, run: seq<State>, events: seq<Event>, i: nat, j: nat, r: RequestId)
    requires IsRun(ttl, run, events) && i < j < |run| && StoresSuccess(run[i], events[i])
    requires run[j].clock < run[i].clock + ttl && r in run[j].requests
    ensures !InHandler(run[j].requests[r].phase)
  {
    assert Step(run[i], ttl, events[i], run[i+1]);
    SuccessStays(ttl, run, events, i, j);
    RunKeepsKeyHeld(ttl, run, events, j);
    assert HoldsKey(run[j], r);
  }

  // ----- what a replay says -----

  /** What the key stores was stored by the success of a request with that status, body and body hash. */
  lemma {:induction false} StoredBySuccess(ttl: nat, run: seq<State>, events: seq<Event>, i: nat) returns (j: nat)
    requires IsRun(ttl, run, events) && i < |run| && run[i].entry.Some? && run[i].entry.value.value.Stored?
    ensures j < i && StoresSuccess(run[j], events[j])
    ensures var q := run[j].requests[events[j].request];
      run[i].entry == Some(Entry(Stored(q.phase.status, q.phase.body, q.hash), run[j].clock + ttl))
  {
    assert Step(run[i-1], ttl, events[i-1], run[i]);
    if StoresSuccess(run[i-1], events[i-1]) {
      j := i - 1;
    } else {
      j := StoredBySuccess(ttl, run, events, i - 1);
    }
  }

  /** A replay carries the status and body of the success still kept, and goes to a request with that success's body. */
  lemma ReplayIsTheSuccess(ttl: nat, run: seq<State>, events: seq<Event>, i: nat, r: RequestId) returns (j: nat)
    requires IsRun(ttl, run, events) && i < |events| && events[i] == LookUp(r, true) && r in run[i].requests
    requires ReplyTo(run[i], run[i].requests[r].hash, true).Replay?
    ensures j < i && StoresSuccess(run[j], events[j]) && run[i].clock < run[j].clock + ttl
    ensures var q := run[j].requests[events[j].request];
      && q.hash == run[i].requests[r].hash
      && r in run[i+1].requests
      && run[i+1].requests[r].phase == Finished(Replay(q.phase.status, q.phase.body))
  {
    assert Step(run[i], ttl, events[i], run[i+1]);
    j := StoredBySuccess(ttl, run, events, i);
    RunKeepsKeyHeld(ttl, run, events, j);
    assert HoldsKey(run[j], events[j].request);
  }

  /** A request that meets the kept success with the same body is replayed it, with another body refused. */
  lemma KeptSuccessAnswers(ttl: nat, run: seq<State>, events: seq<Event>, i: nat, k: nat, r: RequestId)
    requires IsRun(ttl, run, events) && i < k < |events| && StoresSuccess(run[i], events[i])
    requires run[k].clock < run[i].clock + ttl && events[k] == LookUp(r, true) && r in run[k].requests
    ensures var q := run[i].requests[events[i].request];
      && r in run[k+1].requests
      && run[k+1].requests[r].phase ==
           Finished(if q.hash == run[k].requests[r].hash then Replay(q.phase.status, q.phase.body) else Conflict)
  {
    assert Step(run[k], ttl, events[k], run[k+1]);
    assert Step(run[i], ttl, events[i], run[i+1]);
    SuccessStays(ttl, run, events, i, k);
    RunKeepsKeyHeld(ttl, run, events, i);
    assert HoldsKey(run[i], events[i].request);
  }

  /** A failed handler gives the key up: the next request to come runs. */
  lemma FailureReleasesTheKey(ttl: nat, run: seq<State>, events: seq<Event>, i: nat, r: RequestId)
    requires IsRun(ttl, run, events) && i + 1 < |events|
    requires events[i].StoreResult? && events[i].written && events[i].request in run[i].requests
    requires run[i].requests[events[i].request].phase.Responding?
    requires !(200 <= run[i].requests[events[i].request].phase.status < 300)
    requires events[i+1] == TryClaim(r) && r in run[i+1].requests
    ensures r in run[i+2].requests && run[i+2].requests[r].phase.Handling?
  {
    assert Step(run[i], ttl, events[i], run[i+1]);
    assert Step(run[i+1], ttl, events[i+1], run[i+2]);
  }

  // ----- what every request is answered -----

  /** Whether the key is taken, by a claim or by a stored success. */
  predicate Taken(s: State) {
    s.entry.Some? && s.clock < s.entry.value.expiry
  }

  /** A live success whose request had the same body. */
  predicate KeepsSuccessFor(s: State, hash: BodyHash) {
    Taken(s) && s.entry.value.value.Stored? && s.entry.value.value.hash == hash
  }

  /** The phase a request's own step takes it to. */
  function PhaseAfter(s: State, ttl: nat, e: Event): Option<Phase>
    requires !e.Tick? && !e.Arrive? && Enabled(s, e)
  {
    var x := s.requests[e.request];
    match e
    case TryClaim(_) => Some(if Taken(s) then Refused else Handling(s.clock + ttl))
    case HandlerReturns(_, status, body) => Some(Responding(x.phase.expiry, status, body))
    case StoreResult(_, _) => Some(Finished(Fresh(x.phase.status, x.phase.body)))
    case LookUp(_, readable) =>
      Some(Finished(if readable && KeepsSuccessFor(s, x.hash) then Replay(s.entry.value.value.status, s.entry.value.value.body) else Conflict))
    case Die(_) => None
  }

  /**
   What each step of a request does to it: it runs exactly if the key was not taken, is answered its own handler's status
   and body, and when refused is replayed the live success of an equal body or refused for good.
   */
  lemma RequestStep(ttl: nat, run: seq<State>, events: seq<Event>, i: nat)
    requires IsRun(ttl, run, events) && i < |events| && !events[i].Tick? && !events[i].Arrive?
    ensures Enabled(run[i], events[i])
    ensures match PhaseAfter(run[i], ttl, events[i])
            case Some(p) => run[i+1].requests == run[i].requests[events[i].request := Request(run[i].requests[events[i].request].hash, p)]
            case None => run[i+1].requests == run[i].requests - {events[i].request}
  {
    assert Step(run[i], ttl, events[i], run[i+1]);
    if run[i].entry.Some? && run[i].entry.value.value.Stored? {
      var j := StoredBySuccess(ttl, run, events, i);
      RunKeepsKeyHeld(ttl, run, events, j);
      assert HoldsKey(run[j], events[j].request);
    }
  }

  /** Requests come under ids not in use and may die at any time; either leaves the key and the other requests alone. */
  lemma RequestsComeAndGo(s: State, ttl: nat, r: RequestId, hash: BodyHash)
    ensures r !in s.requests && hash != "" ==>
              Enabled(s, Arrive(r, hash)) && Next(s, ttl, Arrive(r, hash)) == s.(requests := s.requests[r := Request(hash, Arrived)])
    ensures r in s.requests ==> !Enabled(s, Arrive(r, hash))
    ensures r in s.requests ==> Enabled(s, Die(r)) && Next(s, ttl, Die(r)) == s.(requests := s.requests - {r})
  {
  }

  /** What each step does to the key: a claim when it was free, what a written store puts there, and nothing else. */
  lemma KeyStep(ttl: nat, run: seq<State>, events: seq<Event>, i: nat)
    requires IsRun(ttl, run, events) && i < |events|
    ensures var s, e := run[i], events[i];
      run[i+1].entry ==
        if e.TryClaim? && !Taken(s) then Some(Entry(Claimed(e.request), s.clock + ttl))
        else if StoresSuccess(s, e) then
          var x := s.requests[e.request];
          Some(Entry(Stored(x.phase.status, x.phase.body, x.hash), s.clock + ttl))
        else if e.StoreResult? && e.written then None
        else s.entry
  {
    assert Step(run[i], ttl, events[i], run[i+1]);
  }

  /** The same request all along: an id is free again only once its request is gone. */
  ghost predicate ThereSince(run: seq<State>, r: RequestId, j: nat, i: nat) {
    j <= i < |run| && forall k | j <= k <= i :: r in run[k].requests
  }

  /** The phase answers, or is about to answer, with the status and body. */
  predicate Answers(p: Phase, status: int, body: Body) {
    (p.Responding? && p.status == status && p.body == body) || p == Finished(Fresh(status, body))
  }

  /** A request that is not told of a replay or a conflict is answered what its own handler returned. */
  lemma {:induction false} FreshIsTheHandlersOwn(ttl: nat, run: seq<State>, events: seq<Event>, i: nat, r: RequestId, status: int, body: Body)
    returns (j: nat)
    requires IsRun(ttl, run, events) && i < |run| && r in run[i].requests && Answers(run[i].requests[r].phase, status, body)
    ensures j < i && events[j] == HandlerReturns(r, status, body) && ThereSince(run, r, j, i)
  {
    var e := events[i-1];
    assert Step(run[i-1], ttl, e, run[i]);
    if e == HandlerReturns(r, status, body) {
      j := i - 1;
    } else {
      if !e.Tick? && !e.Arrive? {
        RequestStep(ttl, run, events, i - 1);
      }
      j := FreshIsTheHandlersOwn(ttl, run, events, i - 1, r, status, body);
    }
  }

  /** Without the time limit two handlers can run: a claim that expires under its handler is there to be taken again. */
  lemma SlowHandlerIsJoined(ttl: nat, s: State, q: RequestId, r: RequestId)
    requires q in s.requests && r in s.requests && q != r
    requires s.requests[q].phase == Handling(s.clock + ttl) && s.entry == Some(Entry(Claimed(q), s.clock + ttl))
    requires s.requests[r].phase.Arrived?
    ensures var late := s.(clock := s.clock + ttl);
      && Enabled(s, Tick(late.clock)) && !InTime(s, Tick(late.clock)) && Next(s, ttl, Tick(late.clock)) == late
      && Enabled(late, TryClaim(r))
      && var t := Next(late, ttl, TryClaim(r));
         q in t.requests && r in t.requests && t.requests[q].phase.Handling? && t.requests[r].phase.Handling?
  {
    var late := s.(clock := s.clock + ttl);
    assert InHandler(s.requests[q].phase) && !(late.clock < s.requests[q].phase.expiry);
  }

  /** The wrapper's own steps over the shared key. */
  class Wrapper {
    const ttl: nat
    var clock: nat
    var entry: Option<Entry>
    var requests: map<RequestId, Request>

    ghost function View(): State
      reads this
    {
      State(clock, entry, requests)
    }

    constructor (lifetime: nat)
      ensures ttl == lifetime && View() == START
    {
      ttl := lifetime;
      clock, entry, requests := 0, None, map[];
    }

    method SetNX(r: RequestId) returns (claimed: bool)
      modifies this
      ensures claimed <==> !Live(old(View()))
      ensures View() == if claimed then old(View()).(entry := Some(Entry(Claimed(r), old(clock) + ttl))) else old(View())
    {
      claimed := entry.None? || entry.value.expiry <= clock;
      if claimed {
        entry := Some(Entry(Claimed(r), clock + ttl));
      }
    }

    method Begin(r: RequestId)
      requires Enabled(View(), TryClaim(r))
      modifies this
      ensures View() == Next(old(View()), ttl, TryClaim(r))
    {
      var claimed := SetNX(r);
      var phase := if claimed then Handling(clock + ttl) else Refused;
      requests := requests[r := requests[r].(phase := phase)];
    }

    method ReplayIfCached(r: RequestId, readable: bool)
      requires Enabled(View(), LookUp(r, readable))
      modifies this
      ensures View() == Next(old(View()), ttl, LookUp(r, readable))
    {
      var reply := Conflict;
      if readable && entry.Some? && clock < entry.value.expiry && entry.value.value.Stored? {
        var stored := entry.value.value;
        if stored.hash == "" || stored.hash == requests[r].hash {
          reply := Replay(stored.status, stored.body);
        }
      }
      requests := requests[r := requests[r].(phase := Finished(reply))];
    }

    method Store(r: RequestId, written: bool)
      requires Enabled(View(), StoreResult(r, written))
      modifies this
      ensures View() == Next(old(View()), ttl, StoreResult(r, written))
    {
      var phase := requests[r].phase;
      if written {
        if phase.status < 200 || phase.status >= 300 {
          entry := None;
        } else {
          entry := Some(Entry(Stored(phase.status, phase.body, requests[r].hash), clock + ttl));
        }
      }
      requests := requests[r := requests[r].(phase := Finished(Fresh(phase.status, phase.body)))];
    }
  }
}
