/**
 Delegation of tasks: rerouting a delegator's assignments to a delegate, reversing it, and the assignment table both
 work on. What is active is a board from (task, user) to the assignment's lead flag and reason.
 */
module Delegation {

  type TaskId = string
  type UserId = string
  type Key = (TaskId, UserId)

  datatype Info = Info(lead: bool, reason: string)

  type Board = map<Key, Info>

  /** An assignment as it was listed: its row, task, user and lead flag. */
  datatype Candidate = Candidate(row: nat, task: TaskId, user: UserId, lead: bool)

  function ReasonTag(delegationId: string): string {
    "delegation:" + delegationId
  }

  predicate HasPrefix(s: string, prefix: string) {
    prefix <= s
  }

  /** Makes one user the task's only lead. */
  function SetLead(b: Board, task: TaskId, user: UserId): Board {
    map k | k in b :: if k.0 == task then b[k].(lead := k.1 == user) else b[k]
  }

  /** One row: vacate it and give the task to the new user, who keeps an assignment already held but takes over a lead. */
  function Move(b: Board, c: Candidate, to: UserId, reason: string): Board {
    var vacated := b - {(c.task, c.user)};
    if (c.task, to) !in vacated then vacated[(c.task, to) := Info(c.lead, reason)]
    else if c.lead then SetLead(vacated, c.task, to)
    else vacated
  }

  function MoveAll(b: Board, cs: seq<Candidate>, to: UserId, reason: string): Board {
    if cs == [] then b else Move(MoveAll(b, cs[..|cs|-1], to, reason), cs[|cs|-1], to, reason)
  }

  function Tasks(cs: seq<Candidate>): set<TaskId> {
    set c | c in cs :: c.task
  }

  /** A listing of active assignments of one user, as far as their tasks are in `selected`, each once and as it stands. */
  ghost predicate IsListing(b: Board, user: UserId, selected: set<TaskId>, cs: seq<Candidate>) {
    && (forall c | c in cs :: c.user == user && c.task in selected && (c.task, user) in b && b[(c.task, user)].lead == c.lead)
    && (forall i, j | 0 <= i < j < |cs| :: cs[i].task != cs[j].task)
    && (forall task | task in selected && (task, user) in b :: task in Tasks(cs))
  }

  /** The tasks a user holds with a reason that starts with the tag. */
  function TaggedTasks(b: Board, user: UserId, tag: string): set<TaskId> {
    set k | k in b && k.1 == user && HasPrefix(b[k].reason, tag) :: k.0
  }

  // ----- leads -----

  predicate Leads(b: Board, task: TaskId, user: UserId) {
    (task, user) in b && b[(task, user)].lead
  }

  ghost predicate HasLead(b: Board, task: TaskId) {
    exists u :: Leads(b, task, u)
  }

  ghost predicate OneLead(b: Board) {
    forall task, u, v | Leads(b, task, u) && Leads(b, task, v) :: u == v
  }

  lemma VacateKeepsOneLead(b: Board, k: Key)
    requires OneLead(b)
    ensures OneLead(b - {k})
  {
    forall task, u, v | Leads(b - {k}, task, u) && Leads(b - {k}, task, v) ensures u == v {
      assert Leads(b, task, u) && Leads(b, task, v);
    }
  }

  lemma SetLeadKeepsOneLead(b: Board, task: TaskId, user: UserId)
    requires OneLead(b)
    ensures OneLead(SetLead(b, task, user))
  {
    var d := SetLead(b, task, user);
    forall t, u, v | Leads(d, t, u) && Leads(d, t, v) ensures u == v {
      assert t != task ==> Leads(b, t, u) && Leads(b, t, v);
    }
  }

  /** No task ever has two leads: not while a row is vacated, and not after it is moved. */
  lemma MoveKeepsOneLead(b: Board, c: Candidate, to: UserId, reason: string)
    requires OneLead(b) && (c.lead ==> Leads(b, c.task, c.user))
    ensures OneLead(b - {(c.task, c.user)}) && OneLead(Move(b, c, to, reason))
  {
    var vacated := b - {(c.task, c.user)};
    VacateKeepsOneLead(b, (c.task, c.user));
    if (c.task, to) in vacated {
      SetLeadKeepsOneLead(vacated, c.task, to);
    } else {
      var d := Move(b, c, to, reason);
      forall t, u, v | Leads(d, t, u) && Leads(d, t, v) ensures u == v {
        assert (t, u) != (c.task, to) ==> Leads(b, t, u);
        assert (t, v) != (c.task, to) ==> Leads(b, t, v);
        assert c.lead && t == c.task ==> Leads(b, t, c.user);
      }
    }
  }

  /** A task with a lead keeps one, whether the new user's assignment was created or adopted; one without gets none. */
  lemma MoveKeepsTheLead(b: Board, c: Candidate, to: UserId, reason: string, task: TaskId)
    requires OneLead(b) && (c.task, c.user) in b && b[(c.task, c.user)].lead == c.lead
    ensures HasLead(b, task) <==> HasLead(Move(b, c, to, reason), task)
    ensures c.lead ==> Leads(Move(b, c, to, reason), c.task, to)
  {
    var d := Move(b, c, to, reason);
    if c.lead {
      assert Leads(b, c.task, c.user) && Leads(d, c.task, to);
    }
    if task != c.task || !c.lead {
      forall u | Leads(b, task, u) ensures Leads(d, task, u) {
      }
      forall u | Leads(d, task, u) ensures Leads(b, task, u) {
      }
    }
  }

  // ----- what moving a listing does, key by key -----

  predicate SameAt(b: Board, d: Board, k: Key) {
    (k in d <==> k in b) && (k in b ==> d[k] == b[k])
  }

  predicate SameReasonAt(b: Board, d: Board, k: Key) {
    (k in d <==> k in b) && (k in b ==> d[k].reason == b[k].reason)
  }

  /** Where one key ends up when the listed tasks of `from` have moved to `to`. */
  predicate Moved(b: Board, d: Board, tasks: set<TaskId>, from: UserId, to: UserId, reason: string, k: Key) {
    if k.0 !in tasks then SameAt(b, d, k)
    else if k.1 == from then k !in d
    else if k.1 != to then SameReasonAt(b, d, k)
    else if k in b then k in d && d[k].reason == b[k].reason
    else k in d && d[k] == Info((k.0, from) in b && b[(k.0, from)].lead, reason)
  }

  /** A task that the new user did not hold keeps everybody else's assignment as it was. */
  predicate OthersKept(b: Board, d: Board, tasks: set<TaskId>, from: UserId, to: UserId, k: Key) {
    k.1 != from && k.1 != to && (k.0, to) !in b ==> SameAt(b, d, k)
  }

  lemma {:induction false} MoveAllByKey(b: Board, cs: seq<Candidate>, from: UserId, to: UserId, reason: string, k: Key)
    requires from != to
    requires forall c | c in cs :: c.user == from && (c.task, from) in b && b[(c.task, from)].lead == c.lead
    requires forall i, j | 0 <= i < j < |cs| :: cs[i].task != cs[j].task
    ensures Moved(b, MoveAll(b, cs, to, reason), Tasks(cs), from, to, reason, k)
    ensures OthersKept(b, MoveAll(b, cs, to, reason), Tasks(cs), from, to, k)
    decreases |cs|
  {
    if cs != [] {
      var init, last := cs[..|cs|-1], cs[|cs|-1];
      assert cs == init + [last];
      assert Tasks(cs) == Tasks(init) + {last.task};
      assert last.task !in Tasks(init);
      var mid := MoveAll(b, init, to, reason);
      MoveAllByKey(b, init, from, to, reason, k);
      MoveAllByKey(b, init, from, to, reason, (last.task, from));
      MoveAllByKey(b, init, from, to, reason, (last.task, to));
      MoveByKey(mid, last, to, reason, k);
    }
  }

  lemma MoveByKey(b: Board, c: Candidate, to: UserId, reason: string, k: Key)
    requires c.user != to
    ensures var d := Move(b, c, to, reason);
      && (k.0 != c.task ==> SameAt(b, d, k))
      && (k == (c.task, c.user) ==> k !in d)
      && (k == (c.task, to) ==> k in d && (if k in b then d[k].reason == b[k].reason else d[k] == Info(c.lead, reason)))
      && (k.0 == c.task && k.1 != c.user && k.1 != to ==> SameReasonAt(b, d, k))
      && (k.0 == c.task && k.1 != c.user && k.1 != to && (c.task, to) !in b && k in b ==> d[k] == b[k])
  {
  }

  /** Through a whole commit, row by row, no task has two leads and every task keeps having one or none. */
  lemma {:induction false} MoveAllKeepsLeads(b: Board, cs: seq<Candidate>, from: UserId, to: UserId, reason: string, task: TaskId)
    requires from != to && OneLead(b)
    requires forall c | c in cs :: c.user == from && (c.task, from) in b && b[(c.task, from)].lead == c.lead
    requires forall i, j | 0 <= i < j < |cs| :: cs[i].task != cs[j].task
    ensures OneLead(MoveAll(b, cs, to, reason))
    ensures HasLead(b, task) <==> HasLead(MoveAll(b, cs, to, reason), task)
    decreases |cs|
  {
    if cs != [] {
      var init, last := cs[..|cs|-1], cs[|cs|-1];
      var mid := MoveAll(b, init, to, reason);
      MoveAllKeepsLeads(b, init, from, to, reason, task);
      assert cs == init + [last] && last.task !in Tasks(init);
      MoveAllByKey(b, init, from, to, reason, (last.task, from));
      MoveKeepsOneLead(mid, last, to, reason);
      MoveKeepsTheLead(mid, last, to, reason, task);
    }
  }

  // ----- reverse undoes reroute -----

  /** The active assignments up to their reasons: the (task, user, lead) triples. */
  function Triples(b: Board): map<Key, bool> {
    map k | k in b :: b[k].lead
  }

  /** Nothing of this delegation is on the board, and the delegate holds none of the tasks to be moved. */
  predicate Apart(b: Board, delegate: UserId, tag: string, tasks: set<TaskId>) {
    TaggedTasks(b, delegate, tag) == {} && forall task | task in tasks :: (task, delegate) !in b
  }

  /** A reroute of the tasks selected, then a reversal of everything tagged; either listing may come in any order. */
  ghost predicate RoundTrip(b: Board, mid: Board, end: Board, delegator: UserId, delegate: UserId, tag: string,
                            selected: set<TaskId>, out: seq<Candidate>, back: seq<Candidate>) {
    && IsListing(b, delegator, selected, out)
    && mid == MoveAll(b, out, delegate, tag)
    && IsListing(mid, delegate, TaggedTasks(mid, delegate, tag), back)
    && end == MoveAll(mid, back, delegator, "")
  }

  /** What the reversal lists: what was moved, unless held before, and what was already tagged. */
  lemma ReversalLists(b: Board, mid: Board, end: Board, delegator: UserId, delegate: UserId, tag: string,
                      selected: set<TaskId>, out: seq<Candidate>, back: seq<Candidate>, task: TaskId)
    requires delegator != delegate && RoundTrip(b, mid, end, delegator, delegate, tag, selected, out, back)
    ensures task in Tasks(back) <==>
              task in TaggedTasks(b, delegate, tag) || (task in Tasks(out) && (task, delegate) !in b)
  {
    MoveAllByKey(b, out, delegator, delegate, tag, (task, delegate));
    var k := (task, delegate);
    assert task in TaggedTasks(mid, delegate, tag) <==> k in mid && HasPrefix(mid[k].reason, tag);
    assert task in TaggedTasks(b, delegate, tag) <==> k in b && HasPrefix(b[k].reason, tag);
    assert task in Tasks(back) <==> task in TaggedTasks(mid, delegate, tag);
  }

  /** The tag marks reasons by the delegation's id: one id's tag starts another's exactly if the id starts the other id. */
  lemma TagsByTheirIds(id: string, other: string)
    ensures HasPrefix(ReasonTag(other), ReasonTag(id)) <==> id <= other
    ensures |id| == |other| ==> (HasPrefix(ReasonTag(other), ReasonTag(id)) <==> id == other)
  {
    PrefixAdded("delegation:", id, other);
    if id <= other && |id| == |other| {
      assert other[..|id|] == other;
    }
  }

  lemma PrefixAdded(p: string, a: string, b: string)
    ensures p + a <= p + b <==> a <= b
  {
    if a <= b {
      assert p + b == (p + a) + b[|a|..];
    }
    if p + a <= p + b {
      assert b[..|a|] == (p + b)[|p|..|p|+|a|] == (p + a)[|p|..] == a;
    }
  }

  /** A task the delegate holds under another delegation's tag is taken back by the reversal exactly if that id starts with this one. */
  lemma OthersTasksStay(b: Board, mid: Board, end: Board, delegator: UserId, delegate: UserId, id: string, other: string,
                        selected: set<TaskId>, out: seq<Candidate>, back: seq<Candidate>, task: TaskId)
    requires delegator != delegate && RoundTrip(b, mid, end, delegator, delegate, "delegation:" + id, selected, out, back)
    requires (task, delegate) in b && b[(task, delegate)].reason == "delegation:" + other
    ensures task in Tasks(back) <==> id <= other
  {
    ReversalLists(b, mid, end, delegator, delegate, ReasonTag(id), selected, out, back, task);
    TagsByTheirIds(id, other);
    assert (task, delegate) in b && (task, delegate).1 == delegate;
    assert task in TaggedTasks(b, delegate, ReasonTag(id)) <==> HasPrefix(b[(task, delegate)].reason, ReasonTag(id));
  }

  lemma TripleRestored(b: Board, mid: Board, end: Board, delegator: UserId, delegate: UserId, tag: string,
                       selected: set<TaskId>, out: seq<Candidate>, back: seq<Candidate>, k: Key)
    requires delegator != delegate && RoundTrip(b, mid, end, delegator, delegate, tag, selected, out, back)
    requires Apart(b, delegate, tag, Tasks(out))
    ensures k in end <==> k in b
    ensures k in b ==> end[k].lead == b[k].lead
  {
    ReversalLists(b, mid, end, delegator, delegate, tag, selected, out, back, k.0);
    MoveAllByKey(b, out, delegator, delegate, tag, k);
    MoveAllByKey(b, out, delegator, delegate, tag, (k.0, delegate));
    MoveAllByKey(b, out, delegator, delegate, tag, (k.0, delegator));
    MoveAllByKey(mid, back, delegate, delegator, "", k);
    if k.0 in Tasks(out) {
      assert exists c :: c in out && c.task == k.0;
      assert (k.0, delegator) in b;
    }
  }

  /** Reverse undoes Reroute exactly when nothing of the delegation was there before and no moved task was the delegate's. */
  lemma ReverseUndoesReroute(b: Board, mid: Board, end: Board, delegator: UserId, delegate: UserId, tag: string,
                             selected: set<TaskId>, out: seq<Candidate>, back: seq<Candidate>)
    requires delegator != delegate && RoundTrip(b, mid, end, delegator, delegate, tag, selected, out, back)
    ensures Triples(end) == Triples(b) <==> Apart(b, delegate, tag, Tasks(out))
  {
    if Apart(b, delegate, tag, Tasks(out)) {
      forall k ensures (k in end <==> k in b) && (k in b ==> end[k].lead == b[k].lead) {
        TripleRestored(b, mid, end, delegator, delegate, tag, selected, out, back, k);
      }
    } else if task :| task in Tasks(out) && (task, delegate) in b {
      HeldTaskIsLost(b, mid, end, delegator, delegate, tag, selected, out, back, task);
    } else {
      var task :| task in TaggedTasks(b, delegate, tag);
      ReversalLists(b, mid, end, delegator, delegate, tag, selected, out, back, task);
      MoveAllByKey(mid, back, delegate, delegator, "", (task, delegate));
      assert (task, delegate) in Triples(b) && (task, delegate) !in Triples(end);
    }
  }

  /** A moved task the delegate held already stays with the delegate: the adopted assignment has no tag to find it by. */
  lemma HeldTaskIsLost(b: Board, mid: Board, end: Board, delegator: UserId, delegate: UserId, tag: string,
                       selected: set<TaskId>, out: seq<Candidate>, back: seq<Candidate>, task: TaskId)
    requires delegator != delegate && RoundTrip(b, mid, end, delegator, delegate, tag, selected, out, back)
    requires task in Tasks(out) && (task, delegate) in b
    ensures Triples(end) != Triples(b)
  {
    ReversalLists(b, mid, end, delegator, delegate, tag, selected, out, back, task);
    MoveAllByKey(b, out, delegator, delegate, tag, (task, delegator));
    MoveAllByKey(mid, back, delegate, delegator, "", (task, delegator));
    MoveAllByKey(mid, back, delegate, delegator, "", (task, delegate));
    assert (task, delegator) in Triples(b) && (task, delegate) in Triples(b);
    if task in Tasks(back) {
      assert (task, delegate) !in Triples(end);
    } else {
      assert (task, delegator) !in Triples(end);
    }
  }

  // ----- reassigning a delegate's tasks without adoption -----

  /** One row of a delegate's replacement: when the new delegate holds the task already, the row is vacated and that is all. */
  function ReplaceDelegate(b: Board, k: Key, to: UserId): Board
    requires k in b
  {
    var vacated := b - {k};
    if (k.0, to) in vacated then vacated else vacated[(k.0, to) := b[k]]
  }

  /** Unlike a reroute, a replacement leaves a task without its lead exactly when the lead goes to one who held the task. */
  lemma ReplaceDelegateKeepsTheLead(b: Board, k: Key, to: UserId)
    requires OneLead(b) && k in b && Leads(b, k.0, k.1)
    ensures HasLead(ReplaceDelegate(b, k, to), k.0) <==> k.1 == to || (k.0, to) !in b
  {
    var d := ReplaceDelegate(b, k, to);
    if k.1 == to || (k.0, to) !in b {
      assert Leads(d, k.0, to);
    } else {
      forall u ensures !Leads(d, k.0, u) {
        assert Leads(d, k.0, u) ==> Leads(b, k.0, u);
      }
    }
  }
}
