/**
 The workflows a delegate's assignments touch, listed once each in id order and handed out in pages, each page
 starting after the last id of the one before.
 */
module Paging {
  import opened Wrappers

  /** A workflow id is its sixteen bytes read as one number, so that byte order is number order. */
  type WorkflowId = nat

  datatype Workflow = Workflow(id: WorkflowId, createdAt: nat)

  datatype Page = Page(ids: seq<WorkflowId>, next: Option<Workflow>)

  predicate Ordered(ws: seq<Workflow>) {
    forall i, j | 0 <= i < j < |ws| :: ws[i].id < ws[j].id
  }

  predicate Increasing(ids: seq<WorkflowId>) {
    forall i, j | 0 <= i < j < |ids| :: ids[i] < ids[j]
  }

  function IdsOf(ws: seq<Workflow>): (ids: seq<WorkflowId>)
    ensures |ids| == |ws| && forall i | 0 <= i < |ws| :: ids[i] == ws[i].id
  {
    seq(|ws|, i requires 0 <= i < |ws| => ws[i].id)
  }

  predicate Past(cursor: Option<Workflow>, id: WorkflowId) {
    cursor.None? || cursor.value.id < id
  }

  /** What is left of a list after a cursor, whether or not the cursor's own workflow is still there. */
  function Rest(ws: seq<Workflow>, cursor: Option<Workflow>): seq<Workflow> {
    if ws == [] || Past(cursor, ws[0].id) then ws else Rest(ws[1..], cursor)
  }

  function PageOf(ws: seq<Workflow>, cursor: Option<Workflow>, limit: int): Page {
    var rest := Rest(ws, cursor);
    if limit <= 0 || |rest| <= limit then Page(IdsOf(rest), None)
    else Page(IdsOf(rest[..limit]), Some(rest[limit-1]))
  }

  lemma {:induction false} RestIsTheSuffixPast(ws: seq<Workflow>, cursor: Option<Workflow>) returns (k: nat)
    requires Ordered(ws)
    ensures k <= |ws| && Rest(ws, cursor) == ws[k..]
    ensures forall i | 0 <= i < |ws| :: Past(cursor, ws[i].id) <==> k <= i
  {
    if ws == [] || Past(cursor, ws[0].id) {
      k := 0;
    } else {
      var j := RestIsTheSuffixPast(ws[1..], cursor);
      k := j + 1;
      forall i | 0 <= i < |ws| ensures Past(cursor, ws[i].id) <==> k <= i {
        assert i > 0 ==> ws[1..][i-1] == ws[i];
      }
    }
  }

  /** A page is a stretch of the list from the first id past its cursor; unless it is the last, the next cursor is its end. */
  lemma PageIsAStretch(ws: seq<Workflow>, cursor: Option<Workflow>, limit: int) returns (k: nat, n: nat)
    requires Ordered(ws)
    ensures k + n <= |ws| && PageOf(ws, cursor, limit).ids == IdsOf(ws[k..k+n])
    ensures forall i | 0 <= i < |ws| :: Past(cursor, ws[i].id) <==> k <= i
    ensures limit > 0 ==> n <= limit
    ensures PageOf(ws, cursor, limit).next == if limit <= 0 || k + limit >= |ws| then None else Some(ws[k+n-1])
    ensures if PageOf(ws, cursor, limit).next.None? then k + n == |ws| else 0 < n == limit
  {
    k := RestIsTheSuffixPast(ws, cursor);
    n := if limit <= 0 || |ws| - k <= limit then |ws| - k else limit;
    assert ws[k..][..n] == ws[k..k+n];
  }

  predicate Listed(ws: seq<Workflow>, id: WorkflowId) {
    exists w :: w in ws && w.id == id
  }

  /** What a page returns is listed, past its cursor and not past the next. */
  lemma PageReturnsListed(ws: seq<Workflow>, cursor: Option<Workflow>, limit: int, i: nat)
    requires Ordered(ws) && i < |PageOf(ws, cursor, limit).ids|
    ensures var p := PageOf(ws, cursor, limit);
      Listed(ws, p.ids[i]) && Past(cursor, p.ids[i]) && (p.next.Some? ==> p.ids[i] <= p.next.value.id)
  {
    var k, n := PageIsAStretch(ws, cursor, limit);
    assert ws[k+i] in ws;
  }

  /** What is listed past the cursor is returned or past the next cursor. */
  lemma PageMissesNone(ws: seq<Workflow>, cursor: Option<Workflow>, limit: int, id: WorkflowId)
    requires Ordered(ws) && Listed(ws, id) && Past(cursor, id)
    ensures var p := PageOf(ws, cursor, limit); id in p.ids || (p.next.Some? && Past(p.next, id))
  {
    var k, n := PageIsAStretch(ws, cursor, limit);
    var w :| w in ws && w.id == id;
    var j :| 0 <= j < |ws| && ws[j] == w;
    if j < k + n {
      assert PageOf(ws, cursor, limit).ids[j-k] == id;
    }
  }

  // ----- walking the pages of a list that changes between calls -----

  datatype Call = Call(listed: seq<Workflow>, limit: int)

  /** What a walk returns: from no cursor, each call goes on from the cursor before, until there is none. */
  function Walk(calls: seq<Call>, cursor: Option<Workflow>): seq<WorkflowId> {
    if calls == [] then []
    else
      var p := PageOf(calls[0].listed, cursor, calls[0].limit);
      if p.next.None? then p.ids else p.ids + Walk(calls[1..], p.next)
  }

  /** The walk reaches the empty cursor. */
  predicate Completes(calls: seq<Call>, cursor: Option<Workflow>) {
    calls != [] && var p := PageOf(calls[0].listed, cursor, calls[0].limit); p.next.None? || Completes(calls[1..], p.next)
  }

  lemma IncreasingJoined(a: seq<WorkflowId>, b: seq<WorkflowId>, between: WorkflowId)
    requires Increasing(a) && Increasing(b)
    requires (forall i | 0 <= i < |a| :: a[i] <= between) && (forall j | 0 <= j < |b| :: between < b[j])
    ensures Increasing(a + b)
  {
  }

  /** Ids come in strictly increasing order over the whole walk, so none comes twice, each past the first cursor and listed by some call. */
  lemma {:induction false} WalkIncreases(calls: seq<Call>, cursor: Option<Workflow>)
    requires forall call | call in calls :: Ordered(call.listed)
    ensures Increasing(Walk(calls, cursor))
    ensures forall id | id in Walk(calls, cursor) :: Past(cursor, id) && exists call :: call in calls && Listed(call.listed, id)
  {
    if calls != [] {
      var first := calls[0];
      var p := PageOf(first.listed, cursor, first.limit);
      var k, n := PageIsAStretch(first.listed, cursor, first.limit);
      forall i | 0 <= i < |p.ids|
        ensures Past(cursor, p.ids[i]) && Listed(first.listed, p.ids[i]) && (p.next.Some? ==> p.ids[i] <= p.next.value.id)
      {
        PageReturnsListed(first.listed, cursor, first.limit, i);
      }
      if p.next.Some? {
        var later := Walk(calls[1..], p.next);
        WalkIncreases(calls[1..], p.next);
        forall j | 0 <= j < |later| ensures p.next.value.id < later[j] {
          assert later[j] in later;
        }
        IncreasingJoined(p.ids, later, p.next.value.id);
      }
    }
  }

  /** A workflow that every call of a complete walk lists is returned; with the order above, exactly once. */
  lemma {:induction false} WalkReturnsWhatStays(calls: seq<Call>, cursor: Option<Workflow>, id: WorkflowId)
    requires forall call | call in calls :: Ordered(call.listed) && Listed(call.listed, id)
    requires Completes(calls, cursor) && Past(cursor, id)
    ensures id in Walk(calls, cursor)
  {
    var first := calls[0];
    var p := PageOf(first.listed, cursor, first.limit);
    PageMissesNone(first.listed, cursor, first.limit, id);
    if id !in p.ids {
      WalkReturnsWhatStays(calls[1..], p.next, id);
    }
  }

  /** The walk of a client that has seen nothing yet: each id once, in order, nothing that stayed left out. */
  lemma WalkIsExact(calls: seq<Call>, id: WorkflowId)
    requires forall call | call in calls :: Ordered(call.listed)
    requires Completes(calls, None)
    ensures Increasing(Walk(calls, None))
    ensures (forall call | call in calls :: Listed(call.listed, id)) ==> multiset(Walk(calls, None))[id] == 1
    ensures (forall call | call in calls :: !Listed(call.listed, id)) ==> id !in Walk(calls, None)
  {
    WalkIncreases(calls, None);
    if forall call | call in calls :: Listed(call.listed, id) {
      WalkReturnsWhatStays(calls, None, id);
      OnceInOrder(Walk(calls, None), id);
    }
  }

  lemma {:induction false} OnceInOrder(ids: seq<WorkflowId>, id: WorkflowId)
    requires Increasing(ids) && id in ids
    ensures multiset(ids)[id] == 1
  {
    var i :| 0 <= i < |ids| && ids[i] == id;
    assert ids == ids[..i] + [id] + ids[i+1..];
    assert id !in ids[..i] && id !in ids[i+1..];
  }

  /** Over a list that does not change, the pages put together are what was left after the cursor. */
  lemma {:induction false} WalkOfAnUnchangedList(calls: seq<Call>, ws: seq<Workflow>, cursor: Option<Workflow>)
    requires Ordered(ws) && Completes(calls, cursor) && forall call | call in calls :: call.listed == ws
    ensures Walk(calls, cursor) == IdsOf(Rest(ws, cursor))
  {
    var first := calls[0];
    var p, rest := PageOf(ws, cursor, first.limit), Rest(ws, cursor);
    if p.next.Some? {
      WalkOfAnUnchangedList(calls[1..], ws, p.next);
      RestAfterAPage(ws, cursor, first.limit);
      IdsOfSplit(rest, first.limit);
    }
  }

  lemma IdsOfSplit(ws: seq<Workflow>, n: nat)
    requires n <= |ws|
    ensures IdsOf(ws) == IdsOf(ws[..n]) + IdsOf(ws[n..])
  {
  }

  lemma RestAfterAPage(ws: seq<Workflow>, cursor: Option<Workflow>, limit: int)
    requires Ordered(ws) && 0 < limit < |Rest(ws, cursor)|
    ensures Rest(ws, Some(Rest(ws, cursor)[limit-1])) == Rest(ws, cursor)[limit..]
  {
    var k := RestIsTheSuffixPast(ws, cursor);
    var next := Some(ws[k+limit-1]);
    var m := RestIsTheSuffixPast(ws, next);
    assert Past(next, ws[k+limit].id) && !Past(next, ws[k+limit-1].id);
    assert m == k + limit;
  }

  /** From the start, over an unchanged list, the whole list; and one call more than it has workflows is always enough. */
  lemma UnchangedListInFull(calls: seq<Call>, ws: seq<Workflow>)
    requires Ordered(ws) && |ws| < |calls| && forall call | call in calls :: call.listed == ws
    ensures Completes(calls, None) && Walk(calls, None) == IdsOf(ws)
  {
    EnoughCallsComplete(calls, ws, None);
    WalkOfAnUnchangedList(calls, ws, None);
    assert Rest(ws, None) == ws;
  }

  lemma {:induction false} EnoughCallsComplete(calls: seq<Call>, ws: seq<Workflow>, cursor: Option<Workflow>)
    requires Ordered(ws) && |Rest(ws, cursor)| < |calls| && forall call | call in calls :: call.listed == ws
    ensures Completes(calls, cursor)
  {
    var p := PageOf(ws, cursor, calls[0].limit);
    if p.next.Some? {
      RestAfterAPage(ws, cursor, calls[0].limit);
      EnoughCallsComplete(calls[1..], ws, p.next);
    }
  }

  // ----- the service's own loops -----

  /** First index past the cursor, by binary search as the sort package does it. */
  method Search(ws: seq<Workflow>, after: Workflow) returns (k: nat)
    requires Ordered(ws)
    ensures k <= |ws| && forall i | 0 <= i < |ws| :: after.id < ws[i].id <==> k <= i
  {
    var lo, hi := 0, |ws|;
    while lo < hi
      invariant 0 <= lo <= hi <= |ws|
      invariant forall i | 0 <= i < lo :: ws[i].id <= after.id
      invariant forall i | hi <= i < |ws| :: after.id < ws[i].id
    {
      var mid := (lo + hi) / 2;
      if after.id < ws[mid].id {
        hi := mid;
      } else {
        lo := mid + 1;
      }
    }
    k := lo;
  }

  method PageAffectedWorkflows(affected: seq<Workflow>, cursor: Option<Workflow>, pageLimit: int) returns (page: Page)
    requires Ordered(affected)
    ensures page == PageOf(affected, cursor, pageLimit)
  {
    var remaining := affected;
    ghost var suffix := RestIsTheSuffixPast(affected, cursor);
    if cursor.Some? {
      var k := Search(affected, cursor.value);
      assert k == suffix by {
        assert k < |affected| ==> Past(cursor, affected[k].id);
        assert suffix < |affected| ==> Past(cursor, affected[suffix].id);
      }
      remaining := affected[k..];
    } else {
      assert suffix == 0 by {
        assert suffix > 0 ==> Past(cursor, affected[0].id);
      }
    }
    var limit := pageLimit;
    if limit <= 0 || limit > |remaining| {
      limit := |remaining|;
    }
    var ids: seq<WorkflowId> := [];
    for i := 0 to limit
      invariant ids == IdsOf(remaining[..i])
    {
      ids := ids + [remaining[i].id];
    }
    assert remaining[..limit] == remaining || limit < |remaining|;
    if limit == |remaining| {
      return Page(ids, None);
    }
    return Page(ids, Some(remaining[limit-1]));
  }

  /** The task an assignment belongs to, unless it cannot be read. */
  datatype TaskRead = Unreadable | Read(workflow: Workflow)

  predicate AllReadable(tasks: seq<TaskRead>) {
    forall t | t in tasks :: t.Read?
  }

  predicate FirstAt(tasks: seq<TaskRead>, w: Workflow, i: nat)
    requires i < |tasks|
  {
    tasks[i] == Read(w) && forall j | 0 <= j < i :: tasks[j].Read? ==> tasks[j].workflow.id != w.id
  }

  /** The first assignment of a workflow sets its creation time. */
  predicate FirstOf(tasks: seq<TaskRead>, w: Workflow) {
    exists i | 0 <= i < |tasks| :: FirstAt(tasks, w, i)
  }

  /** Keeps a list ordered: the place of a new id among those already there. */
  function Insert(ws: seq<Workflow>, w: Workflow): (r: seq<Workflow>)
    requires Ordered(ws) && forall x | x in ws :: x.id != w.id
    ensures Ordered(r)
    ensures forall x :: x in r <==> x == w || x in ws
  {
    if ws == [] || w.id < ws[0].id then
      var r := [w] + ws;
      assert forall x :: x in r <==> x == w || x in ws;
      r
    else
      var later := Insert(ws[1..], w);
      var r := [ws[0]] + later;
      assert ws == [ws[0]] + ws[1..];
      assert Ordered(r) by {
        forall i, j | 0 <= i < j < |r| ensures r[i].id < r[j].id {
          assert r[j] == later[j-1] && later[j-1] in later;
        }
      }
      r
  }

  method SortById(ws: seq<Workflow>) returns (sorted: seq<Workflow>)
    requires forall i, j | 0 <= i < j < |ws| :: ws[i].id != ws[j].id
    ensures Ordered(sorted) && forall w :: w in sorted <==> w in ws
  {
    sorted := [];
    for i := 0 to |ws|
      invariant Ordered(sorted) && forall w :: w in sorted <==> w in ws[..i]
    {
      sorted := Insert(sorted, ws[i]);
    }
  }

  /** Every workflow of the assignments once, in id order; any unreadable task fails the whole list. */
  method AffectedWorkflows(tasks: seq<TaskRead>) returns (affected: Option<seq<Workflow>>)
    ensures affected.Some? <==> AllReadable(tasks)
    ensures affected.Some? ==> Ordered(affected.value) && forall w :: w in affected.value <==> FirstOf(tasks, w)
  {
    var seen: set<WorkflowId> := {};
    var found: seq<Workflow> := [];
    var i := 0;
    while i < |tasks|
      invariant i <= |tasks| && AllReadable(tasks[..i])
      invariant forall a, b | 0 <= a < b < |found| :: found[a].id != found[b].id
      invariant forall id :: id in seen <==> exists j | 0 <= j < i :: tasks[j].Read? && tasks[j].workflow.id == id
      invariant forall w | w in found :: w.id in seen
      invariant forall w :: w in found <==> FirstOf(tasks[..i], w)
    {
      if tasks[i].Unreadable? {
        assert tasks[i] in tasks;
        return None;
      }
      var w := tasks[i].workflow;
      FirstOfExtended(tasks, i);
      if w.id !in seen {
        seen := seen + {w.id};
        found := found + [w];
      }
      i := i + 1;
    }
    assert tasks[..i] == tasks;
    var sorted := SortById(found);
    return Some(sorted);
  }

  lemma FirstOfPrefix(tasks: seq<TaskRead>, n: nat, w: Workflow)
    requires n <= |tasks|
    ensures FirstOf(tasks[..n], w) <==> exists i | 0 <= i < n :: FirstAt(tasks, w, i)
  {
    forall i | 0 <= i < n ensures FirstAt(tasks[..n], w, i) <==> FirstAt(tasks, w, i) {
    }
  }

  /** One more readable task adds its workflow if no task before it had the id. */
  lemma FirstOfExtended(tasks: seq<TaskRead>, i: nat)
    requires i < |tasks|
    ensures forall w :: FirstOf(tasks[..i+1], w) <==> FirstOf(tasks[..i], w) || FirstAt(tasks, w, i)
  {
    forall w ensures FirstOf(tasks[..i+1], w) <==> FirstOf(tasks[..i], w) || FirstAt(tasks, w, i) {
      FirstOfPrefix(tasks, i, w);
      FirstOfPrefix(tasks, i + 1, w);
    }
  }
}
