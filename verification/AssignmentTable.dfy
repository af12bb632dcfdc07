/**
 The assignment table as rows that are never deleted, with at most one active row for a task and a user, and the
 reconciler's loops over it.
 */
module AssignmentTable {
  import opened Delegation

  datatype Row = Row(task: TaskId, user: UserId, reason: string, lead: bool, active: bool)

  class Table {
    var rows: seq<Row>
    ghost var board: Board
    ghost var rowOf: map<Key, nat>

    /** The active rows are the board: each key has one row, and each active row is its key's. */
    ghost predicate Valid()
      reads this
    {
      && board.Keys == rowOf.Keys
      && (forall k | k in board :: rowOf[k] < |rows| && IsRowFor(rows[rowOf[k]], k, board[k]))
      && (forall i | 0 <= i < |rows| && rows[i].active :: (rows[i].task, rows[i].user) in rowOf && rowOf[(rows[i].task, rows[i].user)] == i)
    }

    constructor ()
      ensures Valid() && board == map[]
    {
      rows, board, rowOf := [], map[], map[];
    }

    method Vacate(row: nat)
      requires Valid() && row < |rows|
      modifies this
      ensures Valid() && |rows| == |old(rows)|
      ensures board == if old(rows)[row].active then old(board) - {(old(rows)[row].task, old(rows)[row].user)} else old(board)
      ensures forall i | 0 <= i < |rows| && i != row :: rows[i] == old(rows)[i]
    {
      if rows[row].active {
        board, rowOf := board - {(rows[row].task, rows[row].user)}, rowOf - {(rows[row].task, rows[row].user)};
      }
      rows := rows[row := rows[row].(active := false)];
    }

    /** Refuses a second active row for a task and a user. */
    method Create(task: TaskId, user: UserId, reason: string, lead: bool) returns (created: bool)
      requires Valid()
      modifies this
      ensures Valid() && |old(rows)| <= |rows|
      ensures created <==> (task, user) !in old(board)
      ensures board == if created then old(board)[(task, user) := Info(lead, reason)] else old(board)
      ensures forall i | 0 <= i < |old(rows)| :: rows[i] == old(rows)[i]
    {
      if exists i | 0 <= i < |rows| :: rows[i].active && rows[i].task == task && rows[i].user == user {
        return false;
      }
      board, rowOf := board[(task, user) := Info(lead, reason)], rowOf[(task, user) := |rows|];
      rows := rows + [Row(task, user, reason, lead, true)];
      return true;
    }

    /** Clears every other lead of the row's task, then sets the row's. */
    method MakeLead(row: nat)
      requires Valid() && row < |rows| && rows[row].active
      modifies this
      ensures Valid() && |rows| == |old(rows)|
      ensures board == SetLead(old(board), old(rows)[row].task, old(rows)[row].user)
      ensures forall i | 0 <= i < |rows| :: rows[i] == old(rows)[i].(lead := rows[i].lead)
      ensures forall i | 0 <= i < |rows| && old(rows)[i].task != old(rows)[row].task :: rows[i] == old(rows)[i]
    {
      var before := rows;
      rows := Relead(before, row);
      board := SetLead(board, before[row].task, before[row].user);
      forall k | k in board ensures IsRowFor(rows[rowOf[k]], k, board[k]) {
        assert IsRowFor(before[rowOf[k]], k, old(board)[k]);
      }
    }

    /** The rows active for a user on the selected tasks whose reason starts with the tag, as they stand. */
    method ListActiveByUser(user: UserId, selected: set<TaskId>, tag: string) returns (cs: seq<Candidate>)
      requires Valid()
      ensures IsListing(board, user, selected * TaggedTasks(board, user, tag), cs)
      ensures RowsListed(cs)
    {
      cs := [];
      var i := 0;
      while i < |rows|
        invariant i <= |rows|
        invariant RowsListed(cs)
        invariant forall c | c in cs :: c.row < i && c.user == user && c.task in selected && HasPrefix(rows[c.row].reason, tag)
        invariant forall a, b | 0 <= a < b < |cs| :: cs[a].row < cs[b].row
        invariant forall j | 0 <= j < i && Wanted(rows[j], user, selected, tag) :: CandidateOf(j) in cs
      {
        if Wanted(rows[i], user, selected, tag) {
          cs := cs + [CandidateOf(i)];
        }
        i := i + 1;
      }
      ListedRowsAreAListing(user, selected, tag, cs);
    }

    function CandidateOf(row: nat): Candidate
      reads this
      requires row < |rows|
    {
      Candidate(row, rows[row].task, rows[row].user, rows[row].lead)
    }

    ghost predicate RowsListed(cs: seq<Candidate>)
      reads this
    {
      forall c | c in cs :: IsListed(c)
    }

    predicate IsListed(c: Candidate)
      reads this
    {
      c.row < |rows| && rows[c.row].active && c == CandidateOf(c.row)
    }

    lemma ListedRowsAreAListing(user: UserId, selected: set<TaskId>, tag: string, cs: seq<Candidate>)
      requires Valid() && RowsListed(cs)
      requires forall c | c in cs :: c.user == user && c.task in selected && HasPrefix(rows[c.row].reason, tag)
      requires forall a, b | 0 <= a < b < |cs| :: cs[a].row < cs[b].row
      requires forall j | 0 <= j < |rows| && Wanted(rows[j], user, selected, tag) :: CandidateOf(j) in cs
      ensures IsListing(board, user, selected * TaggedTasks(board, user, tag), cs)
    {
      forall c | c in cs
        ensures (c.task, user) in board && board[(c.task, user)].lead == c.lead && c.task in TaggedTasks(board, user, tag)
      {
        assert rowOf[(c.task, user)] == c.row && IsRowFor(rows[c.row], (c.task, user), board[(c.task, user)]);
      }
      forall i, j | 0 <= i < j < |cs| ensures cs[i].task != cs[j].task {
        assert cs[i] in cs && cs[j] in cs;
      }
      forall task | task in selected * TaggedTasks(board, user, tag) && (task, user) in board ensures task in Tasks(cs) {
        var j := rowOf[(task, user)];
        assert IsRowFor(rows[j], (task, user), board[(task, user)]);
        assert CandidateOf(j) in cs;
      }
    }

    lemma HeldKeyHasItsRow(k: Key)
      requires Valid() && k in board
      ensures k in rowOf && rowOf[k] < |rows| && rows[rowOf[k]].active && rows[rowOf[k]].task == k.0 && rows[rowOf[k]].user == k.1
    {
      assert IsRowFor(rows[rowOf[k]], k, board[k]);
    }

    /** The user's active row of a task, if any. */
    method FindActive(task: TaskId, user: UserId) returns (found: bool, row: nat)
      requires Valid()
      ensures found <==> (task, user) in board
      ensures found ==> row < |rows| && rows[row].active && rows[row].task == task && rows[row].user == user
    {
      found, row := false, 0;
      if (task, user) in board {
        HeldKeyHasItsRow((task, user));
      }
      while row < |rows|
        invariant row <= |rows|
        invariant forall j | 0 <= j < row :: !(rows[j].active && rows[j].task == task && rows[j].user == user)
      {
        if rows[row].active && rows[row].task == task && rows[row].user == user {
          return true, row;
        }
        row := row + 1;
      }
    }

    /** The delegate already has the task: it keeps that assignment and takes over a lead. */
    method AdoptExistingAssignment(c: Candidate, to: UserId)
      requires Valid() && (c.task, to) in board
      modifies this
      ensures Valid() && |rows| == |old(rows)|
      ensures board == if c.lead then SetLead(old(board), c.task, to) else old(board)
      ensures forall i | 0 <= i < |rows| && old(rows)[i].task != c.task :: rows[i] == old(rows)[i]
    {
      if !c.lead {
        return;
      }
      var found, row := FindActive(c.task, to);
      if found {
        MakeLead(row);
      }
    }

    method MoveRow(c: Candidate, to: UserId, reason: string)
      requires Valid() && IsListed(c)
      modifies this
      ensures Valid() && board == Move(old(board), c, to, reason)
      ensures |old(rows)| <= |rows| && forall i | 0 <= i < |old(rows)| && old(rows)[i].task != c.task :: rows[i] == old(rows)[i]
    {
      Vacate(c.row);
      GiveTo(c, to, reason);
    }

    /** After the vacation: a new assignment, or the one the user already has. */
    method GiveTo(c: Candidate, to: UserId, reason: string)
      requires Valid()
      modifies this
      ensures Valid()
      ensures board ==
                if (c.task, to) !in old(board) then old(board)[(c.task, to) := Info(c.lead, reason)]
                else if c.lead then SetLead(old(board), c.task, to)
                else old(board)
      ensures |old(rows)| <= |rows| && forall i | 0 <= i < |old(rows)| && old(rows)[i].task != c.task :: rows[i] == old(rows)[i]
    {
      var created := Create(c.task, to, reason, c.lead);
      if !created {
        AdoptExistingAssignment(c, to);
      }
    }

    /** Moves one listed row; the rows still to come are of other tasks and stay as they were listed. */
    method MoveNext(c: Candidate, to: UserId, reason: string, ghost later: seq<Candidate>)
      requires Valid() && IsListed(c)
      requires forall d | d in later :: IsListed(d) && d.task != c.task
      modifies this
      ensures Valid() && board == Move(old(board), c, to, reason)
      ensures forall d | d in later :: IsListed(d)
    {
      MoveRow(c, to, reason);
    }

    /** The commit: all rows move, or, when a repository call fails on the way, the transaction leaves the table as it was. */
    method CommitReassignments(cs: seq<Candidate>, to: UserId, reason: string, failsAt: nat) returns (done: bool)
      requires Valid() && RowsListed(cs) && forall i, j | 0 <= i < j < |cs| :: cs[i].task != cs[j].task
      modifies this
      ensures Valid() && (done <==> |cs| <= failsAt)
      ensures board == if done then MoveAll(old(board), cs, to, reason) else old(board)
    {
      var before := rows;
      ghost var boardBefore, rowOfBefore := board, rowOf;
      var i := 0;
      while i < |cs|
        invariant i <= |cs| && i <= failsAt && Valid() && board == MoveAll(old(board), cs[..i], to, reason)
        invariant RowsListed(cs[i..])
      {
        if i == failsAt {
          rows, board, rowOf := before, boardBefore, rowOfBefore;
          return false;
        }
        assert cs[i] in cs[i..];
        assert cs[..i+1][..i] == cs[..i];
        forall c | c in cs[i+1..] ensures c in cs[i..] && c.task != cs[i].task {
        }
        MoveNext(cs[i], to, reason, cs[i+1..]);
        i := i + 1;
      }
      assert cs[..i] == cs;
      return true;
    }

    method Reroute(delegator: UserId, delegate: UserId, delegationId: string, eligible: set<TaskId>, failsAt: nat)
      returns (ghost moved: seq<Candidate>, done: bool)
      requires Valid()
      modifies this
      ensures Valid() && IsListing(old(board), delegator, eligible, moved)
      ensures board == if done then MoveAll(old(board), moved, delegate, ReasonTag(delegationId)) else old(board)
      ensures done <==> |moved| <= failsAt
    {
      var cs := ListActiveByUser(delegator, eligible, "");
      EveryReasonHasTheEmptyPrefix(board, delegator, eligible, cs);
      moved := cs;
      done := CommitReassignments(cs, delegate, ReasonTag(delegationId), failsAt);
    }

    method Reverse(delegator: UserId, delegate: UserId, delegationId: string, eligible: set<TaskId>, failsAt: nat)
      returns (ghost moved: seq<Candidate>, done: bool)
      requires Valid()
      modifies this
      ensures Valid() && IsListing(old(board), delegate, eligible * TaggedTasks(old(board), delegate, ReasonTag(delegationId)), moved)
      ensures board == if done then MoveAll(old(board), moved, delegator, "") else old(board)
      ensures done <==> |moved| <= failsAt
    {
      var cs := ListActiveByUser(delegate, eligible, ReasonTag(delegationId));
      moved := cs;
      done := CommitReassignments(cs, delegator, "", failsAt);
    }
  }

  /** The two statements behind a new lead: every other row of the task loses the flag, then the row gets it. */
  function Relead(rows: seq<Row>, row: nat): (r: seq<Row>)
    requires row < |rows|
    ensures |r| == |rows|
    ensures forall i | 0 <= i < |rows| :: r[i] == rows[i].(lead := if rows[i].task == rows[row].task then i == row else rows[i].lead)
  {
    var cleared := seq(|rows|, i requires 0 <= i < |rows| =>
      if rows[i].task == rows[row].task && i != row then rows[i].(lead := false) else rows[i]);
    cleared[row := cleared[row].(lead := true)]
  }

  predicate IsRowFor(r: Row, k: Key, info: Info) {
    r.active && r.task == k.0 && r.user == k.1 && r.lead == info.lead && r.reason == info.reason
  }

  predicate Wanted(r: Row, user: UserId, selected: set<TaskId>, tag: string) {
    r.active && r.user == user && r.task in selected && HasPrefix(r.reason, tag)
  }

  lemma EveryReasonHasTheEmptyPrefix(b: Board, user: UserId, selected: set<TaskId>, cs: seq<Candidate>)
    requires IsListing(b, user, selected * TaggedTasks(b, user, ""), cs)
    ensures IsListing(b, user, selected, cs)
  {
    forall task | task in selected && (task, user) in b ensures task in Tasks(cs) {
      assert (task, user) in b && task in TaggedTasks(b, user, "");
    }
  }

  /** A reroute and a reversal that both go through put every active (task, user, lead) back where it was. */
  method RerouteThenReverse(table: Table, delegator: UserId, delegate: UserId, delegationId: string,
                            selected: set<TaskId>, eligible: set<TaskId>, rerouteFailsAt: nat, reverseFailsAt: nat)
    returns (ghost moved: seq<Candidate>, ghost back: seq<Candidate>, done: bool)
    requires table.Valid() && delegator != delegate
    requires forall k | k in table.board :: k.0 in eligible
    modifies table
    ensures table.Valid() && IsListing(old(table.board), delegator, selected, moved)
    ensures done <==> |moved| <= rerouteFailsAt && |back| <= reverseFailsAt
    ensures done ==>
              (Triples(table.board) == Triples(old(table.board)) <==>
                 Apart(old(table.board), delegate, ReasonTag(delegationId), Tasks(moved)))
  {
    ghost var b, tag := table.board, ReasonTag(delegationId);
    var rerouted;
    back, done := [], false;
    moved, rerouted := table.Reroute(delegator, delegate, delegationId, selected, rerouteFailsAt);
    if rerouted {
      ghost var mid := table.board;
      back, done := table.Reverse(delegator, delegate, delegationId, eligible, reverseFailsAt);
      if done {
        forall k | k in mid ensures k.0 in eligible {
          MoveAllByKey(b, moved, delegator, delegate, tag, k);
          assert forall c | c in moved :: (c.task, delegator) in b;
        }
        assert eligible * TaggedTasks(mid, delegate, tag) == TaggedTasks(mid, delegate, tag);
        ReverseUndoesReroute(b, mid, table.board, delegator, delegate, tag, selected, moved, back);
      }
    }
  }
}
