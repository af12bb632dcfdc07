/**
 Which rows of a delegation a candidate may take: one batched question for the distinct (department, level) pairs,
 read back row by row.
 */
module Eligibility {
  import opened Wrappers

  datatype Pair = Pair(department: string, level: string)

  /** A task's row; without a level when its compiled plan is unreadable or has no stage for the task. */
  datatype Row = Row(task: string, department: string, level: Option<string>)

  datatype Answer = Eligible | Ineligible | Unreadable

  datatype Result<T> = Ok(value: T) | Failed

  predicate Resolves(r: Row) {
    r.level.Some?
  }

  function PairOf(r: Row): Pair
    requires Resolves(r)
  {
    Pair(r.department, r.level.value)
  }

  function Resolved(rows: seq<Row>): (kept: seq<Row>)
    ensures forall r | r in kept :: Resolves(r) && r in rows
  {
    if rows == [] then []
    else
      var last := rows[|rows|-1];
      Resolved(rows[..|rows|-1]) + if Resolves(last) then [last] else []
  }

  /** The pointwise check: each row asks for itself. */
  predicate MayTake(answer: Pair -> Answer, r: Row) {
    Resolves(r) && answer(PairOf(r)) == Eligible
  }

  function MayTakeOf(answer: Pair -> Answer, rows: seq<Row>): seq<Row> {
    if rows == [] then []
    else
      var last := rows[|rows|-1];
      MayTakeOf(answer, rows[..|rows|-1]) + if MayTake(answer, last) then [last] else []
  }

  lemma MayTakeOfAppended(answer: Pair -> Answer, rows: seq<Row>, r: Row)
    ensures MayTakeOf(answer, rows + [r]) == MayTakeOf(answer, rows) + if MayTake(answer, r) then [r] else []
  {
    assert (rows + [r])[..|rows|] == rows;
  }

  /** Leaving out the unreadable rows first changes nothing. */
  lemma {:induction false} ResolvedFirst(answer: Pair -> Answer, rows: seq<Row>)
    ensures MayTakeOf(answer, Resolved(rows)) == MayTakeOf(answer, rows)
  {
    if rows != [] {
      var init, last := rows[..|rows|-1], rows[|rows|-1];
      ResolvedFirst(answer, init);
      assert rows == init + [last];
      MayTakeOfAppended(answer, init, last);
      if Resolves(last) {
        assert Resolved(rows) == Resolved(init) + [last];
        MayTakeOfAppended(answer, Resolved(init), last);
      } else {
        assert Resolved(rows) == Resolved(init);
      }
    }
  }

  /** The rows returned, as positions among the rows asked about: in order, and exactly those that may be taken. */
  lemma {:induction false} MayTakeInOrder(answer: Pair -> Answer, rows: seq<Row>) returns (at: seq<nat>)
    ensures |at| == |MayTakeOf(answer, rows)|
    ensures forall i | 0 <= i < |at| :: at[i] < |rows| && rows[at[i]] == MayTakeOf(answer, rows)[i]
    ensures forall i, j | 0 <= i < j < |at| :: at[i] < at[j]
    ensures forall k | 0 <= k < |rows| ::
              k in at <==> rows[k].level.Some? && answer(Pair(rows[k].department, rows[k].level.value)) == Eligible
  {
    at := [];
    if rows != [] {
      var init := rows[..|rows|-1];
      var before := MayTakeInOrder(answer, init);
      at := before;
      if MayTake(answer, rows[|rows|-1]) {
        at := before + [|rows| - 1];
      }
      forall k | 0 <= k < |rows| ensures k in at <==> MayTake(answer, rows[k]) {
        if k < |init| {
          assert rows[k] == init[k];
          assert k in at <==> k in before;
        } else {
          assert k !in before;
        }
      }
    }
  }

  ghost predicate Distinct(pairs: seq<Pair>) {
    forall i, j | 0 <= i < j < |pairs| :: pairs[i] != pairs[j]
  }

  /** The row asks about its own department, at the level its plan requires of its task. */
  predicate Asks(r: Row, p: Pair) {
    r.level == Some(p.level) && r.department == p.department
  }

  function Pairs(rows: seq<Row>): set<Pair> {
    set r | r in rows && Resolves(r) :: PairOf(r)
  }

  predicate SomeUnreadable(answer: Pair -> Answer, rows: seq<Row>) {
    exists r :: r in rows && Resolves(r) && answer(PairOf(r)) == Unreadable
  }

  /** The eligibility service: one call answers a list of questions in order, or fails as a whole. */
  class Checker {
    const answer: Pair -> Answer
    const down: bool
    ghost var asked: seq<Pair>

    constructor (answers: Pair -> Answer, unavailable: bool)
      ensures answer == answers && down == unavailable && asked == []
    {
      answer, down, asked := answers, unavailable, [];
    }

    method CheckBatch(requests: seq<Pair>) returns (r: Result<seq<Answer>>)
      modifies this
      ensures asked == old(asked) + requests
      ensures down ==> r == Failed
      ensures !down ==> r.Ok? && |r.value| == |requests| && forall i | 0 <= i < |requests| :: r.value[i] == answer(requests[i])
    {
      asked := asked + requests;
      if down {
        return Failed;
      }
      return Ok(seq(|requests|, i requires 0 <= i < |requests| => answer(requests[i])));
    }
  }

  lemma OneMoreRow(rows: seq<Row>, i: nat)
    requires i < |rows|
    ensures Resolved(rows[..i+1]) == Resolved(rows[..i]) + if Resolves(rows[i]) then [rows[i]] else []
    ensures Pairs(rows[..i+1]) == Pairs(rows[..i]) + if Resolves(rows[i]) then {PairOf(rows[i])} else {}
  {
    assert rows[..i+1] == rows[..i] + [rows[i]];
    assert rows[..i+1][..i] == rows[..i];
  }

  /** The distinct pairs of the rows, each with its place in the list of questions. */
  method CollectPairs(rows: seq<Row>) returns (requests: seq<Pair>, index: map<Pair, nat>, resolved: seq<Row>)
    ensures resolved == Resolved(rows)
    ensures Distinct(requests) && Indexed(rows, requests, index)
    ensures requests == [] <==> resolved == []
  {
    requests, index, resolved := [], map[], [];
    var i := 0;
    while i < |rows|
      invariant i <= |rows| && resolved == Resolved(rows[..i])
      invariant Distinct(requests) && index.Keys == Pairs(rows[..i])
      invariant forall p | p in requests :: p in index
      invariant requests == [] <==> resolved == []
      invariant forall p | p in index :: index[p] < |requests| && requests[index[p]] == p
    {
      var row := rows[i];
      OneMoreRow(rows, i);
      if Resolves(row) {
        var pair := PairOf(row);
        if pair !in index {
          index := index[pair := |requests|];
          requests := requests + [pair];
        }
        resolved := resolved + [row];
      }
      i := i + 1;
    }
    assert rows[..i] == rows;
  }

  /** The answers are the service's own to the questions asked. */
  predicate AnswersTo(answer: Pair -> Answer, requests: seq<Pair>, answers: seq<Answer>) {
    |answers| == |requests| && forall i | 0 <= i < |requests| :: answers[i] == answer(requests[i])
  }

  predicate Indexed(rows: seq<Row>, requests: seq<Pair>, index: map<Pair, nat>) {
    && index.Keys == Pairs(rows)
    && (forall p | p in requests :: p in Pairs(rows))
    && (forall p | p in index :: index[p] < |requests| && requests[index[p]] == p)
  }

  lemma UnreadableAnswer(answer: Pair -> Answer, rows: seq<Row>, requests: seq<Pair>, index: map<Pair, nat>, answers: seq<Answer>)
    requires AnswersTo(answer, requests, answers) && Indexed(rows, requests, index)
    ensures Unreadable in answers <==> SomeUnreadable(answer, rows)
  {
    if Unreadable in answers {
      var i :| 0 <= i < |answers| && answers[i] == Unreadable;
      assert requests[i] in Pairs(rows);
    }
    forall row | row in rows && Resolves(row) ensures answer(PairOf(row)) in answers {
      assert PairOf(row) in Pairs(rows);
      assert answers[index[PairOf(row)]] == answer(PairOf(row));
    }
  }

  /** Each kept row reads the answer to its own pair. */
  method ReadAnswers(ghost answer: Pair -> Answer, ghost requests: seq<Pair>, rows: seq<Row>, index: map<Pair, nat>,
                     resolved: seq<Row>, answers: seq<Answer>) returns (out: seq<Row>)
    requires AnswersTo(answer, requests, answers) && Indexed(rows, requests, index)
    requires forall row | row in resolved :: Resolves(row) && row in rows
    ensures out == MayTakeOf(answer, resolved)
  {
    out := [];
    var i := 0;
    while i < |resolved|
      invariant i <= |resolved| && out == MayTakeOf(answer, resolved[..i])
    {
      var row := resolved[i];
      assert row in rows && PairOf(row) in Pairs(rows);
      assert resolved[..i+1] == resolved[..i] + [row];
      MayTakeOfAppended(answer, resolved[..i], row);
      if answers[index[PairOf(row)]] == Eligible {
        out := out + [row];
      }
      i := i + 1;
    }
    assert resolved[..i] == resolved;
  }

  /** The batched check returns what the pointwise check would, asking each distinct pair once, and nothing about no rows. */
  method EligibleCandidates(checker: Checker, rows: seq<Row>) returns (r: Result<seq<Row>>, ghost questions: seq<Pair>)
    modifies checker
    ensures checker.asked == old(checker.asked) + questions && Distinct(questions)
    ensures forall p :: p in questions <==> exists row :: row in rows && Asks(row, p)
    ensures r.Ok? <==> Pairs(rows) == {} || (!checker.down && !SomeUnreadable(checker.answer, rows))
    ensures r.Ok? ==> r.value == MayTakeOf(checker.answer, rows)
  {
    var requests, index, resolved := CollectPairs(rows);
    ResolvedFirst(checker.answer, rows);
    questions := requests;
    QuestionsAreThePairs(rows, requests, index);
    PairsAreAsked(rows);
    if |resolved| == 0 {
      return Ok([]), questions;
    }
    var answers := checker.CheckBatch(requests);
    assert requests[0] in Pairs(rows);
    if answers.Failed? {
      return Failed, questions;
    }
    UnreadableAnswer(checker.answer, rows, requests, index, answers.value);
    if Unreadable in answers.value {
      return Failed, questions;
    }
    var out := ReadAnswers(checker.answer, requests, rows, index, resolved, answers.value);
    return Ok(out), questions;
  }

  lemma PairsAreAsked(rows: seq<Row>)
    ensures forall p :: p in Pairs(rows) <==> exists row :: row in rows && Asks(row, p)
  {
    forall row | row in rows && Resolves(row) ensures Asks(row, PairOf(row)) {
    }
    forall row, p | row in rows && Asks(row, p) ensures p in Pairs(rows) {
      assert Resolves(row) && PairOf(row) == p;
    }
  }

  lemma QuestionsAreThePairs(rows: seq<Row>, requests: seq<Pair>, index: map<Pair, nat>)
    requires Indexed(rows, requests, index)
    ensures forall p :: p in requests <==> p in Pairs(rows)
    ensures requests == [] ==> Pairs(rows) == {}
  {
    forall p | p in Pairs(rows) ensures p in requests {
      assert requests[index[p]] == p;
    }
  }
}
