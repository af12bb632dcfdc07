/**
 The entries a worker is working on: a claim has no deadline until its execution lease is taken, and from then on
 it is kept alive no longer than the lease.
 */
module Inflight {
  import opened Wrappers

  type EntryId = string

  datatype Delivery = Delivery(id: EntryId, deliveries: nat)

  /** The deliveries of a batch that a worker holding `held` takes up: of each entry it does not hold, the first. */
  function TakenUp(held: set<EntryId>, batch: seq<Delivery>): seq<Delivery>
    decreases |batch|
  {
    if batch == [] then []
    else if batch[0].id in held then TakenUp(held, batch[1..])
    else [batch[0]] + TakenUp(held + {batch[0].id}, batch[1..])
  }

  function Ids(batch: seq<Delivery>): set<EntryId> {
    set d | d in batch :: d.id
  }

  ghost predicate DistinctIds(batch: seq<Delivery>) {
    forall i, j | 0 <= i < j < |batch| :: batch[i].id != batch[j].id
  }

  /** Every entry of the batch is taken up once if it was not held, and not at all if it was. */
  lemma {:induction false} TakenUpOnce(held: set<EntryId>, batch: seq<Delivery>)
    ensures DistinctIds(TakenUp(held, batch))
    ensures Ids(TakenUp(held, batch)) == Ids(batch) - held
    ensures forall d | d in TakenUp(held, batch) :: d in batch
    decreases |batch|
  {
    if batch != [] {
      var rest := if batch[0].id in held then held else held + {batch[0].id};
      TakenUpOnce(rest, batch[1..]);
      var later := TakenUp(rest, batch[1..]);
      assert batch == [batch[0]] + batch[1..];
      assert Ids(batch) == {batch[0].id} + Ids(batch[1..]);
      if batch[0].id !in held {
        var all := TakenUp(held, batch);
        assert all == [batch[0]] + later;
        assert Ids(all) == {batch[0].id} + Ids(later);
        forall i, j | 0 <= i < j < |all| ensures all[i].id != all[j].id {
          assert all[j] == later[j-1] && later[j-1].id in Ids(later);
        }
      }
    }
  }

  lemma OneMoreDelivery(batch: seq<Delivery>, i: nat)
    requires i < |batch|
    ensures Ids(batch[..i+1]) == Ids(batch[..i]) + {batch[i].id}
  {
    assert batch[..i+1] == batch[..i] + [batch[i]];
  }

  lemma TakenUpStep(claimed: seq<Delivery>, held: set<EntryId>, batch: seq<Delivery>, i: nat)
    requires i < |batch|
    ensures claimed + TakenUp(held, batch[i..]) ==
              if batch[i].id in held then claimed + TakenUp(held, batch[i+1..])
              else claimed + [batch[i]] + TakenUp(held + {batch[i].id}, batch[i+1..])
  {
    assert batch[i..][1..] == batch[i+1..];
  }

  class InflightSet {
    var deadlines: map<EntryId, Option<nat>>

    constructor ()
      ensures deadlines == map[]
    {
      deadlines := map[];
    }

    method Claim(id: EntryId) returns (claimed: bool)
      modifies this
      ensures claimed <==> id !in old(deadlines)
      ensures deadlines == if claimed then old(deadlines)[id := None] else old(deadlines)
    {
      if id in deadlines {
        return false;
      }
      deadlines := deadlines[id := None];
      return true;
    }

    method SetDeadline(id: EntryId, deadline: nat)
      modifies this
      ensures deadlines == old(deadlines)[id := Some(deadline)]
    {
      deadlines := deadlines[id := Some(deadline)];
    }

    method Remove(id: EntryId)
      modifies this
      ensures deadlines == old(deadlines) - {id}
    {
      deadlines := deadlines - {id};
    }

    /** The entries to keep alive: claimed and either not yet leased or inside their lease, each once. */
    method Live(now: nat) returns (ids: seq<EntryId>)
      ensures forall id :: id in ids <==> id in deadlines && (deadlines[id] == None || now < deadlines[id].value)
      ensures forall i, j | 0 <= i < j < |ids| :: ids[i] != ids[j]
    {
      ids := [];
      var left := deadlines.Keys;
      while left != {}
        invariant left <= deadlines.Keys
        invariant forall id :: id in ids <==> id in deadlines && id !in left && (deadlines[id] == None || now < deadlines[id].value)
        invariant forall i, j | 0 <= i < j < |ids| :: ids[i] != ids[j]
        decreases |left|
      {
        var id :| id in left;
        left := left - {id};
        if deadlines[id] == None || now < deadlines[id].value {
          ids := ids + [id];
        }
      }
    }

    /** Claims the whole batch before handling any of it, so a repeated entry is handled once. */
    method ClaimBatch(batch: seq<Delivery>) returns (claimed: seq<Delivery>)
      modifies this
      ensures claimed == TakenUp(old(deadlines).Keys, batch)
      ensures deadlines.Keys == old(deadlines).Keys + Ids(batch)
      ensures forall id | id in old(deadlines) :: deadlines[id] == old(deadlines)[id]
    {
      claimed := [];
      var i := 0;
      assert batch[0..] == batch;
      while i < |batch|
        invariant i <= |batch|
        invariant claimed + TakenUp(deadlines.Keys, batch[i..]) == TakenUp(old(deadlines).Keys, batch)
        invariant deadlines.Keys == old(deadlines).Keys + Ids(batch[..i])
        invariant forall id | id in old(deadlines) :: deadlines[id] == old(deadlines)[id]
      {
        OneMoreDelivery(batch, i);
        TakenUpStep(claimed, deadlines.Keys, batch, i);
        ghost var before := deadlines.Keys;
        var taken := Claim(batch[i].id);
        if taken {
          assert deadlines.Keys == before + {batch[i].id};
          claimed := claimed + [batch[i]];
        }
        i := i + 1;
      }
      assert batch[..i] == batch;
    }
  }
}
