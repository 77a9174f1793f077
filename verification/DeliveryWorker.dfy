/** The background worker's rotation over the four journals of a spool. */
module DeliveryWorker {
  import opened Wrappers

  /** Metrics, rich values, artifacts and alerts. */
  const JOURNALS: nat := 4

  type Pending = p: seq<bool> | |p| == JOURNALS witness [false, false, false, false]

  /** How far journal `j` is ahead of the cursor in rotation order: so many steps onwards lead to it. */
  function Distance(cursor: nat, j: nat): (d: nat)
    requires cursor < JOURNALS && j < JOURNALS
    ensures d < JOURNALS && (cursor + d) % JOURNALS == j
  {
    (j + JOURNALS - cursor) % JOURNALS
  }

  /** The pending journal closest to the cursor in rotation order. */
  ghost predicate IsNext(cursor: nat, pending: Pending, chosen: Option<nat>)
    requires cursor < JOURNALS
  {
    match chosen
    case None => forall j :: 0 <= j < JOURNALS ==> !pending[j]
    case Some(i) =>
      && i < JOURNALS && pending[i]
      && forall j :: 0 <= j < JOURNALS && pending[j] ==> Distance(cursor, i) <= Distance(cursor, j)
  }

  function Advance(cursor: nat, chosen: Option<nat>): nat {
    if chosen.Some? then (chosen.value + 1) % JOURNALS else cursor
  }

  class Worker {
    var deliveryCursor: nat

    constructor ()
      ensures deliveryCursor == 0
    {
      deliveryCursor := 0;
    }

    /** The cursor moves past the chosen journal before its delivery is attempted. */
    method NextDelivery(pending: Pending) returns (chosen: Option<nat>)
      requires deliveryCursor < JOURNALS
      modifies this
      ensures IsNext(old(deliveryCursor), pending, chosen)
      ensures deliveryCursor == Advance(old(deliveryCursor), chosen) < JOURNALS
    {
      for offset := 0 to JOURNALS
        invariant deliveryCursor == old(deliveryCursor)
        invariant forall j :: 0 <= j < JOURNALS && Distance(deliveryCursor, j) < offset ==> !pending[j]
      {
        var index := (deliveryCursor + offset) % JOURNALS;
        if pending[index] {
          deliveryCursor := (index + 1) % JOURNALS;
          return Some(index);
        }
      }
      return None;
    }
  }

  /** `chosen[i]` is the journal served by the i-th selection of a run of the worker. */
  ghost predicate IsRotation(cursor: nat, pending: seq<Pending>, chosen: seq<Option<nat>>)
    requires cursor < JOURNALS
    decreases |pending|
  {
    && |chosen| == |pending|
    && (pending != [] ==>
          && IsNext(cursor, pending[0], chosen[0])
          && IsRotation(Advance(cursor, chosen[0]), pending[1..], chosen[1..]))
  }

  /** A selection that passes over a pending journal brings the cursor closer to it. */
  lemma PassedOverIsCloser(cursor: nat, pending: Pending, i: nat, j: nat)
    requires cursor < JOURNALS && IsNext(cursor, pending, Some(i))
    requires j < JOURNALS && pending[j] && i != j
    ensures Distance((i + 1) % JOURNALS, j) < Distance(cursor, j)
  {
    assert Distance(cursor, i) <= Distance(cursor, j);
  }

  lemma {:induction false} ServedWithinDistance(cursor: nat, pending: seq<Pending>, chosen: seq<Option<nat>>, j: nat)
    returns (i: nat)
    requires cursor < JOURNALS && j < JOURNALS && IsRotation(cursor, pending, chosen)
    requires Distance(cursor, j) < |pending|
    requires forall k :: 0 <= k < |pending| ==> pending[k][j]
    ensures i <= Distance(cursor, j) && chosen[i] == Some(j)
    decreases |pending|
  {
    assert IsNext(cursor, pending[0], chosen[0]) && pending[0][j];
    if chosen[0] == Some(j) {
      i := 0;
    } else {
      PassedOverIsCloser(cursor, pending[0], chosen[0].value, j);
      forall k | 0 <= k < |pending[1..]|
        ensures pending[1..][k][j]
      {
        assert pending[1..][k] == pending[k + 1];
      }
      var n := ServedWithinDistance(Advance(cursor, chosen[0]), pending[1..], chosen[1..], j);
      i := n + 1;
    }
  }

  /**
    A journal that stays pending is served within four consecutive selections,
    however the other journals change and whether or not deliveries succeed.
   */
  lemma ServedWithinFour(cursor: nat, pending: seq<Pending>, chosen: seq<Option<nat>>, j: nat) returns (i: nat)
    requires cursor < JOURNALS && j < JOURNALS && IsRotation(cursor, pending, chosen)
    requires |pending| == JOURNALS && forall k :: 0 <= k < |pending| ==> pending[k][j]
    ensures i < JOURNALS && chosen[i] == Some(j)
  {
    i := ServedWithinDistance(cursor, pending, chosen, j);
  }
}
