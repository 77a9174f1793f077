/** Readers of a running server: what the page loops and the history requests assume, discharged for every run. */
module SnapshotReads {
  import opened Wrappers
  import opened MetricLog
  import opened CatalogStore
  import opened PagedReads
  import opened Compaction
  import CompactionTheorems
  import MinMaxSampler
  import HistorySampler
  import ChartProjection
  import SampledHistory

  /** The states in which a reader lists its pages: not before the query starts, and in order. */
  ghost predicate Schedule(states: seq<State>, at: nat -> nat) {
    (forall k :: at(k) < |states|) && forall j, k :: j <= k ==> at(j) <= at(k)
  }

  /** The reader's snapshot is held from the first listing to the last one. */
  ghost predicate Holds(states: seq<State>, at: nat -> nat, id: nat)
    requires Schedule(states, at)
  {
    forall j, k :: at(0) <= j < at(k) ==> id in states[j].readers
  }

  function Listing(states: seq<State>, k: nat): seq<Segment> {
    if k < |states| then states[k].tables.segments else []
  }

  function Listings(states: seq<State>, at: nat -> nat): nat -> seq<Segment> {
    (k: nat) => Listing(states, at(k))
  }

  /** Under a snapshot the listings only gain segments at the end, whatever ingest and compaction do. */
  lemma ListingsOnlyAppend(states: seq<State>, steps: seq<Step>, target: nat, at: nat -> nat, id: nat)
    requires CompactionTheorems.Run(states, steps, target) && Schedule(states, at) && Holds(states, at, id)
    ensures OnlyAppended(Listings(states, at))
  {
    hide CompactionTheorems.Run, Tiled, Listing, Holds;
    var view := Listings(states, at);
    forall k
      ensures Tiled(view(k))
    {
      ListingIsTiled(states, steps, target, at(k));
    }
    forall j, k | 0 <= j <= k
      ensures view(j) <= view(k)
    {
      ListingGrows(states, steps, target, at, id, j, k);
    }
  }

  lemma ListingIsTiled(states: seq<State>, steps: seq<Step>, target: nat, n: nat)
    requires CompactionTheorems.Run(states, steps, target) && n < |states|
    ensures Tiled(Listing(states, n))
  {
    hide CompactionTheorems.Run, Tiled;
    CompactionTheorems.LogIsConserved(states, steps, target, n);
  }

  lemma ListingGrows(states: seq<State>, steps: seq<Step>, target: nat, at: nat -> nat, id: nat, j: nat, k: nat)
    requires CompactionTheorems.Run(states, steps, target) && Schedule(states, at) && Holds(states, at, id) && j <= k
    ensures Listing(states, at(j)) <= Listing(states, at(k))
  {
    hide CompactionTheorems.Run, Tiled;
    assert forall m :: at(j) <= m < at(k) ==> id in states[m].readers;
    CompactionTheorems.SnapshotSeesAppends(states, steps, target, id, at(j), at(k));
  }

  /**
    `sampled_history` on a running server: exactly the extreme rows of each bucket of what had
    been accepted when the query listed its first page.
   */
  method SampleHistory(states: seq<State>, ghost steps: seq<Step>, ghost target: nat, at: nat -> nat, ghost id: nat,
                       keys: seq<string>, after: Option<nat>, maxPoints: nat)
    returns (r: Result<SampledHistory.Sampled, HistorySampler.SamplerError>)
    requires CompactionTheorems.Run(states, steps, target) && Schedule(states, at) && Holds(states, at, id)
             && keys != []
    ensures r.Err? <==> ExtentAfter(states[at(0)].tables.segments, after).Some? && maxPoints < 2 * |keys|
    ensures r.Ok? && ExtentAfter(states[at(0)].tables.segments, after).None? ==>
              r.value == SampledHistory.Sampled([], 0, None)
    ensures r.Ok? && ExtentAfter(states[at(0)].tables.segments, after).Some? ==>
              var extent := ExtentAfter(states[at(0)].tables.segments, after).value;
              var wanted := SampledHistory.Wanted(
                              ChartProjection.Project(states[at(0)].accepted, keys), extent.first, extent.last);
              var count := maxPoints / (2 * |keys|);
              && MinMaxSampler.Increasing(r.value.rows) && |r.value.rows| <= maxPoints
              && count > 0 && HistorySampler.InExtent(wanted, extent.first, extent.last)
              && forall s :: s in r.value.rows <==>
                   s in wanted && HistorySampler.Selected(wanted, extent.first, extent.last, count, s)
    ensures r.Ok? ==> SampledHistory.IsSampling(states[at(0)].accepted, keys, after, maxPoints, r.value)
  {
    hide *;
    ListingsOnlyAppend(states, steps, target, at, id);
    FirstListing(states, steps, target, at);
    r := SampledHistory.Query(Listings(states, at), keys, after, maxPoints);
  }

  lemma FirstListing(states: seq<State>, steps: seq<Step>, target: nat, at: nat -> nat)
    requires CompactionTheorems.Run(states, steps, target) && Schedule(states, at)
    ensures at(0) < |states|
    ensures Listings(states, at)(0) == states[at(0)].tables.segments
    ensures LogOf(states[at(0)].tables.segments) == states[at(0)].accepted
  {
    hide CompactionTheorems.Run, Tiled, LogOf;
    CompactionTheorems.LogIsConserved(states, steps, target, at(0));
  }

  // --------------------------------------------------- following next_after

  /** The answers to a client's history requests, each made in some state of the run. */
  ghost predicate Asked(states: seq<State>, at: seq<nat>, pages: seq<HistoryPage>, start: Option<nat>, limit: nat) {
    && |at| == |pages| && limit > 0
    && (forall i :: 0 <= i < |at| ==> at[i] < |states|)
    && (forall i :: 0 < i < |at| ==> at[i - 1] <= at[i])
    && (forall i :: 0 <= i < |pages| ==>
          Answers(Listing(states, at[i]), CursorBefore(pages, start, i), limit, pages[i]))
    && (forall i :: 0 <= i < |pages| - 1 ==> pages[i].nextAfter.Some?)
  }

  function Views(states: seq<State>, at: seq<nat>): (views: seq<seq<Segment>>)
    ensures |views| == |at| && forall i :: 0 <= i < |at| ==> views[i] == Listing(states, at[i])
  {
    seq(|at|, i requires 0 <= i < |at| => Listing(states, at[i]))
  }

  /** Between its requests a client holds no snapshot, so compaction may re-segment the run: the rows stay. */
  lemma RequestsFollow(states: seq<State>, steps: seq<Step>, target: nat, at: seq<nat>, pages: seq<HistoryPage>,
                       start: Option<nat>, limit: nat)
    requires CompactionTheorems.Run(states, steps, target) && Asked(states, at, pages, start, limit)
    ensures Follows(Views(states, at), pages, start, limit)
  {
    hide CompactionTheorems.Run, Tiled, LogOf, Answers;
    forall i | 0 <= i < |at|
      ensures Tiled(Listing(states, at[i]))
    {
      CompactionTheorems.LogIsConserved(states, steps, target, at[i]);
    }
    forall i | 0 < i < |at|
      ensures LogOf(Listing(states, at[i - 1])) <= LogOf(Listing(states, at[i]))
    {
      CompactionTheorems.LogIsConserved(states, steps, target, at[i]);
      CompactionTheorems.LogIsConserved(states, steps, target, at[i - 1]);
      CompactionTheorems.LogOnlyGrows(states, steps, target, at[i - 1], at[i]);
    }
  }

  /** A client that follows `nextAfter` to its end has every row accepted past its start, once and in order. */
  lemma ClientReadsEverything(states: seq<State>, steps: seq<Step>, target: nat, at: seq<nat>, pages: seq<HistoryPage>,
                              start: Option<nat>, limit: nat)
    requires CompactionTheorems.Run(states, steps, target) && Asked(states, at, pages, start, limit)
    requires pages != [] && pages[|pages| - 1].nextAfter.None?
    ensures |at| > 0 && at[|at| - 1] < |states|
    ensures Collected(pages) == RowsAfter(states[at[|at| - 1]].accepted, CursorOf(start))
    ensures AreRest(Collected(pages), states[at[|at| - 1]].accepted, start)
  {
    hide *;
    RequestsFollow(states, steps, target, at, pages, start, limit);
    LastRequest(states, steps, target, at, pages, start, limit);
    FollowingReadsEverything(Views(states, at), pages, start, limit);
    RestOfAccepted(states, steps, target, at[|at| - 1], start);
  }

  /** The rows from the `k`-th on, which are exactly the ones past the start. */
  predicate IsRest(rows: seq<Row>, accepted: seq<Row>, k: nat, start: Option<nat>) {
    && k <= |accepted| && rows == accepted[k..] && (start.None? ==> k == 0)
    && (start.Some? ==>
          && (forall i :: 0 <= i < k ==> accepted[i].sequence <= start.value)
          && forall i :: k <= i < |accepted| ==> start.value < accepted[i].sequence)
  }

  ghost predicate AreRest(rows: seq<Row>, accepted: seq<Row>, start: Option<nat>) {
    exists k :: IsRest(rows, accepted, k, start)
  }

  lemma RestOfAccepted(states: seq<State>, steps: seq<Step>, target: nat, n: nat, start: Option<nat>)
    requires CompactionTheorems.Run(states, steps, target) && n < |states|
    ensures AreRest(RowsAfter(states[n].accepted, CursorOf(start)), states[n].accepted, start)
  {
    hide CompactionTheorems.Run, Tiled, LogOf, RowsAfter;
    CompactionTheorems.LogIsConserved(states, steps, target, n);
    LogIsAscending(states[n].tables.segments);
    var k := AfterIsSuffixOfRows(states[n].accepted, CursorOf(start));
    assert IsRest(RowsAfter(states[n].accepted, CursorOf(start)), states[n].accepted, k, start);
  }

  lemma LastRequest(states: seq<State>, steps: seq<Step>, target: nat, at: seq<nat>, pages: seq<HistoryPage>,
                    start: Option<nat>, limit: nat)
    requires CompactionTheorems.Run(states, steps, target) && Asked(states, at, pages, start, limit) && pages != []
    ensures |at| > 0 && at[|at| - 1] < |states|
    ensures LogOf(Views(states, at)[|at| - 1]) == states[at[|at| - 1]].accepted
  {
    hide CompactionTheorems.Run, Tiled, LogOf, Answers;
    CompactionTheorems.LogIsConserved(states, steps, target, at[|at| - 1]);
  }
}
