/** Min/max history sampling: reference-counted rows of the extrema of every metric in every bucket. */
module MinMaxSampler {
  import opened Wrappers

  datatype Sample = Sample(sequence: nat, step: nat, timestamp: int, values: seq<Option<real>>)

  datatype Extremum = Extremum(sequence: nat, value: real)

  datatype MetricRange = MetricRange(minimum: Option<Extremum>, maximum: Option<Extremum>)

  // --------------------------------------------------------- specification

  ghost predicate Increasing(samples: seq<Sample>) {
    forall i, j :: 0 <= i < j < |samples| ==> samples[i].sequence < samples[j].sequence
  }

  ghost predicate Shaped(samples: seq<Sample>, metrics: nat) {
    forall i :: 0 <= i < |samples| ==> |samples[i].values| == metrics
  }

  /** Sample `i` has the smallest value of metric `m`; of several, the earliest. */
  ghost predicate IsMinimum(samples: seq<Sample>, metrics: nat, m: nat, i: nat)
    requires Shaped(samples, metrics) && m < metrics
  {
    && i < |samples| && samples[i].values[m].Some?
    && forall j :: 0 <= j < |samples| && samples[j].values[m].Some? ==>
         && samples[i].values[m].value <= samples[j].values[m].value
         && (samples[i].values[m].value == samples[j].values[m].value ==> i <= j)
  }

  /** Sample `i` has the largest value of metric `m`; of several, the latest. */
  ghost predicate IsMaximum(samples: seq<Sample>, metrics: nat, m: nat, i: nat)
    requires Shaped(samples, metrics) && m < metrics
  {
    && i < |samples| && samples[i].values[m].Some?
    && forall j :: 0 <= j < |samples| && samples[j].values[m].Some? ==>
         && samples[j].values[m].value <= samples[i].values[m].value
         && (samples[i].values[m].value == samples[j].values[m].value ==> j <= i)
  }

  /** The sample is an extremum of some metric. */
  ghost predicate IsExtreme(samples: seq<Sample>, metrics: nat, i: nat)
    requires Shaped(samples, metrics)
  {
    exists m :: 0 <= m < metrics && (IsMinimum(samples, metrics, m, i) || IsMaximum(samples, metrics, m, i))
  }

  // -------------------------------------------------------- streaming form

  function NextMinimum(current: Option<Extremum>, s: Sample, m: nat): Option<Extremum>
    requires m < |s.values|
  {
    if s.values[m].Some? && (current.None? || s.values[m].value < current.value.value)
    then Some(Extremum(s.sequence, s.values[m].value)) else current
  }

  function NextMaximum(current: Option<Extremum>, s: Sample, m: nat): Option<Extremum>
    requires m < |s.values|
  {
    if s.values[m].Some? && (current.None? || s.values[m].value >= current.value.value)
    then Some(Extremum(s.sequence, s.values[m].value)) else current
  }

  ghost function Minimum(samples: seq<Sample>, metrics: nat, m: nat): Option<Extremum>
    requires Shaped(samples, metrics) && m < metrics
  {
    if samples == [] then None
    else NextMinimum(Minimum(samples[..|samples| - 1], metrics, m), samples[|samples| - 1], m)
  }

  ghost function Maximum(samples: seq<Sample>, metrics: nat, m: nat): Option<Extremum>
    requires Shaped(samples, metrics) && m < metrics
  {
    if samples == [] then None
    else NextMaximum(Maximum(samples[..|samples| - 1], metrics, m), samples[|samples| - 1], m)
  }

  /** Folding the samples one by one finds the declared minimum. */
  lemma {:induction false} MinimumIsFound(samples: seq<Sample>, metrics: nat, m: nat)
    requires Shaped(samples, metrics) && m < metrics
    ensures Minimum(samples, metrics, m).None? <==> forall i :: 0 <= i < |samples| ==> samples[i].values[m].None?
    ensures Minimum(samples, metrics, m).Some? ==>
              exists i: nat :: IsMinimum(samples, metrics, m, i)
                          && Minimum(samples, metrics, m).value
                             == Extremum(samples[i].sequence, samples[i].values[m].value)
    decreases |samples|
  {
    if samples != [] {
      var n := |samples| - 1;
      var before := samples[..n];
      MinimumIsFound(before, metrics, m);
      var e := Minimum(before, metrics, m);
      if samples[n].values[m].Some? && (e.None? || samples[n].values[m].value < e.value.value) {
        assert IsMinimum(samples, metrics, m, n);
      } else if e.Some? {
        var i: nat :| IsMinimum(before, metrics, m, i)
            && e.value == Extremum(before[i].sequence, before[i].values[m].value);
        assert forall j :: 0 <= j < n ==> before[j] == samples[j];
        assert IsMinimum(samples, metrics, m, i);
      }
    }
  }

  lemma {:induction false} MaximumIsFound(samples: seq<Sample>, metrics: nat, m: nat)
    requires Shaped(samples, metrics) && m < metrics
    ensures Maximum(samples, metrics, m).None? <==> forall i :: 0 <= i < |samples| ==> samples[i].values[m].None?
    ensures Maximum(samples, metrics, m).Some? ==>
              exists i: nat :: IsMaximum(samples, metrics, m, i)
                          && Maximum(samples, metrics, m).value
                             == Extremum(samples[i].sequence, samples[i].values[m].value)
    decreases |samples|
  {
    if samples != [] {
      var n := |samples| - 1;
      var before := samples[..n];
      MaximumIsFound(before, metrics, m);
      var e := Maximum(before, metrics, m);
      if samples[n].values[m].Some? && (e.None? || samples[n].values[m].value >= e.value.value) {
        assert IsMaximum(samples, metrics, m, n);
      } else if e.Some? {
        var i: nat :| IsMaximum(before, metrics, m, i)
            && e.value == Extremum(before[i].sequence, before[i].values[m].value);
        assert forall j :: 0 <= j < n ==> before[j] == samples[j];
        assert IsMaximum(samples, metrics, m, i);
      }
    }
  }

  lemma FoldNext(samples: seq<Sample>, s: Sample, metrics: nat, m: nat)
    requires Shaped(samples, metrics) && |s.values| == metrics && m < metrics
    ensures Shaped(samples + [s], metrics)
    ensures Minimum(samples + [s], metrics, m) == NextMinimum(Minimum(samples, metrics, m), s, m)
    ensures Maximum(samples + [s], metrics, m) == NextMaximum(Maximum(samples, metrics, m), s, m)
  {
    assert (samples + [s])[..|samples|] == samples;
  }

  // ---------------------------------------------------- reference counting

  function Slot(e: Option<Extremum>, sequence: nat): nat {
    if e.Some? && e.value.sequence == sequence then 1 else 0
  }

  /** How many extremum slots point at this sequence. */
  function Uses(ranges: seq<MetricRange>, sequence: nat): nat {
    if ranges == [] then 0
    else
      var last := ranges[|ranges| - 1];
      Uses(ranges[..|ranges| - 1], sequence) + Slot(last.minimum, sequence) + Slot(last.maximum, sequence)
  }

  function Count(references: map<nat, nat>, sequence: nat): nat {
    if sequence in references then references[sequence] else 0
  }

  /** The stored counts are exactly the numbers of slots, and zero counts are not stored. */
  ghost predicate Counted(ranges: seq<MetricRange>, references: map<nat, nat>) {
    && (forall q :: q in references ==> references[q] > 0)
    && forall q: nat :: Count(references, q) == Uses(ranges, q)
  }

  lemma {:induction false} UsesAfterUpdate(ranges: seq<MetricRange>, m: nat, r: MetricRange, sequence: nat)
    requires m < |ranges|
    ensures Uses(ranges[m := r], sequence) + Slot(ranges[m].minimum, sequence) + Slot(ranges[m].maximum, sequence)
            == Uses(ranges, sequence) + Slot(r.minimum, sequence) + Slot(r.maximum, sequence)
    decreases |ranges|
  {
    var n := |ranges| - 1;
    if m == n {
      assert ranges[m := r][..n] == ranges[..n];
    } else {
      assert ranges[m := r][..n] == ranges[..n][m := r];
      UsesAfterUpdate(ranges[..n], m, r, sequence);
    }
  }

  lemma {:induction false} SlotIsUsed(ranges: seq<MetricRange>, m: nat, sequence: nat)
    requires m < |ranges|
    ensures Slot(ranges[m].minimum, sequence) + Slot(ranges[m].maximum, sequence) <= Uses(ranges, sequence)
    decreases |ranges|
  {
    var n := |ranges| - 1;
    if m < n {
      assert ranges[..n][m] == ranges[m];
      SlotIsUsed(ranges[..n], m, sequence);
    }
  }

  lemma {:induction false} UsedHasSlot(ranges: seq<MetricRange>, sequence: nat) returns (m: nat)
    requires Uses(ranges, sequence) > 0
    ensures m < |ranges| && Slot(ranges[m].minimum, sequence) + Slot(ranges[m].maximum, sequence) > 0
    decreases |ranges|
  {
    var n := |ranges| - 1;
    if Slot(ranges[n].minimum, sequence) + Slot(ranges[n].maximum, sequence) > 0 {
      m := n;
    } else {
      m := UsedHasSlot(ranges[..n], sequence);
      assert ranges[..n][m] == ranges[m];
    }
  }

  lemma {:induction false} UsesOfNothing(ranges: seq<MetricRange>, sequence: nat)
    requires forall m :: 0 <= m < |ranges| ==> ranges[m] == MetricRange(None, None)
    ensures Uses(ranges, sequence) == 0
    decreases |ranges|
  {
    if ranges != [] { UsesOfNothing(ranges[..|ranges| - 1], sequence); }
  }

  /** Every metric keeps at most two rows alive. */
  lemma {:induction false} FewUsed(ranges: seq<MetricRange>, used: set<nat>)
    requires forall q :: q in used ==> Uses(ranges, q) > 0
    ensures |used| <= 2 * |ranges|
    decreases |ranges|
  {
    if ranges == [] {
      if q :| q in used { assert false; }
    } else {
      var n := |ranges| - 1;
      var ends := (if ranges[n].minimum.Some? then {ranges[n].minimum.value.sequence} else {})
                + (if ranges[n].maximum.Some? then {ranges[n].maximum.value.sequence} else {});
      FewUsed(ranges[..n], used - ends);
      assert |used| <= |used - ends| + |ends| by {
        assert used <= (used - ends) + ends;
        SubsetSize(used, (used - ends) + ends);
      }
    }
  }

  lemma {:induction false} SubsetSize(a: set<nat>, b: set<nat>)
    requires a <= b
    ensures |a| <= |b|
  {
    if q :| q in a {
      SubsetSize(a - {q}, b - {q});
    }
  }

  // --------------------------------------------------------------- bucket

  /** The kept rows are the referenced ones, each the sample with that sequence. */
  ghost predicate Kept(rows: map<nat, Sample>, references: map<nat, nat>, samples: seq<Sample>) {
    && rows.Keys == references.Keys
    && forall q :: q in rows ==> rows[q] in samples && rows[q].sequence == q
  }

  ghost predicate Summarized(ranges: seq<MetricRange>, samples: seq<Sample>, metrics: nat)
    requires Shaped(samples, metrics)
  {
    && |ranges| == metrics
    && forall m :: 0 <= m < metrics ==>
         ranges[m] == MetricRange(Minimum(samples, metrics, m), Maximum(samples, metrics, m))
  }

  predicate Improves(range: MetricRange, s: Sample, m: nat)
    requires m < |s.values|
  {
    && s.values[m].Some?
    && (range.minimum.None? || s.values[m].value < range.minimum.value.value
        || range.maximum.None? || s.values[m].value >= range.maximum.value.value)
  }

  function Improved(range: MetricRange, s: Sample, m: nat): MetricRange
    requires m < |s.values|
  {
    MetricRange(NextMinimum(range.minimum, s, m), NextMaximum(range.maximum, s, m))
  }

  lemma FoldsNext(samples: seq<Sample>, s: Sample, metrics: nat)
    requires Shaped(samples, metrics) && |s.values| == metrics
    ensures Shaped(samples + [s], metrics)
    ensures forall m :: 0 <= m < metrics ==>
              && Minimum(samples + [s], metrics, m) == NextMinimum(Minimum(samples, metrics, m), s, m)
              && Maximum(samples + [s], metrics, m) == NextMaximum(Maximum(samples, metrics, m), s, m)
  {
    forall m | 0 <= m < metrics
      ensures && Minimum(samples + [s], metrics, m) == NextMinimum(Minimum(samples, metrics, m), s, m)
              && Maximum(samples + [s], metrics, m) == NextMaximum(Maximum(samples, metrics, m), s, m)
    {
      FoldNext(samples, s, metrics, m);
    }
  }

  /** No slot points at a sequence that has not been observed. */
  lemma NothingNewYet(ranges: seq<MetricRange>, samples: seq<Sample>, metrics: nat, sequence: nat)
    requires Shaped(samples, metrics) && Summarized(ranges, samples, metrics)
    requires forall i :: 0 <= i < |samples| ==> samples[i].sequence < sequence
    ensures forall m :: 0 <= m < |ranges| ==>
              Slot(ranges[m].minimum, sequence) == 0 && Slot(ranges[m].maximum, sequence) == 0
  {
    forall m | 0 <= m < |ranges|
      ensures Slot(ranges[m].minimum, sequence) == 0 && Slot(ranges[m].maximum, sequence) == 0
    {
      hide Minimum, Maximum;
      MinimumIsFound(samples, metrics, m);
      MaximumIsFound(samples, metrics, m);
    }
  }

  lemma {:induction false} ImprovedIsUsed(before: seq<MetricRange>, after: seq<MetricRange>, s: Sample)
    requires |before| == |after| == |s.values|
    requires forall m :: 0 <= m < |after| ==> after[m] == Improved(before[m], s, m)
    requires exists m :: 0 <= m < |before| && Improves(before[m], s, m)
    ensures Uses(after, s.sequence) > 0
  {
    var m :| 0 <= m < |before| && Improves(before[m], s, m);
    SlotIsUsed(after, m, s.sequence);
  }

  lemma SeenNext(samples: seq<Sample>, s: Sample, metrics: nat)
    requires Increasing(samples) && Shaped(samples, metrics) && |s.values| == metrics
    requires forall i :: 0 <= i < |samples| ==> samples[i].sequence < s.sequence
    ensures Increasing(samples + [s]) && Shaped(samples + [s], metrics)
  {
  }

  /** A sample that improves nothing changes no extremum. */
  lemma Unimproved(ranges: seq<MetricRange>, references: map<nat, nat>, rows: map<nat, Sample>, samples: seq<Sample>,
                   s: Sample, metrics: nat)
    requires Shaped(samples, metrics) && Summarized(ranges, samples, metrics) && |s.values| == metrics
    requires Kept(rows, references, samples)
    requires !exists m :: 0 <= m < |ranges| && Improves(ranges[m], s, m)
    ensures Shaped(samples + [s], metrics) && Summarized(ranges, samples + [s], metrics)
    ensures Kept(rows, references, samples + [s])
  {
    hide Minimum, Maximum;
    FoldsNext(samples, s, metrics);
    forall m | 0 <= m < metrics
      ensures ranges[m] == MetricRange(Minimum(samples + [s], metrics, m), Maximum(samples + [s], metrics, m))
    {
      assert !Improves(ranges[m], s, m);
    }
  }

  lemma ImprovedSummary(before: seq<MetricRange>, after: seq<MetricRange>, samples: seq<Sample>, s: Sample,
                        metrics: nat)
    requires Shaped(samples, metrics) && Summarized(before, samples, metrics) && |s.values| == metrics == |after|
    requires forall m :: 0 <= m < |after| ==> after[m] == Improved(before[m], s, m)
    ensures Shaped(samples + [s], metrics) && Summarized(after, samples + [s], metrics)
  {
    hide Minimum, Maximum, NextMinimum, NextMaximum;
    FoldsNext(samples, s, metrics);
  }

  lemma StartBalanced(references: map<nat, nat>, rows: map<nat, Sample>, samples: seq<Sample>, s: Sample)
    requires Kept(rows, references, samples)
    ensures references.Keys + {s.sequence} == rows[s.sequence := s].Keys
  {
  }

  lemma KeptNext(ranges: seq<MetricRange>, references: map<nat, nat>, before: map<nat, Sample>, rows: map<nat, Sample>,
                 earlier: map<nat, nat>, samples: seq<Sample>, s: Sample)
    requires Counted(ranges, references) && Uses(ranges, s.sequence) > 0
    requires references.Keys + {s.sequence} == rows.Keys
    requires Kept(before, earlier, samples)
    requires forall q :: q in rows ==> (rows[q] == s && q == s.sequence) || (q in before && rows[q] == before[q])
    ensures Kept(rows, references, samples + [s])
  {
    hide Uses;
    assert s.sequence in references by { assert Count(references, s.sequence) > 0; }
  }

  class SampleBucket {
    ghost var seen: seq<Sample>
    ghost const metrics: nat
    var ranges: seq<MetricRange>
    var references: map<nat, nat>
    var rows: map<nat, Sample>

    ghost predicate Valid()
      reads this
    {
      && Increasing(seen) && Shaped(seen, metrics)
      && Summarized(ranges, seen, metrics)
      && Counted(ranges, references)
      && Kept(rows, references, seen)
    }

    constructor (metricCount: nat)
      ensures Valid() && seen == [] && metrics == metricCount
    {
      seen, metrics := [], metricCount;
      ranges := seq(metricCount, _ => MetricRange(None, None));
      references, rows := map[], map[];
      new;
      forall q: nat
        ensures Uses(ranges, q) == 0
      {
        UsesOfNothing(ranges, q);
      }
    }

    /** Moves one slot's reference from the row it pointed at to the current one. */
    method ReplaceReference(previous: Option<nat>, current: nat)
      requires previous.Some? ==> previous.value in references
      requires forall q :: q in references ==> references[q] > 0
      modifies this`references, this`rows
      ensures forall q :: q in references ==> references[q] > 0
      ensures forall q: nat :: Count(references, q)
                + (if previous == Some(q) then 1 else 0)
                == old(Count(references, q)) + (if q == current then 1 else 0)
      ensures rows
              == old(rows) - (if previous.Some? && previous.value != current && Count(references, previous.value) == 0
                                   then {previous.value} else {})
    {
      if previous == Some(current) { return; }
      if previous.Some? {
        var p := previous.value;
        if references[p] == 1 {
          references := references - {p};
          rows := rows - {p};
        } else {
          references := references[p := references[p] - 1];
        }
      }
      references := references[current := if current in references then references[current] + 1 else 1];
    }

    /** Takes in one more sample; only an improved extremum stores its row. */
    method Observe(s: Sample)
      requires Valid() && |s.values| == metrics
      requires forall i :: 0 <= i < |seen| ==> seen[i].sequence < s.sequence
      modifies this
      ensures Valid() && seen == old(seen) + [s]
    {
      hide Uses, Minimum, Maximum, Increasing, Shaped, Counted, Kept, NextMinimum, NextMaximum, Slot;
      SeenNext(seen, s, metrics);
      NothingNewYet(ranges, seen, metrics, s.sequence);
      var changed := exists m :: 0 <= m < |ranges| && Improves(ranges[m], s, m);
      if !changed {
        Unimproved(ranges, references, rows, seen, s, metrics);
        seen := seen + [s];
        return;
      }
      StartBalanced(references, rows, seen, s);
      rows := rows[s.sequence := s];
      assert Balanced(s.sequence);
      var m := 0;
      while m < |s.values|
        invariant m <= |s.values| == |ranges| == metrics && seen == old(seen)
        invariant forall k :: 0 <= k < m ==> ranges[k] == Improved(old(ranges[k]), s, k)
        invariant forall k :: m <= k < |ranges| ==> ranges[k] == old(ranges[k])
        invariant Balanced(s.sequence)
        invariant forall q :: q in rows ==>
                    (rows[q] == s && q == s.sequence) || (q in old(rows) && rows[q] == old(rows[q]))
      {
        ObserveMetric(m, s);
        m := m + 1;
      }
      seen := seen + [s];
      ImprovedIsUsed(old(ranges), ranges, s);
      ImprovedSummary(old(ranges), ranges, old(seen), s, metrics);
      KeptNext(ranges, references, old(rows), rows, old(references), old(seen), s);
    }

    /** Every kept row but the current one is referenced. */
    ghost predicate Balanced(current: nat)
      reads this
    {
      && Counted(ranges, references) && current in rows
      && references.Keys + {current} == rows.Keys
    }

    /** Replaces the range of metric `m` by one that points its minimum or its maximum at the current sample. */
    method MoveSlot(m: nat, range: MetricRange, previous: Option<Extremum>, candidate: Extremum)
      requires m < |ranges| && Balanced(candidate.sequence) && Slot(previous, candidate.sequence) == 0
      requires (range == ranges[m].(minimum := Some(candidate)) && previous == ranges[m].minimum)
               || (range == ranges[m].(maximum := Some(candidate)) && previous == ranges[m].maximum)
      modifies this`ranges, this`references, this`rows
      ensures ranges == old(ranges)[m := range]
      ensures Balanced(candidate.sequence)
      ensures forall q :: q in rows ==> q in old(rows) && rows[q] == old(rows[q])
    {
      hide Uses;
      var sequence := if previous.Some? then Some(previous.value.sequence) else None;
      SlotIsUsedAll(ranges, m);
      UsesAfterUpdateAll(ranges, m, range);
      ranges := ranges[m := range];
      if previous.Some? { assert Slot(previous, sequence.value) == 1 && Count(references, sequence.value) > 0; }
      label before:
      ReplaceReference(sequence, candidate.sequence);
      forall q: nat
        ensures Count(references, q) == Uses(ranges, q)
      {
        assert old@before(Count(references, q)) == old(Uses(ranges, q));
        assert Slot(previous, q) == if sequence == Some(q) then 1 else 0;
      }
      forall q
        ensures q in rows <==> q in references || q == candidate.sequence
      {
        assert q in references <==> Count(references, q) > 0;
        assert q in old(references) <==> old@before(Count(references, q)) > 0;
      }
    }

    /** Points the minimum and maximum slots of metric `m` at the current sample where it improves them. */
    method ObserveMetric(m: nat, s: Sample)
      requires m < |ranges| && m < |s.values| && Balanced(s.sequence)
      requires Slot(ranges[m].minimum, s.sequence) == 0 && Slot(ranges[m].maximum, s.sequence) == 0
      modifies this`ranges, this`references, this`rows
      ensures ranges
              == old(ranges)[m := MetricRange(NextMinimum(old(ranges[m].minimum), s, m),
                                              NextMaximum(old(ranges[m].maximum), s, m))]
      ensures Balanced(s.sequence)
      ensures forall q :: q in rows ==> q in old(rows) && rows[q] == old(rows[q])
    {
      hide Uses, Balanced;
      if s.values[m].None? { return; }
      var candidate := Extremum(s.sequence, s.values[m].value);
      var range := ranges[m];
      if range.minimum.None? || candidate.value < range.minimum.value.value {
        MoveSlot(m, range.(minimum := Some(candidate)), range.minimum, candidate);
      }
      if range.maximum.None? || candidate.value >= range.maximum.value.value {
        MoveSlot(m, ranges[m].(maximum := Some(candidate)), range.maximum, candidate);
      }
    }
  }

  lemma UsesAfterUpdateAll(ranges: seq<MetricRange>, m: nat, r: MetricRange)
    requires m < |ranges|
    ensures forall q: nat :: Uses(ranges[m := r], q) + Slot(ranges[m].minimum, q) + Slot(ranges[m].maximum, q)
                          == Uses(ranges, q) + Slot(r.minimum, q) + Slot(r.maximum, q)
  {
    forall q: nat
      ensures Uses(ranges[m := r], q) + Slot(ranges[m].minimum, q) + Slot(ranges[m].maximum, q)
           == Uses(ranges, q) + Slot(r.minimum, q) + Slot(r.maximum, q)
    {
      UsesAfterUpdate(ranges, m, r, q);
    }
  }

  lemma SlotIsUsedAll(ranges: seq<MetricRange>, m: nat)
    requires m < |ranges|
    ensures forall q: nat :: Slot(ranges[m].minimum, q) + Slot(ranges[m].maximum, q) <= Uses(ranges, q)
  {
    forall q: nat
      ensures Slot(ranges[m].minimum, q) + Slot(ranges[m].maximum, q) <= Uses(ranges, q)
    {
      SlotIsUsed(ranges, m, q);
    }
  }

  lemma MinimumIsUnique(samples: seq<Sample>, metrics: nat, m: nat, i: nat)
    requires Shaped(samples, metrics) && m < metrics && IsMinimum(samples, metrics, m, i)
    ensures Minimum(samples, metrics, m) == Some(Extremum(samples[i].sequence, samples[i].values[m].value))
  {
    hide Minimum;
    MinimumIsFound(samples, metrics, m);
    var k: nat :| IsMinimum(samples, metrics, m, k)
                  && Minimum(samples, metrics, m).value == Extremum(samples[k].sequence, samples[k].values[m].value);
    assert k == i;
  }

  lemma MaximumIsUnique(samples: seq<Sample>, metrics: nat, m: nat, i: nat)
    requires Shaped(samples, metrics) && m < metrics && IsMaximum(samples, metrics, m, i)
    ensures Maximum(samples, metrics, m) == Some(Extremum(samples[i].sequence, samples[i].values[m].value))
  {
    hide Maximum;
    MaximumIsFound(samples, metrics, m);
    var k: nat :| IsMaximum(samples, metrics, m, k)
                  && Maximum(samples, metrics, m).value == Extremum(samples[k].sequence, samples[k].values[m].value);
    assert k == i;
  }

  lemma SequenceDetermines(samples: seq<Sample>, i: nat, j: nat)
    requires Increasing(samples) && i < |samples| && j < |samples| && samples[i].sequence == samples[j].sequence
    ensures i == j
  {
  }

  lemma SlotIsExtreme(samples: seq<Sample>, metrics: nat, m: nat, i: nat)
    requires Increasing(samples) && Shaped(samples, metrics) && m < metrics && i < |samples|
    requires Slot(Minimum(samples, metrics, m), samples[i].sequence)
             + Slot(Maximum(samples, metrics, m), samples[i].sequence) > 0
    ensures IsExtreme(samples, metrics, i)
  {
    hide Minimum, Maximum;
    if Slot(Minimum(samples, metrics, m), samples[i].sequence) > 0 {
      MinimumIsFound(samples, metrics, m);
      var k: nat :| IsMinimum(samples, metrics, m, k)
                    && Minimum(samples, metrics, m).value == Extremum(samples[k].sequence, samples[k].values[m].value);
      SequenceDetermines(samples, i, k);
    } else {
      MaximumIsFound(samples, metrics, m);
      var k: nat :| IsMaximum(samples, metrics, m, k)
                    && Maximum(samples, metrics, m).value == Extremum(samples[k].sequence, samples[k].values[m].value);
      SequenceDetermines(samples, i, k);
    }
  }

  /** The rows a bucket keeps are exactly the extreme samples it has observed. */
  lemma KeptIsExtreme(ranges: seq<MetricRange>, references: map<nat, nat>, rows: map<nat, Sample>, samples: seq<Sample>,
                      metrics: nat, i: nat)
    requires Increasing(samples) && Shaped(samples, metrics) && Summarized(ranges, samples, metrics)
    requires Counted(ranges, references) && Kept(rows, references, samples) && i < |samples|
    ensures samples[i].sequence in rows <==> IsExtreme(samples, metrics, i)
    ensures samples[i].sequence in rows ==> rows[samples[i].sequence] == samples[i]
  {
    hide Uses, Minimum, Maximum, IsMinimum, IsMaximum, IsExtreme;
    var q := samples[i].sequence;
    assert q in rows <==> Uses(ranges, q) > 0 by { assert Count(references, q) == Uses(ranges, q); }
    if q in rows {
      var m := UsedHasSlot(ranges, q);
      SlotIsExtreme(samples, metrics, m, i);
      var k :| 0 <= k < |samples| && samples[k] == rows[q];
      SequenceDetermines(samples, i, k);
    }
    if IsExtreme(samples, metrics, i) {
      var m := ExtremeMetric(samples, metrics, i);
      if IsMinimum(samples, metrics, m, i) {
        MinimumIsUnique(samples, metrics, m, i);
      } else {
        MaximumIsUnique(samples, metrics, m, i);
      }
      SlotIsUsed(ranges, m, q);
    }
  }

  lemma ExtremeMetric(samples: seq<Sample>, metrics: nat, i: nat) returns (m: nat)
    requires Shaped(samples, metrics) && IsExtreme(samples, metrics, i)
    ensures m < metrics && (IsMinimum(samples, metrics, m, i) || IsMaximum(samples, metrics, m, i))
  {
    m :| 0 <= m < metrics && (IsMinimum(samples, metrics, m, i) || IsMaximum(samples, metrics, m, i));
  }
}
