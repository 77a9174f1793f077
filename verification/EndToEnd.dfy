/**
  From the client's journal to the segment files: the delivery protocol and the server's
  storage run together, with clients crashing, requests resent, files written, merged and
  deleted in any order.
 */
module EndToEnd {
  import opened Wrappers
  import opened Framing
  import opened Spool
  import opened MetricLog
  import opened SegmentCatalog
  import Delivery = ExactlyOnce
  import DeliveryTheorems
  import CompactionTheorems
  import opened IngestRefinement

  datatype Joint = Joint(client: Delivery.State, store: Compaction.State)

  datatype Step =
    | Client(step: Delivery.Step)
    | Store(action: Compaction.Step)

  datatype Setup = Setup(delivery: Delivery.Setup, parse: Parser, target: nat)

  /** The request that is being ingested was sent by a client. */
  ghost predicate Sent(c: Setup, requests: set<Delivery.Request>, batch: nat, rows: seq<Row>) {
    exists q :: q in requests && q.batchSequence == batch && RowsFrom(q.points, c.parse) == rows
  }

  ghost function RequestOf(c: Setup, requests: set<Delivery.Request>, batch: nat, rows: seq<Row>): (q: Delivery.Request)
    ensures Sent(c, requests, batch, rows) ==>
              q in requests && q.batchSequence == batch && RowsFrom(q.points, c.parse) == rows
  {
    if Sent(c, requests, batch, rows) then
      var q :| q in requests && q.batchSequence == batch && RowsFrom(q.points, c.parse) == rows; q
    else Delivery.Request(batch, [])
  }

  /** Clients act on their own and are informed; the server only ingests what it was sent. */
  ghost predicate Enabled(c: Setup, j: Joint, step: Step) {
    match step
    case Client(d) => !d.Serve? && !d.FinishRun? && Delivery.Informed(c.delivery, j.client, d)
    case Store(a) =>
      && Compaction.Enabled(j.store, a, c.target)
      && (a.BeginIngest? ==> Sent(c, j.client.requests, a.batch, a.rows))
  }

  /** The transaction that registers the written batch commits, whether or not its outcome is reported. */
  ghost predicate Commits(s: Compaction.State, a: Compaction.Step) {
    && a.RegisterBatch? && s.ingest.Written? && s.ingest.rows != [] && !a.outcome.ErrorBeforeCommit?
    && var Written(batch, rows, _) := s.ingest;
       Registered(s.tables, batch, rows, Compaction.SegmentOf(batch, rows)).1 == Ok(Registration.Accepted)
  }

  /** What a step of the store is for the protocol: an answered request, the end of the run, or nothing. */
  ghost function Seen(c: Setup, j: Joint, a: Compaction.Step): seq<Delivery.Step>
    requires Enabled(c, j, Store(a))
  {
    if Commits(j.store, a) then
      [Delivery.Serve(RequestOf(c, j.client.requests, j.store.ingest.batch, j.store.ingest.rows))]
    else if a.BeginIngest? && a.batch in j.store.tables.batches then
      [Delivery.Serve(RequestOf(c, j.client.requests, a.batch, a.rows))]
    else if a.FinishRun? then [Delivery.FinishRun]
    else []
  }

  ghost function Apply(c: Setup, j: Joint, step: Step): Joint
    requires Enabled(c, j, step)
  {
    match step
    case Client(d) => j.(client := Delivery.Apply(c.delivery, j.client, d))
    case Store(a) =>
      Joint(Delivery.Run(c.delivery, j.client, Seen(c, j, a)), Compaction.Apply(j.store, a, c.target))
  }

  ghost predicate Initial(c: Setup, j: Joint) {
    && Delivery.Initial(c.delivery, j.client) && CompactionSafety.Inv(j.store, c.target) && j.store.ingest.NoIngest?
    && Faithful(c.parse, c.delivery.decode)
    && Represents(j.client.server, j.store.tables, c.parse, c.delivery.decode)
  }

  ghost predicate Run(c: Setup, states: seq<Joint>, steps: seq<Step>) {
    && |states| == |steps| + 1 && Initial(c, states[0])
    && forall i :: 0 <= i < |steps| ==>
         Enabled(c, states[i], steps[i]) && states[i + 1] == Apply(c, states[i], steps[i])
  }

  // --------------------------------------------------------------- invariant

  /** The batch in hand was sent. */
  ghost predicate Underway(c: Setup, requests: set<Delivery.Request>, ingest: Compaction.Ingest) {
    ingest.Checked? || ingest.Written? ==> Sent(c, requests, ingest.batch, ingest.rows)
  }

  ghost predicate Inv(c: Setup, j: Joint, a: nat, b: nat, r: nat) {
    && Delivery.Inv(c.delivery, j.client, a, b, r) && CompactionSafety.Inv(j.store, c.target)
    && Faithful(c.parse, c.delivery.decode) && Underway(c, j.client.requests, j.store.ingest)
    && Represents(j.client.server, j.store.tables, c.parse, c.delivery.decode)
  }

  lemma SentLater(c: Setup, requests: set<Delivery.Request>, more: set<Delivery.Request>, ingest: Compaction.Ingest)
    requires Underway(c, requests, ingest) && requests <= more
    ensures Underway(c, more, ingest)
  {
    hide RowsFrom;
  }

  lemma ClientKeeps(c: Setup, j: Joint, d: Delivery.Step, a: nat, b: nat, r: nat) returns (a': nat, b': nat, r': nat)
    requires Inv(c, j, a, b, r) && Enabled(c, j, Client(d))
    ensures Inv(c, Apply(c, j, Client(d)), a', b', r')
  {
    hide Delivery.Inv, CompactionSafety.Inv, Faithful, Represents, Delivery.Apply, Delivery.Informed;
    a', b', r' := Delivery.StepKeeps(c.delivery, j.client, d, a, b, r);
    ClientKeepsServer(c.delivery, j.client, d);
    hide Underway;
    SentLater(c, j.client.requests, Delivery.Apply(c.delivery, j.client, d).requests, j.store.ingest);
  }

  lemma ClientKeepsServer(c: Delivery.Setup, s: Delivery.State, d: Delivery.Step)
    requires !d.Serve? && !d.FinishRun?
    ensures Delivery.Apply(c, s, d).server == s.server && s.requests <= Delivery.Apply(c, s, d).requests
  {
    hide ReadBatch, AfterRecovery, RecoveryFault, Delivery.LocalNext, Acknowledged,
         Delivery.Appendable, Delivery.NextSequence;
  }

  /** Everything but registration and the end of a run leaves what the tables represent. */
  lemma OthersRepresent(c: Setup, s: Compaction.State, a: Compaction.Step, server: Delivery.Server)
    requires CompactionSafety.Inv(s, c.target) && Compaction.Enabled(s, a, c.target) && !a.RegisterBatch?
             && !a.FinishRun?
    requires Represents(server, s.tables, c.parse, c.delivery.decode)
    ensures Represents(server, Compaction.Apply(s, a, c.target).tables, c.parse, c.delivery.decode)
  {
    CompactionSafety.StepKeeps(s, a, c.target);
    CompactionTheorems.OthersAcceptNothing(s, a, c.target);
    LogOfTables(s, c.target);
    LogOfTables(Compaction.Apply(s, a, c.target), c.target);
    OthersKeepBatches(s, a, c.target);
    hide CompactionSafety.Inv, Compaction.Apply, Compaction.Enabled, LogOf, RowsFrom, Decodable;
  }

  lemma LogOfTables(s: Compaction.State, target: nat)
    requires CompactionSafety.Inv(s, target)
    ensures LogOf(s.tables.segments) == s.accepted && CompactionSafety.TablesSound(s.tables)
  {
    hide CompactionSafety.TablesSound, CompactionSafety.FilesSound, CompactionSafety.ReadersSound,
         CompactionSafety.IngestSound, CompactionSafety.WorkerSound, LogOf;
  }

  lemma OthersKeepBatches(s: Compaction.State, a: Compaction.Step, target: nat)
    requires Compaction.Enabled(s, a, target) && !a.RegisterBatch? && !a.FinishRun?
    ensures Compaction.Apply(s, a, target).tables.batches == s.tables.batches
    ensures Compaction.Apply(s, a, target).tables.running == s.tables.running
  {
    hide *;
    if a.ReplaceSources? {
      ReplaceKeepsBatches(s, a, target);
    } else {
      RestKeepBatches(s, a, target);
    }
  }

  lemma ReplaceKeepsBatches(s: Compaction.State, a: Compaction.Step, target: nat)
    requires Compaction.Enabled(s, a, target) && a.ReplaceSources?
    ensures Compaction.Apply(s, a, target).tables.batches == s.tables.batches
    ensures Compaction.Apply(s, a, target).tables.running == s.tables.running
  {
    ReplacedKeepsBatches(s.tables, s.worker.sources, Compacted(s.worker.sources));
    hide Compacted, TotalRows, Replaced;
  }

  lemma RestKeepBatches(s: Compaction.State, a: Compaction.Step, target: nat)
    requires Compaction.Enabled(s, a, target) && !a.RegisterBatch? && !a.FinishRun? && !a.ReplaceSources?
    ensures Compaction.Apply(s, a, target).tables.batches == s.tables.batches
    ensures Compaction.Apply(s, a, target).tables.running == s.tables.running
  {
    hide Compacted, Compaction.IsRegistered, Compaction.Accepts, PathSet, Compaction.ActivePaths,
         TotalRows, Compaction.HoldsWriteLock, Compaction.ValidBatch, Paths;
  }

  lemma ReplacedKeepsBatches(t: Tables, sources: seq<Segment>, replacement: Segment)
    ensures Replaced(t, sources, replacement).0.batches == t.batches
    ensures Replaced(t, sources, replacement).0.running == t.running
  {
    hide ValidReplacement, DeleteAll, Insert, HasPath;
  }

  lemma OneStep(c: Delivery.Setup, s: Delivery.State, d: Delivery.Step)
    ensures Delivery.Run(c, s, [d]) == Delivery.Apply(c, s, d) && Delivery.Run(c, s, []) == s
  {
    hide Delivery.Apply;
    assert [d][..0] == [];
  }

  /** Serving a sent request in the protocol and registering its rows in the catalog keep step. */
  lemma ServeRepresents(c: Setup, j: Joint, q: Delivery.Request, a: nat, b: nat, r: nat)
    requires Inv(c, j, a, b, r) && q in j.client.requests
    ensures RowsFrom(q.points, c.parse) != []
    ensures var rows := RowsFrom(q.points, c.parse);
            var u := Registered(j.store.tables, q.batchSequence, rows, Compaction.SegmentOf(q.batchSequence, rows)).0;
            Represents(Delivery.Apply(c.delivery, j.client, Delivery.Serve(q)).server, u, c.parse, c.delivery.decode)
  {
    hide Delivery.Inv, CompactionSafety.Inv, Faithful, Represents, Registered, Compaction.SegmentOf, Delivery.Handle;
    RequestIsValid(c.delivery, j.client, q, a, b, r);
    LogOfTables(j.store, c.target);
    RegistrationRefines(j.client.server, j.store.tables, q, c.parse, c.delivery.decode);
  }

  lemma RequestIsValid(c: Delivery.Setup, s: Delivery.State, q: Delivery.Request, a: nat, b: nat, r: nat)
    requires Delivery.Inv(c, s, a, b, r) && q in s.requests
    ensures Delivery.ValidBatch(q.points, c.decode)
  {
    hide Delivery.JournalOk, Delivery.WindowOk, Delivery.ServerOk, Delivery.ClientOk, Delivery.ValidBatch;
  }

  lemma RegisterResult(s: Compaction.State, a: Compaction.Step, target: nat)
    requires CompactionSafety.Inv(s, target) && Compaction.Enabled(s, a, target) && a.RegisterBatch?
    ensures s.ingest.Written? && s.ingest.rows != []
    ensures var Written(batch, rows, _) := s.ingest;
            Compaction.Apply(s, a, target).tables
            == if Commits(s, a) then Registered(s.tables, batch, rows, Compaction.SegmentOf(batch, rows)).0
              else s.tables
  {
    hide CompactionSafety.Inv, Registered, Compaction.SegmentOf;
  }

  /** The store moves on with the same batch, or takes up one that was sent. */
  lemma IngestStaysSent(c: Setup, requests: set<Delivery.Request>, s: Compaction.State, a: Compaction.Step)
    requires Compaction.Enabled(s, a, c.target) && Underway(c, requests, s.ingest)
    requires a.BeginIngest? ==> Sent(c, requests, a.batch, a.rows)
    ensures Underway(c, requests, Compaction.Apply(s, a, c.target).ingest)
  {
    hide Sent, Compacted, Compaction.IsRegistered, Compaction.Accepts, PathSet, Compaction.ActivePaths, TotalRows,
         Compaction.HoldsWriteLock, Replaced, Registered, Compaction.SegmentOf, Compaction.ValidBatch;
  }

  lemma ServingKeepsRequests(c: Delivery.Setup, s: Delivery.State, d: Delivery.Step)
    requires d.Serve? || d.FinishRun?
    ensures Delivery.Apply(c, s, d).requests == s.requests
  {
    hide Delivery.Handle;
  }

  lemma StoreKeeps(c: Setup, j: Joint, action: Compaction.Step, a: nat, b: nat, r: nat)
    returns (a': nat, b': nat, r': nat)
    requires Inv(c, j, a, b, r) && Enabled(c, j, Store(action))
    ensures Inv(c, Apply(c, j, Store(action)), a', b', r')
  {
    hide Delivery.Inv, CompactionSafety.Inv, Faithful, Represents, Registered, Compaction.SegmentOf, Delivery.Apply,
         Compaction.Apply, Compaction.Enabled, Sent, Delivery.Run;
    CompactionSafety.StepKeeps(j.store, action, c.target);
    IngestStaysSent(c, j.client.requests, j.store, action);
    a', b', r' := a, b, r;
    OneStep(c.delivery, j.client, Delivery.FinishRun);
    ServingKeepsRequests(c.delivery, j.client, Delivery.FinishRun);
    if action.RegisterBatch? {
      RegisterResult(j.store, action, c.target);
      if Commits(j.store, action) {
        var q := RequestOf(c, j.client.requests, j.store.ingest.batch, j.store.ingest.rows);
        OneStep(c.delivery, j.client, Delivery.Serve(q));
        ServingKeepsRequests(c.delivery, j.client, Delivery.Serve(q));
        a', b', r' := ServeKeeps(c, j, q, a, b, r);
        ServeRepresents(c, j, q, a, b, r);
      }
    } else if action.FinishRun? {
      a', b', r' := FinishKeeps(c, j, action, a, b, r);
    } else {
      OthersRepresent(c, j.store, action, j.client.server);
      if action.BeginIngest? && action.batch in j.store.tables.batches {
        var q := RequestOf(c, j.client.requests, action.batch, action.rows);
        OneStep(c.delivery, j.client, Delivery.Serve(q));
        ServingKeepsRequests(c.delivery, j.client, Delivery.Serve(q));
        a', b', r' := ServeKeeps(c, j, q, a, b, r);
        ServeRepresents(c, j, q, a, b, r);
        DuplicateChangesNothing(j.store, action, c.target);
      }
    }
  }

  lemma ServeKeeps(c: Setup, j: Joint, q: Delivery.Request, a: nat, b: nat, r: nat) returns (a': nat, b': nat, r': nat)
    requires Delivery.Inv(c.delivery, j.client, a, b, r)
    ensures Delivery.Inv(c.delivery, Delivery.Apply(c.delivery, j.client, Delivery.Serve(q)), a', b', r')
  {
    hide Delivery.Inv, Delivery.Apply;
    a', b', r' := Delivery.StepKeeps(c.delivery, j.client, Delivery.Serve(q), a, b, r);
  }

  lemma DuplicateChangesNothing(s: Compaction.State, a: Compaction.Step, target: nat)
    requires Compaction.Enabled(s, a, target) && a.BeginIngest? && a.batch in s.tables.batches
    ensures a.rows != [] && Compaction.Apply(s, a, target) == s
    ensures Registered(s.tables, a.batch, a.rows, Compaction.SegmentOf(a.batch, a.rows)).0 == s.tables
  {
    hide Insert, MaxLast, HasPath, KeysOf;
  }

  lemma FinishKeeps(c: Setup, j: Joint, action: Compaction.Step, a: nat, b: nat, r: nat)
    returns (a': nat, b': nat, r': nat)
    requires Inv(c, j, a, b, r) && Compaction.Enabled(j.store, action, c.target) && action.FinishRun?
    ensures Delivery.Inv(c.delivery, Delivery.Apply(c.delivery, j.client, Delivery.FinishRun), a', b', r')
    ensures Represents(Delivery.Apply(c.delivery, j.client, Delivery.FinishRun).server,
                       Compaction.Apply(j.store, action, c.target).tables, c.parse, c.delivery.decode)
  {
    hide *;
    a', b', r' := ServerStepKeeps(c, j, a, b, r);
    FinishUnfolds(c, j, action);
    StillRepresentedWhenFinished(j.client.server, j.store.tables, c.parse, c.delivery.decode);
  }

  lemma ServerStepKeeps(c: Setup, j: Joint, a: nat, b: nat, r: nat) returns (a': nat, b': nat, r': nat)
    requires Inv(c, j, a, b, r)
    ensures Delivery.Inv(c.delivery, Delivery.Apply(c.delivery, j.client, Delivery.FinishRun), a', b', r')
    ensures Represents(j.client.server, j.store.tables, c.parse, c.delivery.decode)
  {
    hide Delivery.Inv, CompactionSafety.Inv, Faithful, Represents, Delivery.Apply;
    a', b', r' := Delivery.StepKeeps(c.delivery, j.client, Delivery.FinishRun, a, b, r);
  }

  lemma FinishUnfolds(c: Setup, j: Joint, action: Compaction.Step)
    requires Compaction.Enabled(j.store, action, c.target) && action.FinishRun?
    ensures Compaction.Apply(j.store, action, c.target).tables == j.store.tables.(running := false)
    ensures Delivery.Apply(c.delivery, j.client, Delivery.FinishRun).server == j.client.server.(running := false)
  {
  }

  lemma StillRepresentedWhenFinished(s: Delivery.Server, t: Tables, parse: Parser, decode: Decoder)
    requires Represents(s, t, parse, decode)
    ensures Represents(s.(running := false), t.(running := false), parse, decode)
  {
    hide LogOf, RowsFrom, Decodable;
  }

  lemma {:induction false} RunKeeps(c: Setup, states: seq<Joint>, steps: seq<Step>, i: nat)
    returns (a: nat, b: nat, r: nat)
    requires Run(c, states, steps) && i < |states|
    ensures Inv(c, states[i], a, b, r)
    decreases i
  {
    hide Delivery.Inv, CompactionSafety.Inv, Faithful, Represents, Enabled, Apply, Delivery.Initial, Inv;
    if i == 0 {
      a, b, r := 0, 0, 0;
      InitialKeeps(c, states[0]);
    } else {
      a, b, r := RunKeeps(c, states, steps, i - 1);
      match steps[i - 1]
      case Client(d) => a, b, r := ClientKeeps(c, states[i - 1], d, a, b, r);
      case Store(action) => a, b, r := StoreKeeps(c, states[i - 1], action, a, b, r);
    }
  }

  lemma InitialKeeps(c: Setup, j: Joint)
    requires Initial(c, j)
    ensures Inv(c, j, 0, 0, 0)
  {
    hide Delivery.Inv, CompactionSafety.Inv, Faithful, Represents, Delivery.Initial;
    Delivery.InitialInv(c.delivery, j.client);
  }

  /**
    In every state of every joint run, the rows in the active segment files are those the run
    had before, followed by a record prefix of the client's journal that ends at the
    acknowledged offset or at the end of the persisted delivery: nothing is lost, doubled or
    reordered between the journal and the chart, whatever crashes, retries and compactions.
   */
  lemma JournalToSegments(c: Setup, states: seq<Joint>, steps: seq<Step>, i: nat) returns (r: nat)
    requires Run(c, states, steps) && i < |states|
    ensures var d, t := states[i].client, states[i].store.tables;
            var journal := Delivery.Journal(d);
            && r <= |journal| && Tiled(t.segments)
            && LogOf(t.segments) == RowsFrom(c.delivery.base + journal[..r], c.parse)
            && (Offset(journal, r) == d.files.AckOffset()
                || (d.files.LiveDelivery().Some? && Offset(journal, r) == d.files.LiveDelivery().value.end))
  {
    hide *;
    var a, b;
    a, b, r := RunKeeps(c, states, steps, i);
    JointParts(c, states[i], a, b, r);
    DeliveryTheorems.PrefixOf(c.delivery, states[i].client, a, b, r);
  }

  lemma JointParts(c: Setup, j: Joint, a: nat, b: nat, r: nat)
    requires Inv(c, j, a, b, r)
    ensures Delivery.Inv(c.delivery, j.client, a, b, r) && Tiled(j.store.tables.segments)
    ensures LogOf(j.store.tables.segments) == RowsFrom(j.client.server.log, c.parse)
  {
    hide Delivery.Inv, CompactionSafety.Inv, Faithful, LogOf, Tiled;
    LogOfTables(j.store, c.target);
    CompactionSafety.SoundIsTiled(j.store.tables);
  }
}
