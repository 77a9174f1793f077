/** The server's locks and permits: every request takes them in one global order, so none waits forever. */
module Locks {
  import opened Wrappers

  const MUTATION_LOCKS: nat := 256
  const INGEST_WORKERS: nat := 2
  const QUERY_WORKERS: nat := 4
  const ARTIFACT_IO_WORKERS: nat := 4

  datatype Resource = Mutation(index: nat) | ArtifactPermit | IngestPermit | QueryPermit | ReadSnapshot | WriteSnapshot

  /** What requests do to runs, linked rows and files; runs are named by the index of their mutation lock. */
  datatype Effect =
    | StoreRun(run: nat)
    | CheckBatch(run: nat)
    | WriteBatch(run: nat)
    | RegisterBatch(run: nat)
    | StoreLinked(indices: seq<nat>)
    | ReadRows
    | ReadBlobs
    | SelectSegments
    | MergeSources
    | ReplaceSources
    | RemoveRetired

  datatype Instruction = Take(resource: Resource) | Drop(resource: Resource) | Work(effect: Effect)

  /** The order in which resources nest: mutation locks by index, then permits, then the snapshot lock. */
  function Rank(r: Resource): nat {
    match r
    case Mutation(index) => Min(index, MUTATION_LOCKS - 1)
    case ArtifactPermit => MUTATION_LOCKS
    case IngestPermit => MUTATION_LOCKS + 1
    case QueryPermit => MUTATION_LOCKS + 2
    case ReadSnapshot => MUTATION_LOCKS + 3
    case WriteSnapshot => MUTATION_LOCKS + 3
  }

  function Capacity(r: Resource): nat {
    match r
    case ArtifactPermit => ARTIFACT_IO_WORKERS
    case IngestPermit => INGEST_WORKERS
    case QueryPermit => QUERY_WORKERS
    case _ => 1
  }

  // ----------------------------------------------------- requests as programs

  predicate StrictlyIncreasing(s: seq<nat>) {
    forall i, j :: 0 <= i < j < |s| ==> s[i] < s[j]
  }

  function InsertOnce(x: nat, s: seq<nat>): seq<nat> {
    if s == [] || x < s[0] then [x] + s
    else if x == s[0] then s
    else [s[0]] + InsertOnce(x, s[1..])
  }

  /** Sorted without repetitions. */
  function SortDedup(indices: seq<nat>): seq<nat> {
    if indices == [] then [] else InsertOnce(indices[|indices| - 1], SortDedup(indices[..|indices| - 1]))
  }

  lemma {:induction false} InsertOnceSorts(x: nat, s: seq<nat>)
    requires StrictlyIncreasing(s)
    ensures StrictlyIncreasing(InsertOnce(x, s))
    ensures forall y :: y in InsertOnce(x, s) <==> y == x || y in s
  {
    if s != [] && x > s[0] {
      InsertOnceSorts(x, s[1..]);
      assert forall y :: y in s <==> y == s[0] || y in s[1..];
      var t := InsertOnce(x, s[1..]);
      assert forall i :: 0 <= i < |t| ==> t[i] in t;
      assert forall i :: 0 <= i < |s[1..]| ==> s[1..][i] == s[i + 1];
    }
  }

  /** `acquire_mutation_locks` takes every requested lock, each once, in increasing order. */
  lemma {:induction false} LockOrder(indices: seq<nat>)
    ensures StrictlyIncreasing(SortDedup(indices))
    ensures forall x :: x in SortDedup(indices) <==> x in indices
  {
    if indices != [] {
      var n := |indices| - 1;
      LockOrder(indices[..n]);
      InsertOnceSorts(indices[n], SortDedup(indices[..n]));
      assert forall x :: x in indices <==> x in indices[..n] || x == indices[n];
    }
  }

  method AcquireMutationLocks(indices: seq<nat>) returns (taken: seq<nat>)
    ensures taken == SortDedup(indices)
  {
    taken := [];
    var n := 0;
    while n < |indices|
      invariant n <= |indices| && taken == SortDedup(indices[..n])
    {
      assert indices[..n + 1][..n] == indices[..n];
      taken := InsertOnce(indices[n], taken);
      n := n + 1;
    }
    assert indices[..n] == indices;
  }

  function Takes(indices: seq<nat>): seq<Instruction> {
    seq(|indices|, i requires 0 <= i < |indices| => Take(Mutation(indices[i])))
  }

  function Drops(indices: seq<nat>): seq<Instruction> {
    seq(|indices|, i requires 0 <= i < |indices| => Drop(Mutation(indices[i])))
  }

  datatype Request =
    | CreateRun(run: nat, resumed: bool)
    | UpdateRun(run: nat)
    | IngestBatch(run: nat, duplicate: bool)
    | CreateLinked(indices: seq<nat>)
    | CreateArtifact(indices: seq<nat>)
    | ReadMetrics
    | ReadArtifact
    | CompactionPass(purges: bool, merges: bool)

  const READ_METRICS: seq<Instruction> :=
    [Take(QueryPermit), Take(ReadSnapshot), Work(ReadRows), Drop(ReadSnapshot), Drop(QueryPermit)]

  const READ_BLOBS: seq<Instruction> := [Take(ArtifactPermit), Work(ReadBlobs), Drop(ArtifactPermit)]

  const REMOVE_RETIRED: seq<Instruction> := [Take(WriteSnapshot), Work(RemoveRetired), Drop(WriteSnapshot)]

  const REPLACE_SOURCES: seq<Instruction> :=
    [Take(WriteSnapshot), Work(ReplaceSources), Work(RemoveRetired), Drop(WriteSnapshot)]

  /** The rows are written to a file by a worker and registered once the worker is done. */
  function AddRows(run: nat): seq<Instruction> {
    [Take(IngestPermit), Work(WriteBatch(run)), Drop(IngestPermit)] + [Work(RegisterBatch(run))]
  }

  /** What a handler does while it holds the given mutation locks. */
  function Guarded(indices: seq<nat>, body: seq<Instruction>): seq<Instruction> {
    Takes(SortDedup(indices)) + body + Drops(SortDedup(indices))
  }

  function ProgramOf(request: Request): seq<Instruction> {
    match request
    case CreateRun(run, resumed) => Guarded([run], [Work(StoreRun(run))] + if resumed then READ_METRICS else [])
    case UpdateRun(run) => Guarded([run], [Work(StoreRun(run))])
    case IngestBatch(run, duplicate) => Guarded([run], [Work(CheckBatch(run))] + if duplicate then [] else AddRows(run))
    case CreateLinked(indices) => Guarded(indices, [Work(StoreLinked(indices))])
    case CreateArtifact(indices) => READ_BLOBS + Guarded(indices, [Work(StoreLinked(indices))])
    case ReadMetrics => READ_METRICS
    case ReadArtifact => READ_BLOBS
    case CompactionPass(purges, merges) =>
      (if purges then REMOVE_RETIRED else []) + ([Work(SelectSegments)]
      + if merges then [Work(MergeSources)] + REPLACE_SOURCES else [])
  }

  // ------------------------------------------------------------- protection

  /** What must be held while the effect happens. */
  ghost function Needs(e: Effect): set<Resource> {
    match e
    case StoreRun(run) => {Mutation(run)}
    case CheckBatch(run) => {Mutation(run)}
    case WriteBatch(run) => {Mutation(run), IngestPermit}
    case RegisterBatch(run) => {Mutation(run)}
    case StoreLinked(indices) => LockSet(indices)
    case ReadRows => {QueryPermit, ReadSnapshot}
    case ReadBlobs => {ArtifactPermit}
    case SelectSegments => {}
    case MergeSources => {}
    case ReplaceSources => {WriteSnapshot}
    case RemoveRetired => {WriteSnapshot}
  }

  ghost function LockSet(indices: seq<nat>): set<Resource> {
    set i | 0 <= i < |indices| :: Mutation(indices[i])
  }

  /** What each request has to do, in order. */
  function EffectsOf(request: Request): seq<Effect> {
    match request
    case CreateRun(run, resumed) => [StoreRun(run)] + if resumed then [ReadRows] else []
    case UpdateRun(run) => [StoreRun(run)]
    case IngestBatch(run, duplicate) =>
      [CheckBatch(run)] + if duplicate then [] else [WriteBatch(run), RegisterBatch(run)]
    case CreateLinked(indices) => [StoreLinked(indices)]
    case CreateArtifact(indices) => [ReadBlobs, StoreLinked(indices)]
    case ReadMetrics => [ReadRows]
    case ReadArtifact => [ReadBlobs]
    case CompactionPass(purges, merges) =>
      (if purges then [RemoveRetired] else []) + [SelectSegments]
      + if merges then [MergeSources, ReplaceSources, RemoveRetired] else []
  }

  function Works(program: seq<Instruction>): seq<Effect> {
    if program == [] then []
    else WorkOf(program[0]) + Works(program[1..])
  }

  function WorkOf(i: Instruction): seq<Effect> {
    if i.Work? then [i.effect] else []
  }

  lemma {:induction false} WorksOfBoth(p: seq<Instruction>, q: seq<Instruction>)
    ensures Works(p + q) == Works(p) + Works(q)
    decreases |p|
  {
    if p == [] {
      assert p + q == q;
    } else {
      hide WorkOf;
      assert (p + q)[1..] == p[1..] + q && (p + q)[0] == p[0];
      WorksOfBoth(p[1..], q);
      assert WorkOf(p[0]) + (Works(p[1..]) + Works(q)) == (WorkOf(p[0]) + Works(p[1..])) + Works(q);
    }
  }

  lemma {:induction false} NoWork(program: seq<Instruction>)
    requires forall i :: 0 <= i < |program| ==> !program[i].Work?
    ensures Works(program) == []
    decreases |program|
  {
    if program != [] { NoWork(program[1..]); }
  }

  lemma WorksOfGuarded(indices: seq<nat>, body: seq<Instruction>)
    ensures Works(Guarded(indices, body)) == Works(body)
  {
    hide Works, SortDedup;
    var locks := SortDedup(indices);
    WorksOfBoth(Takes(locks) + body, Drops(locks));
    WorksOfBoth(Takes(locks), body);
    NoWork(Takes(locks));
    NoWork(Drops(locks));
  }

  lemma WorksOfBodies()
    ensures Works([]) == [] && Works(READ_METRICS) == [ReadRows] && Works(READ_BLOBS) == [ReadBlobs]
    ensures Works(REMOVE_RETIRED) == [RemoveRetired] && Works(REPLACE_SOURCES) == [ReplaceSources, RemoveRetired]
    ensures forall e :: Works([Work(e)]) == [e]
  {
  }

  lemma WorksOfAddRows(run: nat)
    ensures Works(AddRows(run)) == [WriteBatch(run), RegisterBatch(run)]
  {
    var write := [Take(IngestPermit), Work(WriteBatch(run)), Drop(IngestPermit)];
    WorksOfBoth(write, [Work(RegisterBatch(run))]);
    WorksOfBodies();
    assert write[1..] == [Work(WriteBatch(run)), Drop(IngestPermit)] && write[1..][1..] == [Drop(IngestPermit)];
    assert Works(write[1..][1..]) == [] && Works(write[1..]) == [WriteBatch(run)];
  }

  /** A program does exactly what its request has to do. */
  lemma EveryProgramDoesItsWork(request: Request)
    ensures Works(ProgramOf(request)) == EffectsOf(request)
  {
    WorksOfBodies();
    hide Works, Guarded, AddRows;
    match request
    case CreateRun(run, resumed) =>
      WorksOfGuarded([run], [Work(StoreRun(run))] + if resumed then READ_METRICS else []);
      WorksOfBoth([Work(StoreRun(run))], if resumed then READ_METRICS else []);
    case UpdateRun(run) => WorksOfGuarded([run], [Work(StoreRun(run))]);
    case IngestBatch(run, duplicate) =>
      WorksOfGuarded([run], [Work(CheckBatch(run))] + if duplicate then [] else AddRows(run));
      WorksOfBoth([Work(CheckBatch(run))], if duplicate then [] else AddRows(run));
      WorksOfAddRows(run);
    case CreateLinked(indices) => WorksOfGuarded(indices, [Work(StoreLinked(indices))]);
    case CreateArtifact(indices) =>
      WorksOfGuarded(indices, [Work(StoreLinked(indices))]);
      WorksOfBoth(READ_BLOBS, Guarded(indices, [Work(StoreLinked(indices))]));
    case CompactionPass(purges, merges) =>
      var merge := if merges then [Work(MergeSources)] + REPLACE_SOURCES else [];
      WorksOfBoth([Work(MergeSources)], REPLACE_SOURCES);
      WorksOfBoth([Work(SelectSegments)], merge);
      WorksOfBoth(if purges then REMOVE_RETIRED else [], [Work(SelectSegments)] + merge);
    case _ =>
  }

  // ------------------------------------------------------------- discipline

  /** The program takes only higher-ranked resources, drops only what it holds and works only with what that needs. */
  ghost predicate Ordered(held: set<Resource>, program: seq<Instruction>)
    decreases |program|
  {
    program == [] ||
      match program[0]
      case Take(r) => (forall h :: h in held ==> Rank(h) < Rank(r)) && Ordered(held + {r}, program[1..])
      case Drop(r) => r in held && Ordered(held - {r}, program[1..])
      case Work(e) => Needs(e) <= held && Ordered(held, program[1..])
  }

  ghost function HeldAfter(held: set<Resource>, program: seq<Instruction>): set<Resource>
    decreases |program|
  {
    if program == [] then held
    else HeldAfter(match program[0]
                   case Take(r) => held + {r}
                   case Drop(r) => held - {r}
                   case Work(_) => held,
                   program[1..])
  }

  /** The program returns everything and gives no mutation lock back before the last work that needs it. */
  ghost predicate WellOrdered(program: seq<Instruction>) {
    Ordered({}, program) && HeldAfter({}, program) == {} && Unbroken(program)
  }

  ghost predicate Unbroken(program: seq<Instruction>) {
    forall i, j :: 0 <= i < j < |program| && Returns(program[i]) && program[j].Work? ==>
      program[i].resource !in Needs(program[j].effect)
  }

  predicate Returns(i: Instruction) {
    i.Drop? && i.resource.Mutation?
  }

  predicate ReturnsNone(program: seq<Instruction>) {
    forall i :: 0 <= i < |program| ==> !Returns(program[i])
  }

  /** Mutation locks returned only at the very end. */
  lemma ReturnsLast(p: seq<Instruction>, q: seq<Instruction>)
    requires ReturnsNone(p) && forall i :: 0 <= i < |q| ==> !q[i].Work?
    ensures Unbroken(p + q)
  {
  }

  lemma {:induction false} Sequenced(held: set<Resource>, p: seq<Instruction>, q: seq<Instruction>)
    ensures Ordered(held, p) && Ordered(HeldAfter(held, p), q) ==> Ordered(held, p + q)
    ensures HeldAfter(held, p + q) == HeldAfter(HeldAfter(held, p), q)
    decreases |p|
  {
    if p == [] {
      assert p + q == q;
    } else {
      assert (p + q)[1..] == p[1..] + q;
      var next := match p[0] case Take(r) => held + {r} case Drop(r) => held - {r} case Work(_) => held;
      Sequenced(next, p[1..], q);
    }
  }

  lemma {:induction false} TakesAreOrdered(held: set<Resource>, indices: seq<nat>)
    requires StrictlyIncreasing(indices) && forall i :: 0 <= i < |indices| ==> indices[i] < MUTATION_LOCKS
    requires forall h, i :: h in held && 0 <= i < |indices| ==> Rank(h) < indices[i]
    ensures Ordered(held, Takes(indices)) && HeldAfter(held, Takes(indices)) == held + LockSet(indices)
    decreases |indices|
  {
    if indices != [] {
      var rest := indices[1..];
      assert Takes(indices)[1..] == Takes(rest);
      TakesAreOrdered(held + {Mutation(indices[0])}, rest);
      assert LockSet(indices) == {Mutation(indices[0])} + LockSet(rest) by { LockSetSplit(indices); }
    }
  }

  lemma LockSetSplit(indices: seq<nat>)
    requires indices != []
    ensures LockSet(indices) == {Mutation(indices[0])} + LockSet(indices[1..])
  {
    var rest := indices[1..];
    forall r | r in LockSet(indices)
      ensures r in {Mutation(indices[0])} + LockSet(rest)
    {
      var i :| 0 <= i < |indices| && r == Mutation(indices[i]);
      if i > 0 { assert rest[i - 1] == indices[i]; }
    }
    forall r | r in LockSet(rest)
      ensures r in LockSet(indices)
    {
      var i :| 0 <= i < |rest| && r == Mutation(rest[i]);
      assert rest[i] == indices[i + 1];
    }
  }

  lemma {:induction false} DropsAreOrdered(indices: seq<nat>)
    requires StrictlyIncreasing(indices)
    ensures Ordered(LockSet(indices), Drops(indices)) && HeldAfter(LockSet(indices), Drops(indices)) == {}
    decreases |indices|
  {
    if indices == [] {
      assert LockSet(indices) == {};
    } else {
      var rest := indices[1..];
      assert Drops(indices)[1..] == Drops(rest);
      DropsAreOrdered(rest);
      LockSetSplit(indices);
      assert Mutation(indices[0]) !in LockSet(rest);
      assert LockSet(indices) - {Mutation(indices[0])} == LockSet(rest);
    }
  }

  /** The program is in order from these holdings and ends with the same. */
  ghost predicate Neutral(held: set<Resource>, program: seq<Instruction>) {
    Ordered(held, program) && HeldAfter(held, program) == held
  }

  lemma BothNeutral(held: set<Resource>, p: seq<Instruction>, q: seq<Instruction>)
    requires Neutral(held, p) && Neutral(held, q)
    ensures Neutral(held, p + q)
  {
    Sequenced(held, p, q);
  }

  lemma NothingToDo(held: set<Resource>)
    ensures Neutral(held, [])
  {
  }

  lemma JustWork(held: set<Resource>, e: Effect)
    requires Needs(e) <= held
    ensures Neutral(held, [Work(e)])
  {
    assert [Work(e)][1..] == [];
  }

  lemma Nested(held: set<Resource>, r: Resource, body: seq<Instruction>)
    requires (forall h :: h in held ==> Rank(h) < Rank(r)) && Neutral(held + {r}, body)
    ensures Neutral(held, [Take(r)] + body + [Drop(r)])
  {
    assert r !in held;
    assert [Take(r)][1..] == [] && [Drop(r)][1..] == [];
    assert held + {r} - {r} == held;
    assert HeldAfter(held, [Take(r)]) == HeldAfter(held + {r}, [Take(r)][1..]);
    assert Ordered(held, [Take(r)]) && HeldAfter(held, [Take(r)]) == held + {r};
    assert HeldAfter(held + {r}, [Drop(r)]) == HeldAfter(held + {r} - {r}, [Drop(r)][1..]);
    assert Ordered(held + {r}, [Drop(r)]) && HeldAfter(held + {r}, [Drop(r)]) == held;
    Sequenced(held, [Take(r)], body);
    Sequenced(held, [Take(r)] + body, [Drop(r)]);
  }

  lemma WorkWith(held: set<Resource>, r: Resource, e: Effect)
    requires (forall h :: h in held ==> Rank(h) < Rank(r)) && Needs(e) <= held + {r}
    ensures Neutral(held, [Take(r), Work(e), Drop(r)])
  {
    hide Neutral;
    JustWork(held + {r}, e);
    Nested(held, r, [Work(e)]);
    assert [Take(r)] + [Work(e)] + [Drop(r)] == [Take(r), Work(e), Drop(r)];
  }

  lemma ReadingIsNeutral(held: set<Resource>)
    requires forall h :: h in held ==> Rank(h) < MUTATION_LOCKS
    ensures Neutral(held, READ_METRICS)
  {
    hide Neutral;
    WorkWith(held + {QueryPermit}, ReadSnapshot, ReadRows);
    Nested(held, QueryPermit, [Take(ReadSnapshot), Work(ReadRows), Drop(ReadSnapshot)]);
    assert [Take(QueryPermit)] + [Take(ReadSnapshot), Work(ReadRows), Drop(ReadSnapshot)] + [Drop(QueryPermit)]
        == READ_METRICS;
  }

  lemma AddingRowsIsNeutral(held: set<Resource>, run: nat)
    requires (forall h :: h in held ==> Rank(h) < MUTATION_LOCKS) && Mutation(run) in held
    ensures Neutral(held, AddRows(run))
  {
    hide Neutral;
    WorkWith(held, IngestPermit, WriteBatch(run));
    JustWork(held, RegisterBatch(run));
    BothNeutral(held, [Take(IngestPermit), Work(WriteBatch(run)), Drop(IngestPermit)], [Work(RegisterBatch(run))]);
  }

  lemma ReplacingIsNeutral()
    ensures Neutral({}, REPLACE_SOURCES)
  {
    hide Neutral;
    JustWork({} + {WriteSnapshot}, ReplaceSources);
    JustWork({} + {WriteSnapshot}, RemoveRetired);
    BothNeutral({} + {WriteSnapshot}, [Work(ReplaceSources)], [Work(RemoveRetired)]);
    Nested({}, WriteSnapshot, [Work(ReplaceSources)] + [Work(RemoveRetired)]);
    assert [Take(WriteSnapshot)] + ([Work(ReplaceSources)] + [Work(RemoveRetired)]) + [Drop(WriteSnapshot)]
        == REPLACE_SOURCES;
  }

  lemma SameLocks(indices: seq<nat>)
    ensures LockSet(SortDedup(indices)) == LockSet(indices)
  {
    LockOrder(indices);
    hide SortDedup;
    forall r
      ensures r in LockSet(SortDedup(indices)) <==> r in LockSet(indices)
    {
      InLockSet(indices, r);
      InLockSet(SortDedup(indices), r);
    }
  }

  lemma InLockSet(indices: seq<nat>, r: Resource)
    ensures r in LockSet(indices) <==> r.Mutation? && r.index in indices
  {
  }

  lemma GuardedIsOrdered(indices: seq<nat>, body: seq<Instruction>)
    requires forall i :: 0 <= i < |indices| ==> indices[i] < MUTATION_LOCKS
    requires Neutral(LockSet(indices), body) && ReturnsNone(body)
    ensures WellOrdered(Guarded(indices, body))
  {
    hide Ordered, HeldAfter, SortDedup;
    LockOrder(indices);
    SameLocks(indices);
    var locks := SortDedup(indices);
    assert forall i :: 0 <= i < |locks| ==> locks[i] in indices;
    TakesAreOrdered({}, locks);
    assert {} + LockSet(locks) == LockSet(locks);
    DropsAreOrdered(locks);
    Sequenced({}, Takes(locks), body);
    Sequenced({}, Takes(locks) + body, Drops(locks));
    ReturnsLast(Takes(locks) + body, Drops(locks));
  }

  predicate ValidRequest(request: Request) {
    match request
    case CreateRun(run, _) => run < MUTATION_LOCKS
    case UpdateRun(run) => run < MUTATION_LOCKS
    case IngestBatch(run, _) => run < MUTATION_LOCKS
    case CreateLinked(indices) => forall i :: 0 <= i < |indices| ==> indices[i] < MUTATION_LOCKS
    case CreateArtifact(indices) => forall i :: 0 <= i < |indices| ==> indices[i] < MUTATION_LOCKS
    case _ => true
  }

  /** The lock of one run, which ranks below all permits. */
  lemma OneLock(run: nat)
    requires run < MUTATION_LOCKS
    ensures LockSet([run]) == {Mutation(run)} && forall h :: h in LockSet([run]) ==> Rank(h) < MUTATION_LOCKS
  {
    assert [run][0] == run;
  }

  lemma RunProgramIsOrdered(run: nat, e: Effect, more: seq<Instruction>)
    requires run < MUTATION_LOCKS && Needs(e) == {Mutation(run)}
    requires more in [[], READ_METRICS, AddRows(run)]
    ensures WellOrdered(Guarded([run], [Work(e)] + more))
  {
    hide WellOrdered, Neutral, Guarded;
    OneLock(run);
    JustWork(LockSet([run]), e);
    NothingToDo(LockSet([run]));
    ReadingIsNeutral(LockSet([run]));
    AddingRowsIsNeutral(LockSet([run]), run);
    BothNeutral(LockSet([run]), [Work(e)], more);
    GuardedIsOrdered([run], [Work(e)] + more);
  }

  lemma LinkedProgramIsOrdered(indices: seq<nat>)
    requires forall i :: 0 <= i < |indices| ==> indices[i] < MUTATION_LOCKS
    ensures WellOrdered(Guarded(indices, [Work(StoreLinked(indices))]))
  {
    hide WellOrdered, Neutral, Guarded;
    JustWork(LockSet(indices), StoreLinked(indices));
    GuardedIsOrdered(indices, [Work(StoreLinked(indices))]);
  }

  lemma NeutralIsOrdered(program: seq<Instruction>)
    requires Neutral({}, program) && ReturnsNone(program)
    ensures WellOrdered(program)
  {
  }

  lemma BeforeOrdered(p: seq<Instruction>, q: seq<Instruction>)
    requires Neutral({}, p) && ReturnsNone(p) && WellOrdered(q)
    ensures WellOrdered(p + q)
  {
    Sequenced({}, p, q);
    forall i, j | 0 <= i < j < |p + q| && Returns((p + q)[i]) && (p + q)[j].Work?
      ensures (p + q)[i].resource !in Needs((p + q)[j].effect)
    {
      assert (p + q)[i] == q[i - |p|] && (p + q)[j] == q[j - |p|];
    }
  }

  lemma PassIsOrdered(purges: bool, merges: bool)
    ensures WellOrdered(ProgramOf(CompactionPass(purges, merges)))
  {
    hide WellOrdered, Neutral;
    NothingToDo({});
    WorkWith({}, WriteSnapshot, RemoveRetired);
    JustWork({}, SelectSegments);
    JustWork({}, MergeSources);
    ReplacingIsNeutral();
    var merge := if merges then [Work(MergeSources)] + REPLACE_SOURCES else [];
    BothNeutral({}, [Work(MergeSources)], REPLACE_SOURCES);
    BothNeutral({}, [Work(SelectSegments)], merge);
    BothNeutral({}, if purges then REMOVE_RETIRED else [], [Work(SelectSegments)] + merge);
    NeutralIsOrdered(ProgramOf(CompactionPass(purges, merges)));
  }

  /** Every handler, and the compaction worker, respects the global order, works protected and returns all it took. */
  lemma EveryProgramIsWellOrdered(request: Request)
    requires ValidRequest(request)
    ensures WellOrdered(ProgramOf(request))
  {
    hide WellOrdered, Neutral, Guarded, AddRows;
    WorkWith({}, ArtifactPermit, ReadBlobs);
    match request
    case CreateRun(run, resumed) => RunProgramIsOrdered(run, StoreRun(run), if resumed then READ_METRICS else []);
    case UpdateRun(run) =>
      RunProgramIsOrdered(run, StoreRun(run), []);
      assert [Work(StoreRun(run))] + [] == [Work(StoreRun(run))];
    case IngestBatch(run, duplicate) => RunProgramIsOrdered(run, CheckBatch(run), if duplicate then []
                                                            else AddRows(run));
    case CreateLinked(indices) => LinkedProgramIsOrdered(indices);
    case CreateArtifact(indices) =>
      LinkedProgramIsOrdered(indices);
      BeforeOrdered(READ_BLOBS, Guarded(indices, [Work(StoreLinked(indices))]));
    case ReadMetrics =>
      ReadingIsNeutral({});
      NeutralIsOrdered(READ_METRICS);
    case ReadArtifact => NeutralIsOrdered(READ_BLOBS);
    case CompactionPass(purges, merges) => PassIsOrdered(purges, merges);
  }

  // ---------------------------------------------------------------- running

  /** A request in flight: what it holds and what it has left to do. */
  datatype Task = Task(held: set<Resource>, rest: seq<Instruction>)

  type Tasks = seq<Task>

  function Holders(tasks: Tasks, r: Resource): nat {
    if tasks == [] then 0 else Holders(tasks[1..], r) + if r in tasks[0].held then 1 else 0
  }

  predicate Held(tasks: Tasks, r: Resource) {
    exists i :: 0 <= i < |tasks| && r in tasks[i].held
  }

  predicate Waits(task: Task, r: Resource) {
    task.rest != [] && task.rest[0] == Take(r)
  }

  /** Whether the resource can be granted now; readers also give way to a waiting writer. */
  predicate Free(tasks: Tasks, r: Resource) {
    match r
    case Mutation(_) => !Held(tasks, r)
    case ReadSnapshot => !Held(tasks, WriteSnapshot) && !exists i :: 0 <= i < |tasks| && Waits(tasks[i], WriteSnapshot)
    case WriteSnapshot => !Held(tasks, WriteSnapshot) && !Held(tasks, ReadSnapshot)
    case _ => Holders(tasks, r) < Capacity(r)
  }

  predicate CanStep(tasks: Tasks, i: nat) {
    && i < |tasks| && tasks[i].rest != []
    && (tasks[i].rest[0].Take? ==> Free(tasks, tasks[i].rest[0].resource))
  }

  function Advance(task: Task): Task
    requires task.rest != []
  {
    var held := match task.rest[0]
      case Take(r) => task.held + {r}
      case Drop(r) => task.held - {r}
      case Work(_) => task.held;
    Task(held, task.rest[1..])
  }

  function Step(tasks: Tasks, i: nat): Tasks
    requires CanStep(tasks, i)
  {
    tasks[i := Advance(tasks[i])]
  }

  /** A disconnected client's handler is dropped and returns everything. */
  function Cancel(tasks: Tasks, i: nat): Tasks
    requires i < |tasks|
  {
    tasks[i := Task({}, [])]
  }

  ghost predicate Disciplined(tasks: Tasks) {
    forall i :: 0 <= i < |tasks| ==>
             Ordered(tasks[i].held, tasks[i].rest) && HeldAfter(tasks[i].held, tasks[i].rest) == {}
  }

  /** Exclusive resources have one holder, permits no more than there are. */
  ghost predicate Exclusive(tasks: Tasks) {
    && (forall i, j, r: Resource :: 0 <= i < j < |tasks| && r in tasks[i].held && r in tasks[j].held ==>
          r.ArtifactPermit? || r.IngestPermit? || r.QueryPermit? || r.ReadSnapshot?)
    && (forall i, j :: 0 <= i < |tasks| && 0 <= j < |tasks| && i != j && WriteSnapshot in tasks[i].held ==>
          ReadSnapshot !in tasks[j].held)
    && Holders(tasks, ArtifactPermit) <= ARTIFACT_IO_WORKERS && Holders(tasks, IngestPermit) <= INGEST_WORKERS
    && Holders(tasks, QueryPermit) <= QUERY_WORKERS
  }

  function Left(tasks: Tasks): nat {
    if tasks == [] then 0 else Left(tasks[1..]) + |tasks[0].rest|
  }

  // ---------------------------------------------------------- deadlock freedom

  lemma {:induction false} SomeHolder(tasks: Tasks, r: Resource) returns (i: nat)
    requires Holders(tasks, r) > 0
    ensures i < |tasks| && r in tasks[i].held
    decreases |tasks|
  {
    if r in tasks[0].held {
      i := 0;
    } else {
      var j := SomeHolder(tasks[1..], r);
      i := j + 1;
    }
  }

  /** A holder is never finished, and whatever it waits for ranks above what it holds. */
  lemma HolderContinues(tasks: Tasks, i: nat, r: Resource)
    requires Disciplined(tasks) && i < |tasks| && r in tasks[i].held
    ensures tasks[i].rest != []
    ensures tasks[i].rest[0].Take? ==> Rank(r) < Rank(tasks[i].rest[0].resource)
  {
    assert Ordered(tasks[i].held, tasks[i].rest) && HeldAfter(tasks[i].held, tasks[i].rest) == {};
  }

  /** What a blocked task waits for: someone who holds its resource, or a writer queued before it. */
  lemma Blocker(tasks: Tasks, i: nat) returns (j: nat)
    requires Disciplined(tasks) && i < |tasks| && tasks[i].rest != [] && !CanStep(tasks, i)
    ensures tasks[i].rest[0].Take? && j < |tasks| && tasks[j].rest != []
    ensures tasks[j].rest[0].Take? ==>
              var mine, other := tasks[i].rest[0].resource, tasks[j].rest[0].resource;
              Rank(mine) < Rank(other) || (mine == ReadSnapshot && other == WriteSnapshot)
  {
    hide Ordered, HeldAfter;
    var r := tasks[i].rest[0].resource;
    if r.Mutation? {
      j :| 0 <= j < |tasks| && r in tasks[j].held;
      HolderContinues(tasks, j, r);
    } else if r.ReadSnapshot? {
      if Held(tasks, WriteSnapshot) {
        j :| 0 <= j < |tasks| && WriteSnapshot in tasks[j].held;
        HolderContinues(tasks, j, WriteSnapshot);
      } else {
        j :| 0 <= j < |tasks| && Waits(tasks[j], WriteSnapshot);
      }
    } else if r.WriteSnapshot? {
      var s := if Held(tasks, WriteSnapshot) then WriteSnapshot else ReadSnapshot;
      j :| 0 <= j < |tasks| && s in tasks[j].held;
      HolderContinues(tasks, j, s);
    } else {
      j := SomeHolder(tasks, r);
      HolderContinues(tasks, j, r);
    }
  }

  /** Whatever any unfinished request waits for, following the blockers leads to one that can move. */
  lemma {:induction false} SomeoneCanStep(tasks: Tasks, i: nat) returns (j: nat)
    requires Disciplined(tasks) && i < |tasks| && tasks[i].rest != []
    ensures CanStep(tasks, j)
    decreases MUTATION_LOCKS + 4
              - (if tasks[i].rest[0].Take? then Rank(tasks[i].rest[0].resource) else MUTATION_LOCKS + 4),
              tasks[i].rest[0] == Take(ReadSnapshot)
  {
    hide Disciplined;
    if CanStep(tasks, i) {
      j := i;
    } else {
      var k := Blocker(tasks, i);
      if CanStep(tasks, k) {
        j := k;
      } else {
        assert tasks[k].rest[0].Take?;
        j := SomeoneCanStep(tasks, k);
      }
    }
  }

  lemma AdvanceKeepsDiscipline(tasks: Tasks, i: nat)
    requires Disciplined(tasks) && CanStep(tasks, i)
    ensures Disciplined(Step(tasks, i))
  {
    assert Ordered(tasks[i].held, tasks[i].rest) && HeldAfter(tasks[i].held, tasks[i].rest) == {};
    forall j | 0 <= j < |tasks| && j != i
      ensures Step(tasks, i)[j] == tasks[j]
    {
    }
  }

  lemma CancelKeepsDiscipline(tasks: Tasks, i: nat)
    requires Disciplined(tasks) && i < |tasks|
    ensures Disciplined(Cancel(tasks, i))
  {
    assert forall j :: 0 <= j < |tasks| && j != i ==> Cancel(tasks, i)[j] == tasks[j];
  }

  lemma {:induction false} HoldersAfter(tasks: Tasks, i: nat, t: Task, r: Resource)
    requires i < |tasks|
    ensures Holders(tasks[i := t], r) + (if r in tasks[i].held then 1 else 0)
            == Holders(tasks, r) + (if r in t.held then 1 else 0)
    decreases i
  {
    if i == 0 {
      assert tasks[0 := t][1..] == tasks[1..];
    } else {
      assert tasks[i := t][1..] == tasks[1..][i - 1 := t];
      HoldersAfter(tasks[1..], i - 1, t, r);
    }
  }

  lemma {:induction false} LeftAfter(tasks: Tasks, i: nat, t: Task)
    requires i < |tasks|
    ensures Left(tasks[i := t]) + |tasks[i].rest| == Left(tasks) + |t.rest|
    decreases i
  {
    if i == 0 {
      assert tasks[0 := t][1..] == tasks[1..];
    } else {
      assert tasks[i := t][1..] == tasks[1..][i - 1 := t];
      LeftAfter(tasks[1..], i - 1, t);
    }
  }

  /** Granting, returning and cancelling keep every lock exclusive and every permit within its capacity. */
  lemma StepKeepsExclusion(tasks: Tasks, i: nat)
    requires Exclusive(tasks) && CanStep(tasks, i)
    ensures Exclusive(Step(tasks, i))
  {
    hide Holders;
    var t := Advance(tasks[i]);
    forall r: Resource
      ensures Holders(Step(tasks, i), r) + (if r in tasks[i].held then 1 else 0)
              == Holders(tasks, r) + (if r in t.held then 1 else 0)
    {
      HoldersAfter(tasks, i, t, r);
    }
    assert forall j :: 0 <= j < |tasks| && j != i ==> Step(tasks, i)[j] == tasks[j];
    assert Step(tasks, i)[i] == t;
  }

  lemma CancelKeepsExclusion(tasks: Tasks, i: nat)
    requires Exclusive(tasks) && i < |tasks|
    ensures Exclusive(Cancel(tasks, i))
  {
    hide Holders;
    forall r: Resource
      ensures Holders(Cancel(tasks, i), r) <= Holders(tasks, r)
    {
      HoldersAfter(tasks, i, Task({}, []), r);
    }
    assert forall j :: 0 <= j < |tasks| && j != i ==> Cancel(tasks, i)[j] == tasks[j];
  }

  // -------------------------------------------------------------- whole runs

  datatype Move = Move(task: nat, cancelled: bool)

  function Starting(requests: seq<Request>): Tasks {
    seq(|requests|, i requires 0 <= i < |requests| => Task({}, ProgramOf(requests[i])))
  }

  ghost predicate Enabled(tasks: Tasks, m: Move) {
    if m.cancelled then m.task < |tasks| && tasks[m.task].rest != [] else CanStep(tasks, m.task)
  }

  function Apply(tasks: Tasks, m: Move): Tasks
    requires Enabled(tasks, m)
  {
    if m.cancelled then Cancel(tasks, m.task) else Step(tasks, m.task)
  }

  /** Any interleaving of any number of requests, some of them cancelled on the way. */
  ghost predicate Run(requests: seq<Request>, states: seq<Tasks>, moves: seq<Move>) {
    && (forall i :: 0 <= i < |requests| ==> ValidRequest(requests[i]))
    && |states| == |moves| + 1 && states[0] == Starting(requests)
    && forall n :: 0 <= n < |moves| ==> Enabled(states[n], moves[n]) && states[n + 1] == Apply(states[n], moves[n])
  }

  lemma StartIsDisciplined(requests: seq<Request>)
    requires forall i :: 0 <= i < |requests| ==> ValidRequest(requests[i])
    ensures Disciplined(Starting(requests)) && Exclusive(Starting(requests))
  {
    hide Ordered, HeldAfter, ProgramOf;
    forall i | 0 <= i < |requests|
      ensures WellOrdered(ProgramOf(requests[i]))
    {
      EveryProgramIsWellOrdered(requests[i]);
    }
    forall r: Resource
      ensures Holders(Starting(requests), r) == 0
    {
      NobodyHolds(Starting(requests), r);
    }
  }

  lemma {:induction false} NobodyHolds(tasks: Tasks, r: Resource)
    requires forall i :: 0 <= i < |tasks| ==> tasks[i].held == {}
    ensures Holders(tasks, r) == 0
  {
    if tasks != [] { NobodyHolds(tasks[1..], r); }
  }

  lemma {:induction false} RunKeeps(requests: seq<Request>, states: seq<Tasks>, moves: seq<Move>, n: nat)
    requires Run(requests, states, moves) && n < |states|
    ensures Disciplined(states[n]) && Exclusive(states[n])
    ensures n + Left(states[n]) <= Left(states[0])
    decreases n
  {
    hide Disciplined, Exclusive, Left, CanStep;
    if n == 0 {
      StartIsDisciplined(requests);
    } else {
      RunKeeps(requests, states, moves, n - 1);
      var before, m := states[n - 1], moves[n - 1];
      assert Enabled(before, m) && states[n] == Apply(before, m);
      MoveKeeps(before, m);
    }
  }

  lemma MoveKeeps(tasks: Tasks, m: Move)
    requires Disciplined(tasks) && Exclusive(tasks) && Enabled(tasks, m)
    ensures Disciplined(Apply(tasks, m)) && Exclusive(Apply(tasks, m)) && Left(Apply(tasks, m)) < Left(tasks)
  {
    hide Disciplined, Exclusive, Left, Free;
    if m.cancelled {
      CancelKeepsDiscipline(tasks, m.task);
      CancelKeepsExclusion(tasks, m.task);
      LeftAfter(tasks, m.task, Task({}, []));
    } else {
      AdvanceKeepsDiscipline(tasks, m.task);
      StepKeepsExclusion(tasks, m.task);
      LeftAfter(tasks, m.task, Advance(tasks[m.task]));
    }
  }

  /** In every reachable state with unfinished requests, one of them can step. */
  lemma NoDeadlock(requests: seq<Request>, states: seq<Tasks>, moves: seq<Move>, n: nat, i: nat) returns (j: nat)
    requires Run(requests, states, moves) && n < |states| && i < |states[n]| && states[n][i].rest != []
    ensures CanStep(states[n], j)
  {
    hide Disciplined, CanStep, Run;
    RunKeeps(requests, states, moves, n);
    j := SomeoneCanStep(states[n], i);
  }

  /** No run is longer than the work requested, and a run that cannot continue has finished every request. */
  lemma EveryRunFinishes(requests: seq<Request>, states: seq<Tasks>, moves: seq<Move>)
    requires Run(requests, states, moves)
    ensures |moves| <= Left(Starting(requests))
    ensures (forall j: nat :: !CanStep(states[|moves|], j)) ==>
              forall i :: 0 <= i < |states[|moves|]| ==> states[|moves|][i].rest == []
  {
    hide Disciplined, CanStep, Left;
    RunKeeps(requests, states, moves, |moves|);
    var last := states[|moves|];
    forall i | 0 <= i < |last| && last[i].rest != []
      ensures exists j: nat :: CanStep(last, j)
    {
      var j := SomeoneCanStep(last, i);
    }
  }

  // -------------------------------------------------------------- protection

  /** The task is about to have this effect. */
  predicate AboutTo(task: Task, e: Effect) {
    task.rest != [] && task.rest[0] == Work(e)
  }

  /** The task still has this effect before it. */
  predicate StillTo(task: Task, e: Effect) {
    Work(e) in task.rest
  }

  /** Whatever happens in a reachable state is protected by what it needs. */
  lemma WorkIsProtected(requests: seq<Request>, states: seq<Tasks>, moves: seq<Move>, n: nat, i: nat, e: Effect)
    requires Run(requests, states, moves) && n < |states| && i < |states[n]| && AboutTo(states[n][i], e)
    ensures Needs(e) <= states[n][i].held
  {
    RunKeeps(requests, states, moves, n);
    hide Run, Exclusive;
    assert Ordered(states[n][i].held, states[n][i].rest);
  }

  /** The effect is on the run or row whose mutation lock has this index. */
  predicate Touches(e: Effect, x: nat) {
    match e
    case StoreRun(run) => run == x
    case CheckBatch(run) => run == x
    case WriteBatch(run) => run == x
    case RegisterBatch(run) => run == x
    case StoreLinked(indices) => x in indices
    case _ => false
  }

  /** The effect takes segments or files away from readers. */
  predicate TakesAway(e: Effect) {
    e.ReplaceSources? || e.RemoveRetired?
  }

  /** These two must not happen at once. */
  ghost predicate Conflict(e: Effect, f: Effect) {
    || (exists x: nat :: Touches(e, x) && Touches(f, x))
    || (TakesAway(e) && (TakesAway(f) || f.ReadRows?))
    || (e.ReadRows? && TakesAway(f))
  }

  lemma TouchingNeedsLock(e: Effect, x: nat)
    ensures Touches(e, x) <==> Mutation(x) in Needs(e)
  {
    if e.StoreLinked? { InLockSet(e.indices, Mutation(x)); }
  }

  /** No two requests are ever about to do conflicting work. */
  lemma NoConflict(requests: seq<Request>, states: seq<Tasks>, moves: seq<Move>, n: nat, i: nat, j: nat, e: Effect,
                   f: Effect)
    requires Run(requests, states, moves) && n < |states| && i < |states[n]| && j < |states[n]| && i != j
    requires AboutTo(states[n][i], e) && AboutTo(states[n][j], f)
    ensures !Conflict(e, f)
  {
    WorkIsProtected(requests, states, moves, n, i, e);
    WorkIsProtected(requests, states, moves, n, j, f);
    RunKeeps(requests, states, moves, n);
    if Conflict(e, f) {
      var r, s := Clash(e, f);
      HeldApart(states[n], i, j, r, s);
    }
  }

  /** What conflicting work needs excludes each other. */
  lemma Clash(e: Effect, f: Effect) returns (r: Resource, s: Resource)
    requires Conflict(e, f)
    ensures r in Needs(e) && s in Needs(f)
    ensures (r.Mutation? && r == s) || (r.WriteSnapshot? && (s.WriteSnapshot? || s.ReadSnapshot?))
            || (r.ReadSnapshot? && s.WriteSnapshot?)
  {
    if x: nat :| Touches(e, x) && Touches(f, x) {
      TouchingNeedsLock(e, x);
      TouchingNeedsLock(f, x);
      return Mutation(x), Mutation(x);
    }
    r := if TakesAway(e) then WriteSnapshot else ReadSnapshot;
    s := if TakesAway(f) then WriteSnapshot else ReadSnapshot;
  }

  lemma HeldApart(tasks: Tasks, i: nat, j: nat, r: Resource, s: Resource)
    requires Exclusive(tasks) && i < |tasks| && j < |tasks| && i != j && r in tasks[i].held && s in tasks[j].held
    ensures !(r.Mutation? && r == s) && !(r.WriteSnapshot? && (s.WriteSnapshot? || s.ReadSnapshot?))
            && !(r.ReadSnapshot? && s.WriteSnapshot?)
  {
    hide Holders;
    assert r.WriteSnapshot? ==> r == WriteSnapshot;
    assert s.WriteSnapshot? ==> s == WriteSnapshot;
    assert r.ReadSnapshot? ==> r == ReadSnapshot;
    assert s.ReadSnapshot? ==> s == ReadSnapshot;
  }

  /** The mutation lock of work to come is not given back. */
  ghost predicate AllUnbroken(tasks: Tasks) {
    forall i :: 0 <= i < |tasks| ==> Unbroken(tasks[i].rest)
  }

  lemma {:induction false} RunIsUnbroken(requests: seq<Request>, states: seq<Tasks>, moves: seq<Move>, n: nat)
    requires Run(requests, states, moves) && n < |states|
    ensures AllUnbroken(states[n]) && |states[n]| == |requests|
    decreases n
  {
    hide Unbroken, ProgramOf, CanStep;
    if n == 0 {
      forall i | 0 <= i < |requests|
        ensures Unbroken(ProgramOf(requests[i]))
      {
        EveryProgramIsWellOrdered(requests[i]);
      }
    } else {
      RunIsUnbroken(requests, states, moves, n - 1);
      var before, m := states[n - 1], moves[n - 1];
      assert Enabled(before, m) && states[n] == Apply(before, m);
      MoveKeepsUnbroken(before, m);
    }
  }

  lemma MoveKeepsUnbroken(tasks: Tasks, m: Move)
    requires AllUnbroken(tasks) && Enabled(tasks, m)
    ensures AllUnbroken(Apply(tasks, m)) && |Apply(tasks, m)| == |tasks|
  {
    hide Unbroken, Free;
    UnbrokenRest(tasks[m.task].rest);
    assert forall j :: 0 <= j < |tasks| && j != m.task ==> Apply(tasks, m)[j] == tasks[j];
  }

  lemma UnbrokenRest(program: seq<Instruction>)
    requires program != [] && Unbroken(program)
    ensures Unbroken(program[1..]) && Unbroken([])
  {
  }

  /** What is still to do after some moves was still to do before them. */
  lemma {:induction false} StillToEarlier(requests: seq<Request>, states: seq<Tasks>, moves: seq<Move>, m: nat, n: nat,
                                          i: nat, e: Effect)
    requires Run(requests, states, moves) && m <= n < |states| && i < |requests|
    ensures |states[m]| == |states[n]| == |requests|
    ensures StillTo(states[n][i], e) ==> StillTo(states[m][i], e)
    decreases n - m
  {
    RunIsUnbroken(requests, states, moves, m);
    RunIsUnbroken(requests, states, moves, n);
    hide AllUnbroken, Starting, CanStep, Needs;
    if m < n {
      StillToEarlier(requests, states, moves, m + 1, n, i, e);
      assert Enabled(states[m], moves[m]) && states[m + 1] == Apply(states[m], moves[m]);
      OneMoveLeavesRest(states[m], moves[m], i, e);
    }
  }

  lemma OneMoveLeavesRest(tasks: Tasks, m: Move, i: nat, e: Effect)
    requires Enabled(tasks, m) && i < |tasks|
    ensures i < |Apply(tasks, m)| && (StillTo(Apply(tasks, m)[i], e) ==> StillTo(tasks[i], e))
  {
    hide Free;
  }

  /** One move of any task: a lock that work to come needs stays with its holder. */
  lemma OneMoveKeepsLock(tasks: Tasks, m: Move, i: nat, e: Effect, x: nat)
    requires Enabled(tasks, m) && AllUnbroken(tasks) && i < |tasks| && Mutation(x) in tasks[i].held
    requires Touches(e, x) && i < |Apply(tasks, m)| && StillTo(Apply(tasks, m)[i], e)
    ensures Mutation(x) in Apply(tasks, m)[i].held
  {
    hide Free, Unbroken, Touches;
    if m.task == i && !m.cancelled { LockStays(tasks[i].rest, e, x); }
  }

  lemma LockStays(program: seq<Instruction>, e: Effect, x: nat)
    requires program != [] && Unbroken(program) && Work(e) in program[1..] && Touches(e, x)
    ensures program[0] != Drop(Mutation(x))
  {
    TouchingNeedsLock(e, x);
    hide Needs;
    var k :| 0 <= k < |program[1..]| && program[1..][k] == Work(e);
    assert program[k + 1] == Work(e);
  }

  /** From the first work of a request on a run or row to its last one, nobody else does any work on it. */
  lemma {:induction false} RequestsAreIsolated(requests: seq<Request>, states: seq<Tasks>, moves: seq<Move>, m: nat,
                                               l: nat, n: nat, i: nat, e: Effect, f: Effect, x: nat)
    requires Run(requests, states, moves) && m <= l <= n < |states| && i < |requests|
    requires |states[m]| == |states[l]| == |states[n]| == |requests|
    requires AboutTo(states[m][i], e) && Touches(e, x) && StillTo(states[n][i], f) && Touches(f, x)
    ensures Mutation(x) in states[l][i].held
    ensures forall j, g :: 0 <= j < |states[l]| && j != i && AboutTo(states[l][j], g) ==> !Touches(g, x)
    decreases l - m
  {
    hide AllUnbroken, Starting, CanStep, Needs, Touches, Ordered, HeldAfter, Free, AboutTo, StillTo;
    if l == m {
      WorkIsProtected(requests, states, moves, m, i, e);
      TouchingNeedsLock(e, x);
    } else {
      RunIsUnbroken(requests, states, moves, l - 1);
      RequestsAreIsolated(requests, states, moves, m, l - 1, n, i, e, f, x);
      StillToEarlier(requests, states, moves, l, n, i, f);
      assert Enabled(states[l - 1], moves[l - 1]) && states[l] == Apply(states[l - 1], moves[l - 1]);
      OneMoveKeepsLock(states[l - 1], moves[l - 1], i, f, x);
    }
    NobodyElseTouches(requests, states, moves, l, i, x);
  }

  lemma NobodyElseTouches(requests: seq<Request>, states: seq<Tasks>, moves: seq<Move>, l: nat, i: nat, x: nat)
    requires Run(requests, states, moves) && l < |states| && i < |states[l]| && Mutation(x) in states[l][i].held
    ensures forall j, g :: 0 <= j < |states[l]| && j != i && AboutTo(states[l][j], g) ==> !Touches(g, x)
  {
    RunKeeps(requests, states, moves, l);
    hide Run, Needs, Disciplined, Exclusive, Touches;
    forall j, g | 0 <= j < |states[l]| && j != i && AboutTo(states[l][j], g)
      ensures !Touches(g, x)
    {
      WorkIsProtected(requests, states, moves, l, j, g);
      TouchingNeedsLock(g, x);
      if Touches(g, x) { HeldApart(states[l], i, j, Mutation(x), Mutation(x)); }
    }
  }
}
