/**
 The replicated state machine: a log entry becomes one SQL transaction on the node's database.

 SQL execution, the protobuf and JSON decoders and the database image are functions of an
 `Engine`; execution is deterministic and sees only the replicated tables. The rows of
 job_executions_uncommitted are kept beside them: commands can at most delete from that table,
 through a cascade, and nothing a command does depends on it.
 */
module StateMachine {
  import opened Collections
  import opened SnapshotCodec
  import opened LogTables

  datatype EntryKind = LogCommand | LogNoop | LogBarrier | LogConfiguration

  datatype Entry = Entry(index: nat, term: nat, kind: EntryKind, data: bytes)

  datatype Command = Command(sql: string, data: bytes, targetNodes: seq<nat>, targetAction: nat)

  const QUEUE_JOB: nat := 0
  const CLEAN_UNCOMMITTED_ASYNC_TASKS_LOGS: nat := 1
  const CLEAN_UNCOMMITTED_EXECUTION_LOGS: nat := 2

  /** An error is Go's error text; the empty text means success. */
  datatype Response = Response(lastInsertedId: int, rowsAffected: int, error: string)

  datatype PostProcess = PostProcess(action: nat, targetNodes: seq<nat>, lastInsertedId: int, rowsAffected: int)

  /** How a transaction ends. A commit is final even if reading its result fails afterwards. */
  datatype TxOutcome<R> =
    | BeginFails(error: string)
    | ExecFails(error: string)
    | CommitFails(error: string)
    | Commits(next: R, lastInsertId: Result<int, string>, rowsAffected: Result<int, string>)

  const TX_DONE: string := "sql: transaction has already been committed or rolled back"

  /** A node's database: the replicated tables, and its own uncommitted execution logs. */
  datatype Db<R, T> = Db(replicated: R, rows: seq<Row<T>>, lastId: nat)

  datatype Engine<!R, !T> = Engine(
    unmarshal: bytes -> Result<Command, string>,
    params: bytes -> Result<seq<string>, string>,
    exec: (R, string, seq<string>) -> TxOutcome<R>,
    cascade: (R, seq<Row<T>>, string, seq<string>) -> seq<Row<T>>,
    serialize: Db<R, T> -> bytes,
    openImage: bytes -> Db<R, T>,
    platform: Platform)

  /** What applying one entry leaves and reports. */
  datatype Applied<R, T> = Applied(db: Db<R, T>, response: Option<Response>, events: seq<PostProcess>)

  function Failed(error: string): Response { Response(0, 0, error) }

  /** dbExecute: decode the parameters, run the statement in a transaction, read its result. */
  function DbExecute<R, T>(en: Engine<R, T>, db: Db<R, T>, c: Command): (Db<R, T>, Response) {
    match en.params(c.data)
    case Err(e) => (db, Failed(e))
    case Ok(params) =>
      match en.exec(db.replicated, c.sql, params)
      case BeginFails(e) => (db, Failed(e))
      case ExecFails(e) => (db, Failed(e))
      case CommitFails(e) => (db, Failed(e))
      case Commits(next, lastInsertId, rowsAffected) =>
        (Db(next, en.cascade(db.replicated, db.rows, c.sql, params), db.lastId),
         if lastInsertId.Err? || rowsAffected.Err? then Failed(TX_DONE)
         else Response(lastInsertId.value, rowsAffected.value, ""))
  }

  function Events(c: Command, r: Response, ignorePostProcess: bool): seq<PostProcess> {
    if !ignorePostProcess && r.error == "" && c.targetAction <= CLEAN_UNCOMMITTED_EXECUTION_LOGS
    then [PostProcess(c.targetAction, c.targetNodes, r.lastInsertedId, r.rowsAffected)]
    else []
  }

  function ApplyRaftLog<R, T>(en: Engine<R, T>, db: Db<R, T>, l: Entry, ignorePostProcess: bool): Applied<R, T> {
    if l.kind == LogConfiguration then Applied(db, None, [])
    else
      match en.unmarshal(l.data)
      case Err(e) => Applied(db, Some(Failed(e)), [])
      case Ok(c) =>
        var (next, response) := DbExecute(en, db, c);
        Applied(next, Some(response), Events(c, response, ignorePostProcess))
  }

  /** The database after a sequence of entries. */
  function Replay<R, T>(en: Engine<R, T>, db: Db<R, T>, logs: seq<Entry>): Db<R, T>
    decreases |logs|
  {
    if logs == [] then db
    else ApplyRaftLog(en, Replay(en, db, logs[..|logs| - 1]), logs[|logs| - 1], true).db
  }

  /** The responses and events of a sequence of entries, one response an entry. */
  function Responses<R, T>(en: Engine<R, T>, db: Db<R, T>, logs: seq<Entry>): (r: seq<Option<Response>>)
    ensures |r| == |logs|
    decreases |logs|
  {
    if logs == [] then []
    else
      var before := logs[..|logs| - 1];
      Responses(en, db, before) + [ApplyRaftLog(en, Replay(en, db, before), logs[|logs| - 1], false).response]
  }

  function Emitted<R, T>(en: Engine<R, T>, db: Db<R, T>, logs: seq<Entry>): seq<PostProcess>
    decreases |logs|
  {
    if logs == [] then []
    else
      var before := logs[..|logs| - 1];
      Emitted(en, db, before) + ApplyRaftLog(en, Replay(en, db, before), logs[|logs| - 1], false).events
  }

  datatype RestoreError = Undecodable(error: SnapshotCodec.Error) | FileError

  class FsmStore<R(!new), T(==,!new)> {
    const engine: Engine<R, T>
    var dataStore: Db<R, T>
    var postProcess: seq<PostProcess>

    constructor (engine: Engine<R, T>, db: Db<R, T>)
      ensures this.engine == engine && dataStore == db && postProcess == []
    {
      this.engine, dataStore, postProcess := engine, db, [];
    }

    /**
     A command whose transaction commits moves the replicated tables to the transaction's, and the
     node's own rows to what its cascade leaves of them. Any other entry leaves the database alone, and
     is answered with the error of the step that failed, or, a configuration entry, not at all.
     */
    method Apply(l: Entry) returns (response: Option<Response>)
      modifies this
      ensures TakesEffect(engine, old(dataStore.replicated), l) ==>
                var c, tx := engine.unmarshal(l.data).value, CommandOutcome(engine, old(dataStore.replicated), l);
                var readable := tx.lastInsertId.Ok? && tx.rowsAffected.Ok?;
                && dataStore.replicated == tx.next && dataStore.lastId == old(dataStore.lastId)
                && dataStore.rows == engine.cascade(old(dataStore.replicated), old(dataStore.rows), c.sql, engine.params(c.data).value)
                && response.Some? && (response.value.error == "" <==> readable)
                && (readable ==> response.value == Response(tx.lastInsertId.value, tx.rowsAffected.value, ""))
                && postProcess == old(postProcess)
                   + (if readable && c.targetAction in {0, 1, 2}
                      then [PostProcess(c.targetAction, c.targetNodes, tx.lastInsertId.value, tx.rowsAffected.value)] else [])
      ensures !TakesEffect(engine, old(dataStore.replicated), l) ==> dataStore == old(dataStore)
      ensures response.None? <==> l.kind == LogConfiguration
      ensures l.kind != LogConfiguration && !TakesEffect(engine, old(dataStore.replicated), l) ==>
                response == Some(Response(0, 0,
                  if engine.unmarshal(l.data).Err? then engine.unmarshal(l.data).error
                  else if engine.params(engine.unmarshal(l.data).value.data).Err? then engine.params(engine.unmarshal(l.data).value.data).error
                  else CommandOutcome(engine, old(dataStore.replicated), l).error))
      ensures ErrorsHaveText(engine) && !TakesEffect(engine, old(dataStore.replicated), l) ==>
                postProcess == old(postProcess) && (response.Some? ==> response.value.error != "")
      ensures dataStore == ApplyRaftLog(engine, old(dataStore), l, false).db
      ensures response == ApplyRaftLog(engine, old(dataStore), l, false).response
      ensures postProcess == old(postProcess) + ApplyRaftLog(engine, old(dataStore), l, false).events
    {
      if TakesEffect(engine, dataStore.replicated, l) {
        Effect(engine, dataStore, l, false);
      } else if ErrorsHaveText(engine) {
        NoEffect(engine, dataStore, l, false);
      }
      var applied := ApplyRaftLog(engine, dataStore, l, false);
      dataStore := applied.db;
      postProcess := postProcess + applied.events;
      response := applied.response;
    }

    method ApplyBatch(logs: seq<Entry>) returns (results: seq<Option<Response>>)
      modifies this
      ensures dataStore == Replay(engine, old(dataStore), logs)
      ensures results == Responses(engine, old(dataStore), logs)
      ensures postProcess == old(postProcess) + Emitted(engine, old(dataStore), logs)
      ensures forall row :: row in old(dataStore.rows) && Spared(engine, old(dataStore), logs, row) ==> row in dataStore.rows
    {
      results := [];
      var i := 0;
      while i < |logs|
        invariant 0 <= i <= |logs|
        invariant dataStore == Replay(engine, old(dataStore), logs[..i])
        invariant results == Responses(engine, old(dataStore), logs[..i])
        invariant postProcess == old(postProcess) + Emitted(engine, old(dataStore), logs[..i])
      {
        assert logs[..i + 1][..i] == logs[..i];
        ApplyModes(engine, dataStore, logs[i]);
        var result := Apply(logs[i]);
        results := results + [result];
        i := i + 1;
      }
      assert logs[..i] == logs;
      forall row | row in old(dataStore.rows) && Spared(engine, old(dataStore), logs, row) ensures row in dataStore.rows {
        SparedStays(engine, old(dataStore), logs, row);
      }
    }

    /** A stream that any node restores to this database; Snapshot and Persist taken as one step. */
    method Snapshot() returns (stream: bytes)
      ensures SoundImages(engine) && SmallImage(engine, dataStore) ==>
                Decoded(engine.platform, stream).Ok? && engine.openImage(Decoded(engine.platform, stream).value) == dataStore
    {
      stream := Encoded(engine.platform, engine.serialize(dataStore));
      if SoundImages(engine) && SmallImage(engine, dataStore) {
        ImageReopens(engine, dataStore);
      }
    }

    /**
     Replaces the open database by a snapshot's, unless the stream does not decode or one of the steps
     on the file (remove, write, open, ping) fails; then the open one stays.
     */
    method Restore(stream: bytes, files: bool) returns (r: Result<(), RestoreError>)
      modifies this`dataStore
      ensures r.Ok? <==> Decoded(engine.platform, stream).Ok? && files
      ensures r == Err(FileError) <==> Decoded(engine.platform, stream).Ok? && !files
      ensures r.Ok? ==> dataStore == engine.openImage(Decoded(engine.platform, stream).value)
      ensures r.Err? ==> dataStore == old(dataStore)
    {
      var b := BytesFromSnapshot(engine.platform, stream);
      if b.Err? {
        return Err(Undecodable(b.error));
      }
      if !files {
        return Err(FileError);
      }
      dataStore := engine.openImage(b.value);
      return Ok(());
    }
  }

  /** A database's stream decodes, and opens to that database. */
  lemma ImageReopens<R(!new), T(!new)>(en: Engine<R, T>, db: Db<R, T>)
    requires SoundImages(en) && SmallImage(en, db)
    ensures Decoded(en.platform, Encoded(en.platform, en.serialize(db))).Ok?
    ensures en.openImage(Decoded(en.platform, Encoded(en.platform, en.serialize(db))).value) == db
  {
    SnapshotRoundTrip(en.platform, en.serialize(db), []);
    assert Encoded(en.platform, en.serialize(db)) + [] == Encoded(en.platform, en.serialize(db));
  }

  /** Ignoring the post-process channel changes the events and nothing else. */
  lemma ApplyModes<R, T>(en: Engine<R, T>, db: Db<R, T>, l: Entry)
    ensures ApplyRaftLog(en, db, l, true).db == ApplyRaftLog(en, db, l, false).db
    ensures ApplyRaftLog(en, db, l, true).response == ApplyRaftLog(en, db, l, false).response
    ensures ApplyRaftLog(en, db, l, true).events == []
  {
  }

  /** A batch boundary can be put anywhere: databases, responses and events are the same. */
  lemma {:induction false} BatchBoundary<R, T>(en: Engine<R, T>, db: Db<R, T>, a: seq<Entry>, b: seq<Entry>)
    ensures Replay(en, db, a + b) == Replay(en, Replay(en, db, a), b)
    ensures Responses(en, db, a + b) == Responses(en, db, a) + Responses(en, Replay(en, db, a), b)
    ensures Emitted(en, db, a + b) == Emitted(en, db, a) + Emitted(en, Replay(en, db, a), b)
    decreases |b|
  {
    if b == [] {
      assert a + b == a;
    } else {
      var before := b[..|b| - 1];
      assert (a + b)[..|a + b| - 1] == a + before;
      BatchBoundary(en, db, a, before);
    }
  }

  /** One entry as a batch of its own is what Apply does. */
  lemma SingleBatch<R, T>(en: Engine<R, T>, db: Db<R, T>, l: Entry)
    ensures Replay(en, db, [l]) == ApplyRaftLog(en, db, l, false).db
    ensures Responses(en, db, [l]) == [ApplyRaftLog(en, db, l, false).response]
    ensures Emitted(en, db, [l]) == ApplyRaftLog(en, db, l, false).events
  {
  }

  // What a log leaves of the node's own rows.

  /** Where entry i stands in the log it does not take `row` away: it takes no effect, or its cascade spares the row. */
  predicate SparedAt<R, T(==)>(en: Engine<R, T>, db: Db<R, T>, logs: seq<Entry>, row: Row<T>, i: nat)
    requires i < |logs|
  {
    var before, l := Replay(en, db, logs[..i]), logs[i];
    TakesEffect(en, before.replicated, l) && row in before.rows ==>
      var c := en.unmarshal(l.data).value;
      row in en.cascade(before.replicated, before.rows, c.sql, en.params(c.data).value)
  }

  ghost predicate Spared<R, T>(en: Engine<R, T>, db: Db<R, T>, logs: seq<Entry>, row: Row<T>) {
    forall i :: 0 <= i < |logs| ==> SparedAt(en, db, logs, row, i)
  }

  /** A row that no entry's cascade deletes is there after the whole log. */
  lemma {:induction false} SparedStays<R, T>(en: Engine<R, T>, db: Db<R, T>, logs: seq<Entry>, row: Row<T>)
    requires row in db.rows && Spared(en, db, logs, row)
    ensures row in Replay(en, db, logs).rows
    decreases |logs|
  {
    if logs != [] {
      var n := |logs| - 1;
      forall i | 0 <= i < n ensures SparedAt(en, db, logs[..n], row, i) {
        assert SparedAt(en, db, logs, row, i);
        assert logs[..n][..i] == logs[..i];
      }
      SparedStays(en, db, logs[..n], row);
      assert SparedAt(en, db, logs, row, n);
    }
  }

  // Which entries change anything.

  /** The decoders on an entry without data: an empty command, whose parameters are not JSON. */
  predicate StandardDecoders<R, T>(en: Engine<R, T>) {
    && en.unmarshal([]) == Ok(Command("", [], [], 0))
    && en.params([]).Err?
  }

  /** The entry is a command whose transaction commits on r. */
  predicate TakesEffect<R, T>(en: Engine<R, T>, r: R, l: Entry) {
    && l.kind != LogConfiguration
    && en.unmarshal(l.data).Ok?
    && en.params(en.unmarshal(l.data).value.data).Ok?
    && CommandOutcome(en, r, l).Commits?
  }

  /** How the transaction of a decodable command ends. */
  function CommandOutcome<R, T>(en: Engine<R, T>, r: R, l: Entry): TxOutcome<R>
    requires en.unmarshal(l.data).Ok? && en.params(en.unmarshal(l.data).value.data).Ok?
  {
    var c := en.unmarshal(l.data).value;
    en.exec(r, c.sql, en.params(c.data).value)
  }

  /** Go's errors are never the empty text, which the response keeps for success. */
  ghost predicate ErrorsHaveText<R(!new), T(!new)>(en: Engine<R, T>) {
    && (forall d :: en.unmarshal(d).Err? ==> en.unmarshal(d).error != "")
    && (forall d :: en.params(d).Err? ==> en.params(d).error != "")
    && (forall r, sql, p :: var tx := en.exec(r, sql, p); tx.Commits? || tx.error != "")
  }

  /**
   A committed transaction stays, and is reported as the statement's ids and counts with one event,
   exactly if its result can be read; otherwise it stays too, but reports an error and sends nothing.
   */
  lemma Effect<R, T>(en: Engine<R, T>, db: Db<R, T>, l: Entry, ignorePostProcess: bool)
    requires TakesEffect(en, db.replicated, l)
    ensures var c := en.unmarshal(l.data).value;
            var tx := CommandOutcome(en, db.replicated, l);
            var a := ApplyRaftLog(en, db, l, ignorePostProcess);
            && a.db == Db(tx.next, en.cascade(db.replicated, db.rows, c.sql, en.params(c.data).value), db.lastId)
            && a.response.Some?
            && (a.response.value.error == "" <==> tx.lastInsertId.Ok? && tx.rowsAffected.Ok?)
            && (a.response.value.error == "" ==> a.response.value == Response(tx.lastInsertId.value, tx.rowsAffected.value, ""))
            && (a.events != [] <==> a.response.value.error == "" && !ignorePostProcess && c.targetAction in {0, 1, 2})
            && (a.events != [] ==> a.events == [PostProcess(c.targetAction, c.targetNodes, tx.lastInsertId.value, tx.rowsAffected.value)])
  {
  }

  /** Everything else is the identity, emits nothing and, except for a configuration entry, reports an error. */
  lemma NoEffect<R(!new), T(!new)>(en: Engine<R, T>, db: Db<R, T>, l: Entry, ignorePostProcess: bool)
    requires ErrorsHaveText(en) && !TakesEffect(en, db.replicated, l)
    ensures var a := ApplyRaftLog(en, db, l, ignorePostProcess);
            && a.db == db && a.events == []
            && (a.response.None? <==> l.kind == LogConfiguration)
            && (a.response.Some? ==> a.response.value.error != "")
  {
  }

  /** The entries that take effect where they stand in a log. */
  function Effective<R, T>(en: Engine<R, T>, db: Db<R, T>, logs: seq<Entry>): seq<Entry>
    decreases |logs|
  {
    if logs == [] then []
    else
      var before, last := logs[..|logs| - 1], logs[|logs| - 1];
      Effective(en, db, before) + if TakesEffect(en, Replay(en, db, before).replicated, last) then [last] else []
  }

  /** The other entries can be dropped from a log, anywhere and all at once: database and events are the same. */
  lemma {:induction false} IneffectiveDropped<R(!new), T(!new)>(en: Engine<R, T>, db: Db<R, T>, logs: seq<Entry>)
    requires ErrorsHaveText(en)
    ensures Replay(en, db, Effective(en, db, logs)) == Replay(en, db, logs)
    ensures Emitted(en, db, Effective(en, db, logs)) == Emitted(en, db, logs)
    decreases |logs|
  {
    if logs != [] {
      var before, last := logs[..|logs| - 1], logs[|logs| - 1];
      IneffectiveDropped(en, db, before);
      var state := Replay(en, db, before);
      ApplyModes(en, state, last);
      if TakesEffect(en, state.replicated, last) {
        BatchBoundary(en, db, Effective(en, db, before), [last]);
        SingleBatch(en, state, last);
      } else {
        assert Effective(en, db, before) + [] == Effective(en, db, before);
        NoEffect(en, state, last, false);
      }
    }
  }

  /** Nothing raft writes for itself, a configuration or an entry without data, takes effect in any log. */
  lemma {:induction false} OwnEntriesDropped<R, T>(en: Engine<R, T>, db: Db<R, T>, logs: seq<Entry>, l: Entry)
    requires StandardDecoders(en) && l in Effective(en, db, logs)
    ensures l.kind != LogConfiguration && l.data != []
    decreases |logs|
  {
    if l in Effective(en, db, logs[..|logs| - 1]) {
      OwnEntriesDropped(en, db, logs[..|logs| - 1], l);
    } else if l.kind == LogConfiguration || l.data == [] {
      NoOpEntries(en, Replay(en, db, logs[..|logs| - 1]).replicated, l);
    }
  }

  lemma NoOpEntries<R, T>(en: Engine<R, T>, r: R, l: Entry)
    requires StandardDecoders(en) && (l.data == [] || l.kind == LogConfiguration)
    ensures !TakesEffect(en, r, l)
  {
  }

  /** The response follows the replicated state alone, and an effect on the state is all or nothing. */
  lemma Noninterference<R, T>(en: Engine<R, T>, a: Db<R, T>, b: Db<R, T>, l: Entry, ignorePostProcess: bool)
    requires a.replicated == b.replicated
    ensures var x, y := ApplyRaftLog(en, a, l, ignorePostProcess), ApplyRaftLog(en, b, l, ignorePostProcess);
            x.db.replicated == y.db.replicated && x.response == y.response && x.events == y.events
  {
  }

  lemma {:induction false} ReplayNoninterference<R, T>(en: Engine<R, T>, a: Db<R, T>, b: Db<R, T>, logs: seq<Entry>)
    requires a.replicated == b.replicated
    ensures Replay(en, a, logs).replicated == Replay(en, b, logs).replicated
    ensures Responses(en, a, logs) == Responses(en, b, logs)
    decreases |logs|
  {
    if logs != [] {
      var before := logs[..|logs| - 1];
      ReplayNoninterference(en, a, b, before);
      Noninterference(en, Replay(en, a, before), Replay(en, b, before), logs[|logs| - 1], true);
      Noninterference(en, Replay(en, a, before), Replay(en, b, before), logs[|logs| - 1], false);
    }
  }

  // A cluster that applies, snapshots and restores in any order.

  datatype Node<R, T> = Node(db: Db<R, T>, index: nat)

  datatype Stored = Stored(index: nat, stream: bytes)

  datatype Cluster<R, T> = Cluster(nodes: seq<Node<R, T>>, stored: seq<Stored>)

  datatype Action<R, T> =
    | ApplySome(n: nat, count: nat)
    | WriteLocal(n: nat, rows: seq<Row<T>>, lastId: nat)
    | TakeSnapshot(n: nat)
    | InstallSnapshot(n: nat, k: nat)

  /** The stream fits in a Go slice. */
  predicate SmallImage<R, T>(en: Engine<R, T>, db: Db<R, T>) {
    |Encoded(en.platform, en.serialize(db))| <= MAX_INT64
  }

  predicate Enabled<R, T>(en: Engine<R, T>, log: seq<Entry>, c: Cluster<R, T>, a: Action<R, T>) {
    && a.n < |c.nodes|
    && match a
       case ApplySome(n, count) => c.nodes[n].index + count <= |log|
       case WriteLocal(_, _, _) => true
       case TakeSnapshot(n) => SmallImage(en, c.nodes[n].db)
       case InstallSnapshot(_, k) => k < |c.stored|
  }

  /** A node's database after it restored a stream that may fail to decode. */
  function Restored<R, T>(en: Engine<R, T>, node: Node<R, T>, s: Stored): Node<R, T> {
    match Decoded(en.platform, s.stream)
    case Ok(image) => Node(en.openImage(image), s.index)
    case Err(_) => node
  }

  function Next<R, T>(en: Engine<R, T>, log: seq<Entry>, c: Cluster<R, T>, a: Action<R, T>): Cluster<R, T>
    requires Enabled(en, log, c, a)
  {
    var node := c.nodes[a.n];
    match a
    case ApplySome(n, count) =>
      c.(nodes := c.nodes[n := Node(Replay(en, node.db, log[node.index..node.index + count]), node.index + count)])
    case WriteLocal(n, rows, lastId) => c.(nodes := c.nodes[n := node.(db := Db(node.db.replicated, rows, lastId))])
    case TakeSnapshot(n) => c.(stored := c.stored + [Stored(node.index, Encoded(en.platform, en.serialize(node.db)))])
    case InstallSnapshot(n, k) => c.(nodes := c.nodes[n := Restored(en, node, c.stored[k])])
  }

  predicate ValidRun<R, T>(en: Engine<R, T>, log: seq<Entry>, c: Cluster<R, T>, actions: seq<Action<R, T>>)
    decreases |actions|
  {
    actions == [] || (Enabled(en, log, c, actions[0]) && ValidRun(en, log, Next(en, log, c, actions[0]), actions[1..]))
  }

  function Final<R, T>(en: Engine<R, T>, log: seq<Entry>, c: Cluster<R, T>, actions: seq<Action<R, T>>): Cluster<R, T>
    requires ValidRun(en, log, c, actions)
    decreases |actions|
  {
    if actions == [] then c else Final(en, log, Next(en, log, c, actions[0]), actions[1..])
  }

  /** Images open to what was serialised, and snapshots fit in memory. */
  ghost predicate SoundImages<R(!new), T(!new)>(en: Engine<R, T>) {
    && SoundPlatform(en.platform)
    && (forall db :: en.openImage(en.serialize(db)) == db)
  }

  /** The state a log prefix determines. */
  function StateAt<R, T>(en: Engine<R, T>, start: Db<R, T>, log: seq<Entry>, index: nat): R
    requires index <= |log|
  {
    Replay(en, start, log[..index]).replicated
  }

  ghost predicate NodeAgrees<R, T>(en: Engine<R, T>, start: Db<R, T>, log: seq<Entry>, node: Node<R, T>) {
    node.index <= |log| && node.db.replicated == StateAt(en, start, log, node.index)
  }

  ghost predicate StoredAgrees<R, T>(en: Engine<R, T>, start: Db<R, T>, log: seq<Entry>, s: Stored) {
    && s.index <= |log|
    && Decoded(en.platform, s.stream).Ok?
    && en.openImage(Decoded(en.platform, s.stream).value).replicated == StateAt(en, start, log, s.index)
  }

  ghost predicate Agrees<R, T>(en: Engine<R, T>, start: Db<R, T>, log: seq<Entry>, c: Cluster<R, T>) {
    && (forall n :: 0 <= n < |c.nodes| ==> NodeAgrees(en, start, log, c.nodes[n]))
    && (forall k :: 0 <= k < |c.stored| ==> StoredAgrees(en, start, log, c.stored[k]))
  }

  lemma ApplyAgrees<R, T>(en: Engine<R, T>, start: Db<R, T>, log: seq<Entry>, node: Node<R, T>, count: nat)
    requires NodeAgrees(en, start, log, node) && node.index + count <= |log|
    ensures Replay(en, node.db, log[node.index..node.index + count]).replicated == StateAt(en, start, log, node.index + count)
  {
    var done, more := log[..node.index], log[node.index..node.index + count];
    assert log[..node.index + count] == done + more;
    BatchBoundary(en, start, done, more);
    ReplayNoninterference(en, node.db, Replay(en, start, done), more);
  }

  lemma SnapshotAgrees<R(!new), T(!new)>(en: Engine<R, T>, start: Db<R, T>, log: seq<Entry>, node: Node<R, T>)
    requires SoundImages(en) && SmallImage(en, node.db) && NodeAgrees(en, start, log, node)
    ensures StoredAgrees(en, start, log, Stored(node.index, Encoded(en.platform, en.serialize(node.db))))
  {
    ImageReopens(en, node.db);
  }

  lemma StepAgrees<R(!new), T(!new)>(en: Engine<R, T>, start: Db<R, T>, log: seq<Entry>, c: Cluster<R, T>, a: Action<R, T>)
    requires SoundImages(en)
    requires Agrees(en, start, log, c) && Enabled(en, log, c, a)
    ensures Agrees(en, start, log, Next(en, log, c, a))
  {
    var node := c.nodes[a.n];
    assert NodeAgrees(en, start, log, node);
    match a
    case ApplySome(n, count) => ApplyAgrees(en, start, log, node, count);
    case WriteLocal(n, rows, lastId) =>
    case TakeSnapshot(n) => SnapshotAgrees(en, start, log, node);
    case InstallSnapshot(n, k) => assert StoredAgrees(en, start, log, c.stored[k]);
  }

  lemma {:induction false} RunAgrees<R(!new), T(!new)>(en: Engine<R, T>, start: Db<R, T>, log: seq<Entry>, c: Cluster<R, T>, actions: seq<Action<R, T>>)
    requires SoundImages(en) && Agrees(en, start, log, c) && ValidRun(en, log, c, actions)
    ensures Agrees(en, start, log, Final(en, log, c, actions))
    decreases |actions|
  {
    if actions != [] {
      StepAgrees(en, start, log, c, actions[0]);
      RunAgrees(en, start, log, Next(en, log, c, actions[0]), actions[1..]);
    }
  }

  /**
   Convergence: whatever batches, snapshots and restores a run of the cluster makes, a node's
   replicated tables are the fold of the log up to its index; two nodes at one index agree, and
   answer every further entry alike.
   */
  lemma ReplicasConverge<R(!new), T(!new)>(en: Engine<R, T>, start: Db<R, T>, size: nat, log: seq<Entry>, actions: seq<Action<R, T>>, m: nat, n: nat, more: seq<Entry>)
    requires SoundImages(en)
    requires var c := Cluster(seq(size, _ => Node(start, 0)), []);
             && ValidRun(en, log, c, actions)
             && m < |Final(en, log, c, actions).nodes| && n < |Final(en, log, c, actions).nodes|
    ensures var t := Final(en, log, Cluster(seq(size, _ => Node(start, 0)), []), actions);
            && t.nodes[n].index <= |log|
            && t.nodes[n].db.replicated == StateAt(en, start, log, t.nodes[n].index)
            && (t.nodes[m].index == t.nodes[n].index ==>
                  && t.nodes[m].db.replicated == t.nodes[n].db.replicated
                  && Responses(en, t.nodes[m].db, more) == Responses(en, t.nodes[n].db, more))
  {
    var c := Cluster(seq(size, _ => Node(start, 0)), []);
    assert log[..0] == [];
    assert Agrees(en, start, log, c);
    RunAgrees(en, start, log, c, actions);
    var t := Final(en, log, c, actions);
    assert NodeAgrees(en, start, log, t.nodes[m]) && NodeAgrees(en, start, log, t.nodes[n]);
    if t.nodes[m].index == t.nodes[n].index {
      ReplayNoninterference(en, t.nodes[m].db, t.nodes[n].db, more);
    }
  }

  /** A node's own writes replace its own rows and touch no other node, replicated table or index. */
  lemma LocalWrite<R, T>(en: Engine<R, T>, log: seq<Entry>, c: Cluster<R, T>, n: nat, rows: seq<Row<T>>, lastId: nat, m: nat)
    requires n < |c.nodes| && m < |c.nodes|
    ensures Next(en, log, c, WriteLocal(n, rows, lastId)).nodes[m]
            == if m == n then Node(Db(c.nodes[n].db.replicated, rows, lastId), c.nodes[n].index) else c.nodes[m]
  {
  }

  lemma Installed<R(!new), T(!new)>(en: Engine<R, T>, log: seq<Entry>, c: Cluster<R, T>, m: nat, n: nat)
    requires SoundImages(en) && m < |c.nodes| && n < |c.nodes| && SmallImage(en, c.nodes[n].db)
    ensures var taken := Next(en, log, c, TakeSnapshot(n));
            && Enabled(en, log, taken, InstallSnapshot(m, |c.stored|))
            && Next(en, log, taken, InstallSnapshot(m, |c.stored|)).nodes == c.nodes[m := c.nodes[n]]
  {
    ImageReopens(en, c.nodes[n].db);
  }

  /**
   A node that installs another's snapshot has exactly that node's database and index, and, when it then
   applies the rest of the log, the state of the whole log.
   */
  lemma CatchesUp<R(!new), T(!new)>(en: Engine<R, T>, start: Db<R, T>, log: seq<Entry>, c: Cluster<R, T>, m: nat, n: nat)
    requires SoundImages(en) && Agrees(en, start, log, c)
    requires m < |c.nodes| && n < |c.nodes| && SmallImage(en, c.nodes[n].db)
    ensures var taken := Next(en, log, c, TakeSnapshot(n));
            && Enabled(en, log, taken, InstallSnapshot(m, |c.stored|))
            && var installed := Next(en, log, taken, InstallSnapshot(m, |c.stored|));
               && installed.nodes[m] == c.nodes[n]
               && Enabled(en, log, installed, ApplySome(m, |log| - c.nodes[n].index))
               && var done := Next(en, log, installed, ApplySome(m, |log| - c.nodes[n].index)).nodes[m];
                  done.index == |log| && done.db.replicated == StateAt(en, start, log, |log|)
  {
    assert NodeAgrees(en, start, log, c.nodes[n]);
    Installed(en, log, c, m, n);
    ApplyAgrees(en, start, log, c.nodes[n], |log| - c.nodes[n].index);
  }
}
