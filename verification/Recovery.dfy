/**
 Start-up recovery: rebuild the database from the newest snapshot and the log behind it, carry
 the node's uncommitted execution logs over, write a new snapshot, and only then delete the log.

 A recovery run can die between any two of its durable effects; `Durable` counts them.
 */
module Recovery {
  import opened Collections
  import opened SnapshotCodec
  import opened Batching
  import opened LogTables
  import opened StateMachine

  /** The log store: consecutive entries from index `first`. Empty, it reports 0 for both ends. */
  datatype LogStore = LogStore(first: nat, entries: seq<Entry>) {
    function FirstIndex(): nat { if entries == [] then 0 else first }

    function LastIndex(): nat { if entries == [] || first + |entries| == 0 then 0 else first + |entries| - 1 }

    function GetLog(index: nat): Option<Entry> {
      if first <= index < first + |entries| then Some(entries[index - first]) else None
    }

    /** Deletes the entries from `low` to `high`; the store is used only with the range it reports. */
    function DeleteRange(low: nat, high: nat): LogStore {
      if entries != [] && low <= first && first + |entries| - 1 <= high then LogStore(first, []) else this
    }
  }

  /** A finished snapshot. */
  datatype Snapshot = Snapshot(index: nat, term: nat, stream: bytes)

  /** Where a recovery run dies: before its n-th durable effect, or not at all. */
  datatype Death = Never | Before(n: nat)

  predicate Survives(d: Death, effects: nat) {
    d.Never? || effects < d.n
  }

  /** The failures that end a run by Fatal: of a batch insert and of the snapshot sink. */
  datatype Faults = Faults(commits: nat -> bool, sink: SnapshotCodec.Faults)

  predicate OrderedRows<R, T>(db: Db<R, T>) {
    RowsWellFormed(db.rows, db.lastId)
  }

  /**
   What is taken of SQLite and of the migrations: images open to what was serialised, a blank file has
   no rows, cascades only delete rows, and migrating is the identity on every state reached from a
   migrated one.
   */
  ghost predicate SoundEngine<R(!new), T(!new)>(en: Engine<R, T>, migrate: R -> R) {
    && SoundImages(en)
    && en.openImage([]).rows == []
    && (forall r, rows, lastId: nat, sql, p :: RowsWellFormed(rows, lastId) ==> RowsWellFormed(en.cascade(r, rows, sql, p), lastId))
    && (forall r, rows, sql, p, row :: row in en.cascade(r, rows, sql, p) ==> row in rows)
    && migrate(migrate(en.openImage([]).replicated)) == migrate(en.openImage([]).replicated)
    && (forall r, sql, p :: migrate(r) == r && en.exec(r, sql, p).Commits? ==> migrate(en.exec(r, sql, p).next) == en.exec(r, sql, p).next)
  }

  /** The replicated state a blank, migrated database has. */
  function Fresh<R, T>(en: Engine<R, T>, migrate: R -> R): R {
    migrate(en.openImage([]).replicated)
  }

  /** The replicated state after a history. */
  function StateAfter<R, T>(en: Engine<R, T>, r: R, logs: seq<Entry>): R {
    Replay(en, Db(r, [], 0), logs).replicated
  }

  lemma ApplyKeeps<R(!new), T(!new)>(en: Engine<R, T>, migrate: R -> R, db: Db<R, T>, l: Entry)
    requires SoundEngine(en, migrate)
    ensures var a := ApplyRaftLog(en, db, l, true);
            && (migrate(db.replicated) == db.replicated ==> migrate(a.db.replicated) == a.db.replicated)
            && (OrderedRows(db) ==> OrderedRows(a.db))
  {
  }

  lemma {:induction false} ReplayKeeps<R(!new), T(!new)>(en: Engine<R, T>, migrate: R -> R, db: Db<R, T>, logs: seq<Entry>)
    requires SoundEngine(en, migrate) && migrate(db.replicated) == db.replicated
    ensures migrate(Replay(en, db, logs).replicated) == Replay(en, db, logs).replicated
    ensures OrderedRows(db) ==> OrderedRows(Replay(en, db, logs))
    decreases |logs|
  {
    if logs != [] {
      ReplayKeeps(en, migrate, db, logs[..|logs| - 1]);
      ApplyKeeps(en, migrate, Replay(en, db, logs[..|logs| - 1]), logs[|logs| - 1]);
    }
  }

  /** Replaying entries can at most delete a node's own rows. */
  lemma {:induction false} ReplayDeletes<R(!new), T(!new)>(en: Engine<R, T>, migrate: R -> R, db: Db<R, T>, logs: seq<Entry>, row: Row<T>)
    requires SoundEngine(en, migrate) && row in Replay(en, db, logs).rows
    ensures row in db.rows
    decreases |logs|
  {
    if logs != [] {
      ReplayDeletes(en, migrate, db, logs[..|logs| - 1], row);
    }
  }

  /** The newest snapshot's database; without one, or if it does not decode, a blank one. */
  function ImageDb<R, T>(en: Engine<R, T>, snapshots: seq<Snapshot>): Db<R, T> {
    if snapshots == [] then en.openImage([])
    else
      match Decoded(en.platform, snapshots[0].stream)
      case Ok(image) => en.openImage(image)
      case Err(_) => en.openImage([])
  }

  function SnapshotIndex(snapshots: seq<Snapshot>): nat {
    if snapshots == [] then 0 else snapshots[0].index
  }

  /** The entries from `index` on that the store still has, in order. */
  function Tail(log: LogStore, index: nat): seq<Entry> {
    if index <= log.first then log.entries
    else if index - log.first <= |log.entries| then log.entries[index - log.first..]
    else []
  }

  /** What the node's files say: the newest snapshot's state, migrated, with the log behind it replayed. */
  function Reconstructed<R, T>(en: Engine<R, T>, migrate: R -> R, snapshots: seq<Snapshot>, log: LogStore): R {
    StateAfter(en, migrate(ImageDb(en, snapshots).replicated), Tail(log, SnapshotIndex(snapshots) + 1))
  }

  /** The newest snapshot's own rows that are left after the replay. */
  function ReplayedRows<R, T>(en: Engine<R, T>, migrate: R -> R, snapshots: seq<Snapshot>, log: LogStore): seq<Row<T>> {
    Replay(en, Migrated(migrate, ImageDb(en, snapshots)), Tail(log, SnapshotIndex(snapshots) + 1)).rows
  }

  function Migrated<R, T>(migrate: R -> R, db: Db<R, T>): Db<R, T> {
    Db(migrate(db.replicated), db.rows, db.lastId)
  }

  /** The term of the entry with the given index. */
  function TermAt(history: seq<Entry>, index: nat): nat
    requires index <= |history|
  {
    if index == 0 then 0 else history[index - 1].term
  }

  /** The log store hands out `tail`, entry by entry, behind index `from`. */
  predicate Lists(log: LogStore, from: nat, tail: seq<Entry>) {
    && |tail| == (if from < log.LastIndex() then log.LastIndex() - from else 0)
    && forall k :: 0 <= k < |tail| ==> log.GetLog(from + 1 + k) == Some(tail[k]) && tail[k].index == from + 1 + k
  }

  /** The newest snapshot agrees with the history of committed entries. */
  ghost predicate SnapshotFaithful<R(!new), T(!new)>(en: Engine<R, T>, migrate: R -> R, history: seq<Entry>, snapshots: seq<Snapshot>) {
    && SnapshotIndex(snapshots) <= |history|
    && (snapshots != [] ==>
          && Decoded(en.platform, snapshots[0].stream).Ok?
          && OrderedRows(ImageDb(en, snapshots))
          && snapshots[0].term == TermAt(history, snapshots[0].index)
          && ImageDb(en, snapshots).replicated == StateAfter(en, Fresh(en, migrate), history[..snapshots[0].index]))
  }

  /** The log holds a stretch of the history, and what a snapshot up to `from` leaves out; entry i of the history has index i + 1. */
  predicate LogFaithful(history: seq<Entry>, from: nat, log: LogStore) {
    && (forall i :: 0 <= i < |history| ==> history[i].index == i + 1)
    && log.first >= 1
    && log.first - 1 + |log.entries| <= |history|
    && (forall i :: 0 <= i < |log.entries| ==> log.entries[i] == history[log.first - 1 + i])
    && (from < |history| ==> log.entries != [] && log.first <= from + 1 && log.first - 1 + |log.entries| == |history|)
  }

  ghost predicate Faithful<R(!new), T(!new)>(en: Engine<R, T>, migrate: R -> R, history: seq<Entry>, snapshots: seq<Snapshot>, log: LogStore) {
    SnapshotFaithful(en, migrate, history, snapshots) && LogFaithful(history, SnapshotIndex(snapshots), log)
  }

  lemma TailCompletes(history: seq<Entry>, from: nat, log: LogStore)
    requires LogFaithful(history, from, log) && from <= |history|
    ensures history == history[..from] + Tail(log, from + 1)
  {
  }

  lemma TailListed(history: seq<Entry>, from: nat, log: LogStore)
    requires LogFaithful(history, from, log) && from <= |history|
    ensures Lists(log, from, Tail(log, from + 1)) && from + |Tail(log, from + 1)| == |history|
    ensures Tail(log, from + 1) != [] ==> Tail(log, from + 1)[|history| - from - 1].term == TermAt(history, |history|)
  {
  }

  /** Migrating the newest image is the identity, or makes the fresh state. */
  lemma MigratedImage<R(!new), T(!new)>(en: Engine<R, T>, migrate: R -> R, history: seq<Entry>, snapshots: seq<Snapshot>, log: LogStore)
    requires SoundEngine(en, migrate) && Faithful(en, migrate, history, snapshots, log)
    ensures migrate(ImageDb(en, snapshots).replicated) == StateAfter(en, Fresh(en, migrate), history[..SnapshotIndex(snapshots)])
    ensures migrate(migrate(ImageDb(en, snapshots).replicated)) == migrate(ImageDb(en, snapshots).replicated)
  {
    ReplayKeeps(en, migrate, Db(Fresh(en, migrate), [], 0), history[..SnapshotIndex(snapshots)]);
    assert history[..0] == [];
  }

  /** Faithful files reconstruct exactly the state of the whole history. */
  lemma FaithfulReconstructs<R(!new), T(!new)>(en: Engine<R, T>, migrate: R -> R, history: seq<Entry>, snapshots: seq<Snapshot>, log: LogStore)
    requires SoundEngine(en, migrate) && Faithful(en, migrate, history, snapshots, log)
    ensures Reconstructed(en, migrate, snapshots, log) == StateAfter(en, Fresh(en, migrate), history)
  {
    var done, more := history[..SnapshotIndex(snapshots)], Tail(log, SnapshotIndex(snapshots) + 1);
    TailCompletes(history, SnapshotIndex(snapshots), log);
    MigratedImage(en, migrate, history, snapshots, log);
    StateAfterConcat(en, Fresh(en, migrate), done, more);
  }

  /** Replaying the tail on the migrated image reconstructs the state, and keeps none but rows of the image. */
  lemma RebuiltState<R(!new), T(!new)>(en: Engine<R, T>, migrate: R -> R, history: seq<Entry>, snapshots: seq<Snapshot>, log: LogStore)
    requires SoundEngine(en, migrate) && Faithful(en, migrate, history, snapshots, log) && OrderedRows(ImageDb(en, snapshots))
    ensures var rebuilt := Replay(en, Migrated(migrate, ImageDb(en, snapshots)), Tail(log, SnapshotIndex(snapshots) + 1));
            && rebuilt.replicated == Reconstructed(en, migrate, snapshots, log) && OrderedRows(rebuilt)
            && forall row :: row in rebuilt.rows ==> row in ImageDb(en, snapshots).rows
  {
    var db, tail := Migrated(migrate, ImageDb(en, snapshots)), Tail(log, SnapshotIndex(snapshots) + 1);
    MigratedImage(en, migrate, history, snapshots, log);
    ReplayKeeps(en, migrate, db, tail);
    ReplayNoninterference(en, db, Db(db.replicated, [], 0), tail);
    forall row | row in Replay(en, db, tail).rows ensures row in db.rows {
      ReplayDeletes(en, migrate, db, tail, row);
    }
  }

  lemma StateAfterConcat<R, T>(en: Engine<R, T>, r: R, a: seq<Entry>, b: seq<Entry>)
    ensures StateAfter(en, r, a + b) == StateAfter(en, StateAfter(en, r, a), b)
  {
    BatchBoundary(en, Db(r, [], 0), a, b);
    ReplayNoninterference(en, Replay(en, Db(r, [], 0), a), Db(StateAfter(en, r, a), [], 0), b);
  }

  /** `after` holds every execution log of `main`, and beside them none but logs of `image`. */
  ghost predicate Carried<T(!new)>(main: seq<Row<T>>, image: seq<Row<T>>, after: seq<Row<T>>) {
    && multiset(Payloads(main)) <= multiset(Payloads(after))
    && forall x :: x in Payloads(after) ==> x in Payloads(main) || x in Payloads(image)
  }

  /** `after` holds every execution log of `before` and no other log. */
  ghost predicate LogsKept<T(!new)>(before: seq<Row<T>>, after: seq<Row<T>>) {
    Carried(before, [], after)
  }

  lemma LogsKeptTwice<T(!new)>(a: seq<Row<T>>, b: seq<Row<T>>, c: seq<Row<T>>)
    requires LogsKept(a, b) && LogsKept(b, c)
    ensures LogsKept(a, c)
  {
  }

  /** Kept logs are the same logs. */
  lemma LogsKeptSame<T(!new)>(a: seq<Row<T>>, b: seq<Row<T>>, x: T)
    requires LogsKept(a, b)
    ensures x in Payloads(a) <==> x in Payloads(b)
  {
    assert x in Payloads(a) ==> x in multiset(Payloads(b));
  }

  /** Rows of the image that survived the replay, followed by the main database's logs. */
  lemma CarriedOver<T(!new)>(main: seq<Row<T>>, image: seq<Row<T>>, replayed: seq<Row<T>>, logs: seq<T>, after: seq<Row<T>>)
    requires forall row :: row in replayed ==> row in image
    requires multiset(logs) == multiset(Payloads(main)) && Payloads(after) == Payloads(replayed) + logs
    ensures Carried(main, image, after)
    ensures multiset(Payloads(after)) == multiset(Payloads(main)) + multiset(Payloads(replayed))
  {
    forall x | x in Payloads(after) ensures x in Payloads(main) || x in Payloads(image) {
      if x in logs {
        assert x in multiset(logs);
      } else {
        var i :| 0 <= i < |replayed| && Payloads(replayed)[i] == x;
        assert replayed[i] in image;
        var j :| 0 <= j < |image| && image[j] == replayed[i];
        assert Payloads(image)[j] == x;
      }
    }
  }

  /** A run in which nothing dies and nothing fails. */
  ghost predicate Flawless(death: Death, faults: Faults) {
    death.Never? && faults.sink == SnapshotCodec.Faults(Full, Full, Full, true) && forall k :: faults.commits(k)
  }

  class Node<R(!new), T(==,!new)> {
    const engine: Engine<R, T>
    const migrate: R -> R
    const retain: nat
    /** The committed entries, for the specification only. */
    ghost const history: seq<Entry>

    var mainDb: Db<R, T>
    var snapshots: seq<Snapshot>
    var log: LogStore
    var recoveryDb: Option<Db<R, T>>
    var postProcess: seq<PostProcess>

    ghost predicate Valid()
      reads this
    {
      && SoundEngine(engine, migrate)
      && retain > 0
      && OrderedRows(mainDb)
      && Faithful(engine, migrate, history, snapshots, log)
    }

    constructor (engine: Engine<R, T>, migrate: R -> R, retain: nat, ghost history: seq<Entry>,
                 mainDb: Db<R, T>, snapshots: seq<Snapshot>, log: LogStore)
      requires SoundEngine(engine, migrate) && retain > 0 && OrderedRows(mainDb)
      requires Faithful(engine, migrate, history, snapshots, log)
      ensures Valid() && this.history == history && this.mainDb == mainDb && this.engine == engine && this.migrate == migrate
    {
      this.engine, this.migrate, this.retain, this.history := engine, migrate, retain, history;
      this.mainDb, this.snapshots, this.log, this.recoveryDb := mainDb, snapshots, log, None;
      this.postProcess := [];
    }

    /** The replay loop: every entry behind the snapshot, on the recovery database, without events. */
    method ReplayLog(db: Db<R, T>, snapshotIndex: nat, snapshotTerm: nat, lastLogIndex: nat, ghost tail: seq<Entry>)
      returns (replayed: Db<R, T>, lastIndex: nat, lastTerm: nat)
      requires Lists(log, snapshotIndex, tail) && lastLogIndex == log.LastIndex()
      modifies this`postProcess
      ensures postProcess == old(postProcess)
      ensures replayed == Replay(engine, db, tail)
      ensures lastIndex == snapshotIndex + |tail|
      ensures lastTerm == if tail == [] then snapshotTerm else tail[|tail| - 1].term
    {
      replayed, lastIndex, lastTerm := db, snapshotIndex, snapshotTerm;
      var index := snapshotIndex + 1;
      assert tail[..0] == [];
      while index <= lastLogIndex
        invariant snapshotIndex + 1 <= index <= snapshotIndex + 1 + |tail|
        invariant replayed == Replay(engine, db, tail[..index - snapshotIndex - 1])
        invariant lastIndex == index - 1 && postProcess == old(postProcess)
        invariant lastTerm == if lastIndex == snapshotIndex then snapshotTerm else tail[lastIndex - snapshotIndex - 1].term
      {
        ghost var k := index - snapshotIndex - 1;
        assert log.GetLog(snapshotIndex + 1 + k) == Some(tail[k]);
        assert tail[..k + 1][..k] == tail[..k];
        var entry := Entry(0, 0, LogCommand, []);
        var found := log.GetLog(index);
        if found.Some? {
          entry := found.value;
          replayed := ReplayEntry(replayed, entry);
        }
        lastIndex := entry.index;
        lastTerm := entry.term;
        index := index + 1;
      }
      assert tail[..|tail|] == tail;
    }

    method ReplayEntry(db: Db<R, T>, entry: Entry) returns (replayed: Db<R, T>)
      modifies this`postProcess
      ensures postProcess == old(postProcess)
      ensures replayed == ApplyRaftLog(engine, db, entry, true).db
    {
      ApplyModes(engine, db, entry);
      var applied := ApplyRaftLog(engine, db, entry, true);
      postProcess := postProcess + applied.events;
      replayed := applied.db;
    }

    /** The newest snapshot's image, its index and term; an undecodable stream reads as no database. */
    method NewestSnapshot() returns (image: bytes, index: nat, term: nat)
      requires Valid()
      ensures index == SnapshotIndex(snapshots) && term == TermAt(history, index)
      ensures engine.openImage(image) == ImageDb(engine, snapshots)
    {
      image, index, term := [], 0, 0;
      if |snapshots| > 0 {
        var decoded := BytesFromSnapshot(engine.platform, snapshots[0].stream);
        if decoded.Ok? {
          image := decoded.value;
        }
        index, term := snapshots[0].index, snapshots[0].term;
      }
    }

    /** Puts the carried logs into the recovery database; a failed batch is fatal. */
    method CarryOver(db: Db<R, T>, logs: seq<T>, commits: nat -> bool) returns (r: Option<Db<R, T>>)
      requires OrderedRows(db)
      ensures (forall k :: commits(k)) ==> r.Some?
      ensures r.Some? ==>
                && r.value.replicated == db.replicated && OrderedRows(r.value)
                && Payloads(r.value.rows) == Payloads(db.rows) + logs
    {
      if |logs| == 0 {
        assert Payloads(db.rows) + logs == Payloads(db.rows);
        return Some(db);
      }
      var table := new Table(db.rows, db.lastId);
      var n := |Batched(logs, 11)|;
      var outcomes := seq(n, k requires 0 <= k < n => commits(k));
      var inserted := InsertExecutionLogs(table, logs, outcomes);
      if inserted.Err? {
        assert logs != [];
        assert inserted.error != IndexPanic;
        assert inserted.error == DbError;
        ghost var k :| 0 <= k < |outcomes| && !outcomes[k];
        assert !commits(k);
        return None;
      }
      assert Payloads(table.rows) == Payloads(db.rows) + logs;
      return Some(Db(db.replicated, table.rows, table.lastId));
    }

    /** Creates, fills and closes a snapshot; only then is it listed, and old ones beyond `retain` go. */
    method FinishSnapshot(db: Db<R, T>, index: nat, term: nat, faults: SnapshotCodec.Faults) returns (ok: bool)
      requires retain > 0
      modifies this`snapshots
      ensures ok <==> faults == SnapshotCodec.Faults(Full, Full, Full, true)
      ensures !ok ==> snapshots == old(snapshots)
      ensures ok ==>
                && 0 < |snapshots| <= retain
                && snapshots[0] == Snapshot(index, term, Encoded(engine.platform, engine.serialize(db)))
                && snapshots[1..] <= old(snapshots)
    {
      var sink := new Sink();
      ok := Persist(engine.platform, engine.serialize(db), sink, faults);
      if ok {
        var all := [Snapshot(index, term, sink.written)] + snapshots;
        snapshots := if |all| <= retain then all else all[..retain];
      }
    }

    /** The main database once raft has started. */
    ghost function Started(): Db<R, T>
      reads this
    {
      if snapshots == [] then mainDb else ImageDb(engine, snapshots)
    }

    /** Starting raft restores the newest snapshot, if one is listed, over the main database. */
    method StartRaft()
      requires snapshots != [] ==> Decoded(engine.platform, snapshots[0].stream).Ok?
      modifies this`mainDb
      ensures mainDb == old(Started())
    {
      if |snapshots| > 0 {
        var decoded := BytesFromSnapshot(engine.platform, snapshots[0].stream);
        mainDb := engine.openImage(decoded.value);
      }
    }

    /** The image, migrated, with the log behind it replayed. */
    method RestoreAndReplay(image: bytes, snapshotIndex: nat, snapshotTerm: nat)
      returns (replayed: Db<R, T>, lastIndex: nat, lastTerm: nat)
      requires Valid() && snapshotIndex == SnapshotIndex(snapshots) && snapshotTerm == TermAt(history, snapshotIndex)
      requires engine.openImage(image) == ImageDb(engine, snapshots)
      modifies this`postProcess
      ensures postProcess == old(postProcess)
      ensures replayed.replicated == Reconstructed(engine, migrate, snapshots, log) && OrderedRows(replayed)
      ensures replayed.rows == ReplayedRows(engine, migrate, snapshots, log)
      ensures forall row :: row in replayed.rows ==> row in ImageDb(engine, snapshots).rows
      ensures lastIndex == |history| && lastTerm == TermAt(history, |history|)
    {
      var migrated := Migrated(migrate, engine.openImage(image));
      TailListed(history, snapshotIndex, log);
      RebuiltState(engine, migrate, history, snapshots, log);
      replayed, lastIndex, lastTerm := ReplayLog(migrated, snapshotIndex, snapshotTerm, log.LastIndex(), Tail(log, snapshotIndex + 1));
    }

    /** The recovery database: snapshot, migrations, replay and carried logs. */
    method Rebuild(commits: nat -> bool) returns (r: Option<Db<R, T>>, lastIndex: nat, lastTerm: nat)
      requires Valid()
      modifies this`postProcess
      ensures postProcess == old(postProcess)
      ensures (forall k :: commits(k)) ==> r.Some?
      ensures lastIndex == |history| && lastTerm == TermAt(history, |history|)
      ensures r.Some? ==>
                && r.value.replicated == Reconstructed(engine, migrate, snapshots, log)
                && OrderedRows(r.value)
                && Carried(mainDb.rows, ImageDb(engine, snapshots).rows, r.value.rows)
                && multiset(Payloads(r.value.rows))
                   == multiset(Payloads(mainDb.rows)) + multiset(Payloads(ReplayedRows(engine, migrate, snapshots, log)))
    {
      var image, snapshotIndex, snapshotTerm := NewestSnapshot();
      var main := new Table(mainDb.rows, mainDb.lastId);
      var executionLogs := GetExecutionLogs(main);
      var replayed;
      replayed, lastIndex, lastTerm := RestoreAndReplay(image, snapshotIndex, snapshotTerm);
      r := CarryOver(replayed, executionLogs, commits);
      if r.Some? {
        CarriedOver(mainDb.rows, ImageDb(engine, snapshots).rows, replayed.rows, executionLogs, r.value.rows);
      }
    }

    /** Snapshot, then compaction, then clean-up and restart; a run may die before each of them. */
    method Install(db: Db<R, T>, lastIndex: nat, lastTerm: nat, death: Death, faults: SnapshotCodec.Faults) returns (finished: bool)
      requires Valid() && SmallImage(engine, db) && OrderedRows(db)
      requires db.replicated == StateAfter(engine, Fresh(engine, migrate), history)
      requires lastIndex == |history| && lastTerm == TermAt(history, |history|)
      modifies this
      ensures Valid() && postProcess == old(postProcess)
      ensures finished <==> Survives(death, 4) && faults == SnapshotCodec.Faults(Full, Full, Full, true)
      ensures snapshots == old(snapshots) || (snapshots != [] && ImageDb(engine, snapshots) == db)
      ensures log.entries == old(log).entries || (log.entries == [] && SnapshotIndex(snapshots) == |history|)
      ensures !finished ==> mainDb == old(mainDb)
      ensures finished ==> log.entries == [] && SnapshotIndex(snapshots) == |history| && recoveryDb == None && mainDb == db == ImageDb(engine, snapshots)
    {
      var firstLogIndex, lastLogIndex := log.FirstIndex(), log.LastIndex();
      finished := false;
      if !Survives(death, 1) {
        return;
      }
      var persisted := FinishSnapshot(db, lastIndex, lastTerm, faults);
      if !persisted {
        return;
      }
      NewSnapshotFaithful(engine, migrate, history, db, snapshots);
      ImageReopens(engine, db);
      LogCovered(history, SnapshotIndex(old(snapshots)), log);
      finished := Compact(db, firstLogIndex, lastLogIndex, death);
    }

    /** What follows the finished snapshot of `db`: the covered log goes, then the recovery database, then raft restarts. */
    method Compact(db: Db<R, T>, firstLogIndex: nat, lastLogIndex: nat, death: Death) returns (finished: bool)
      requires SoundEngine(engine, migrate) && SmallImage(engine, db) && snapshots != []
      requires snapshots[0].stream == Encoded(engine.platform, engine.serialize(db))
      requires firstLogIndex == log.FirstIndex() && lastLogIndex == log.LastIndex() && log.first >= 1
      modifies this`log, this`recoveryDb, this`mainDb
      ensures finished <==> Survives(death, 4)
      ensures log == old(log) || log == LogStore(old(log).first, [])
      ensures !finished ==> mainDb == old(mainDb)
      ensures finished ==> log.entries == [] && recoveryDb == None && mainDb == db
    {
      finished := false;
      if !Survives(death, 2) {
        return;
      }
      log := log.DeleteRange(firstLogIndex, lastLogIndex);
      if !Survives(death, 3) {
        return;
      }
      recoveryDb := None;
      if !Survives(death, 4) {
        return;
      }
      ImageReopens(engine, db);
      StartRaft();
      finished := true;
    }

    /** The recovery database is too large for a Go slice, so that no snapshot of it can be read back. */
    ghost predicate TooLarge()
      reads this
    {
      recoveryDb.Some? && !SmallImage(engine, recoveryDb.value)
    }

    /**
     One recovery run, on the main database that raft's start left. However it ends, the files still
     reconstruct the same replicated state, no event was sent, an entry has left the log only if a
     finished snapshot covers it, and a new snapshot carries every uncommitted execution log of the
     main database. A run that finishes has that snapshot in the main database: its logs, and once more
     those that the old snapshot had and the replay did not delete.
     */
    method RecoverRaftState(death: Death, faults: Faults) returns (finished: bool)
      requires Valid()
      modifies this
      ensures Valid()
      ensures Reconstructed(engine, migrate, snapshots, log) == old(Reconstructed(engine, migrate, snapshots, log))
      ensures postProcess == old(postProcess)
      ensures forall e :: e in old(log).entries && e !in log.entries ==> e.index <= SnapshotIndex(snapshots)
      ensures snapshots == old(snapshots)
              || (snapshots != [] && Carried(old(mainDb.rows), old(ImageDb(engine, snapshots).rows), ImageDb(engine, snapshots).rows))
      ensures Flawless(death, faults) ==> finished || TooLarge()
      ensures finished ==> Survives(death, 4) && faults.sink == SnapshotCodec.Faults(Full, Full, Full, true)
      ensures !finished ==> mainDb == old(mainDb)
      ensures finished ==>
                && log.entries == [] && SnapshotIndex(snapshots) == |history| && recoveryDb == None
                && mainDb == ImageDb(engine, snapshots)
                && mainDb.replicated == StateAfter(engine, Fresh(engine, migrate), history)
                && Carried(old(mainDb.rows), old(ImageDb(engine, snapshots).rows), mainDb.rows)
                && multiset(Payloads(mainDb.rows))
                   == multiset(Payloads(old(mainDb.rows))) + multiset(Payloads(old(ReplayedRows(engine, migrate, snapshots, log))))
    {
      FaithfulReconstructs(engine, migrate, history, snapshots, log);
      EntriesIndexed();
      var rebuilt, lastIndex, lastTerm := Rebuild(faults.commits);
      if !Survives(death, 0) {
        return false;
      }
      recoveryDb := rebuilt;
      if rebuilt.None? || !SmallImage(engine, rebuilt.value) {
        return false;
      }
      finished := Install(rebuilt.value, lastIndex, lastTerm, death, faults.sink);
      FaithfulReconstructs(engine, migrate, history, snapshots, log);
    }

    lemma EntriesIndexed()
      requires Valid()
      ensures forall e :: e in log.entries ==> e.index <= |history|
    {
    }

    /**
     One start of the node's process: raft starts, then recovery runs. However it ends, the next start
     of raft finds the same replicated state and the same uncommitted execution logs as this one.
     */
    method Restart(death: Death, faults: Faults) returns (finished: bool)
      requires Valid()
      modifies this
      ensures Valid()
      ensures Reconstructed(engine, migrate, snapshots, log) == old(Reconstructed(engine, migrate, snapshots, log))
      ensures postProcess == old(postProcess)
      ensures LogsKept(old(Started().rows), Started().rows)
      ensures Flawless(death, faults) ==> finished || TooLarge()
      ensures finished ==> mainDb == Started() && mainDb.replicated == StateAfter(engine, Fresh(engine, migrate), history)
    {
      StartRaft();
      finished := RecoverRaftState(death, faults);
    }

    /**
     Any number of starts that die or fail, and then one that does not, recover the state of the whole
     history. The uncommitted execution logs that were there when raft first started all survive; one
     that the main database held before that survives exactly if no snapshot was listed or the newest
     one had it too.
     */
    method RecoverRepeatedly(attempts: seq<(Death, Faults)>) returns (finished: bool)
      requires Valid()
      modifies this
      ensures Valid()
      ensures Reconstructed(engine, migrate, snapshots, log) == old(Reconstructed(engine, migrate, snapshots, log))
      ensures postProcess == old(postProcess)
      ensures attempts != [] && Flawless(attempts[|attempts| - 1].0, attempts[|attempts| - 1].1) ==> finished || TooLarge()
      ensures finished ==> mainDb.replicated == StateAfter(engine, Fresh(engine, migrate), history)
      ensures finished ==> LogsKept(old(Started().rows), mainDb.rows)
      ensures finished ==>
                forall x :: x in Payloads(old(mainDb.rows)) ==>
                  (x in Payloads(mainDb.rows) <==> old(snapshots == []) || x in Payloads(old(ImageDb(engine, snapshots).rows)))
    {
      finished := false;
      var i := 0;
      ghost var logs := Started().rows;
      while i < |attempts| && !finished
        invariant 0 <= i <= |attempts| && Valid()
        invariant Reconstructed(engine, migrate, snapshots, log) == old(Reconstructed(engine, migrate, snapshots, log))
        invariant postProcess == old(postProcess)
        invariant LogsKept(logs, Started().rows)
        invariant i > 0 && Flawless(attempts[i - 1].0, attempts[i - 1].1) ==> finished || TooLarge()
        invariant finished ==> mainDb == Started() && mainDb.replicated == StateAfter(engine, Fresh(engine, migrate), history)
      {
        ghost var before := Started().rows;
        finished := Restart(attempts[i].0, attempts[i].1);
        LogsKeptTwice(logs, before, Started().rows);
        i := i + 1;
      }
      if finished {
        forall x ensures x in Payloads(mainDb.rows) <==> x in Payloads(logs) {
          LogsKeptSame(logs, mainDb.rows, x);
        }
      }
    }
  }

  /**
   The input on which a log is lost: the newest snapshot covers the whole history but was taken before
   the log x was written. Files and main database are in order, and starting raft drops x.
   */
  lemma StartForgets<R(!new), T(!new)>(en: Engine<R, T>, migrate: R -> R, history: seq<Entry>, db: Db<R, T>, x: T)
    requires SoundEngine(en, migrate) && SmallImage(en, db) && OrderedRows(db)
    requires db.replicated == StateAfter(en, Fresh(en, migrate), history) && x !in Payloads(db.rows)
    requires forall i :: 0 <= i < |history| ==> history[i].index == i + 1
    ensures var snapshots := [Snapshot(|history|, TermAt(history, |history|), Encoded(en.platform, en.serialize(db)))];
            var main := Db(db.replicated, db.rows + [Row(db.lastId + 1, x)], db.lastId + 1);
            && Faithful(en, migrate, history, snapshots, LogStore(1, [])) && OrderedRows(main)
            && x in Payloads(main.rows) && x !in Payloads(ImageDb(en, snapshots).rows)
  {
    var snapshots := [Snapshot(|history|, TermAt(history, |history|), Encoded(en.platform, en.serialize(db)))];
    var main := db.rows + [Row(db.lastId + 1, x)];
    NewSnapshotFaithful(en, migrate, history, db, snapshots);
    ImageReopens(en, db);
    assert Payloads(main)[|db.rows|] == x;
  }

  /** A finished snapshot of the whole history agrees with it. */
  lemma NewSnapshotFaithful<R(!new), T(!new)>(en: Engine<R, T>, migrate: R -> R, history: seq<Entry>, db: Db<R, T>, after: seq<Snapshot>)
    requires SoundEngine(en, migrate) && SmallImage(en, db) && OrderedRows(db)
    requires db.replicated == StateAfter(en, Fresh(en, migrate), history)
    requires after != [] && after[0] == Snapshot(|history|, TermAt(history, |history|), Encoded(en.platform, en.serialize(db)))
    ensures SnapshotFaithful(en, migrate, history, after)
  {
    ImageReopens(en, db);
    assert history[..|history|] == history;
  }

  /** Behind such a snapshot the log may stay or go. */
  lemma LogCovered(history: seq<Entry>, from: nat, log: LogStore)
    requires LogFaithful(history, from, log)
    ensures LogFaithful(history, |history|, log) && LogFaithful(history, |history|, LogStore(log.first, []))
  {
  }
}
