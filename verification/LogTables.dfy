/**
 Reading a whole table by id ranges, and inserting rows batch by batch into a table with an
 auto-incremented id.
 */
module LogTables {
  import opened Collections
  import opened Batching

  datatype Row<T> = Row(id: int, payload: T)

  datatype Error = IndexPanic | DbError

  function Payloads<T>(rows: seq<Row<T>>): (p: seq<T>)
    ensures |p| == |rows| && forall i :: 0 <= i < |rows| ==> p[i] == rows[i].payload
  {
    seq(|rows|, i requires 0 <= i < |rows| => rows[i].payload)
  }

  /** The rows an SQL insert of `batch` appends after id `last`. */
  function Numbered<T>(last: int, batch: seq<T>): (rows: seq<Row<T>>)
    ensures |rows| == |batch| && forall i :: 0 <= i < |batch| ==> rows[i] == Row(last + 1 + i, batch[i])
  {
    seq(|batch|, i requires 0 <= i < |batch| => Row(last + 1 + i, batch[i]))
  }

  /** Ids are positive and ascend, and none is above the last one given out. */
  predicate RowsWellFormed<T>(rows: seq<Row<T>>, lastId: nat) {
    && (forall i :: 0 <= i < |rows| ==> 1 <= rows[i].id <= lastId)
    && (forall i, j :: 0 <= i < j < |rows| ==> rows[i].id < rows[j].id)
  }

  /** A table's rows and the last id it gave out; SQLite's AUTOINCREMENT never gives one out again. */
  datatype Content<T> = Content(rows: seq<Row<T>>, lastId: nat)

  /** What any other command can do to the rows of a table without touching their ids. */
  datatype Change<!T> = Insert(batch: seq<T>) | Delete(gone: Row<T> -> bool) | Update(to: Row<T> -> T)

  function Remaining<T>(rows: seq<Row<T>>, gone: Row<T> -> bool): seq<Row<T>> {
    if rows == [] then []
    else
      var last := rows[|rows| - 1];
      Remaining(rows[..|rows| - 1], gone) + if gone(last) then [] else [last]
  }

  function Updated<T>(rows: seq<Row<T>>, to: Row<T> -> T): (r: seq<Row<T>>)
    ensures |r| == |rows| && forall i :: 0 <= i < |rows| ==> r[i] == Row(rows[i].id, to(rows[i]))
  {
    seq(|rows|, i requires 0 <= i < |rows| => Row(rows[i].id, to(rows[i])))
  }

  function Changed<T>(t: Content<T>, c: Change<T>): Content<T> {
    match c
    case Insert(batch) => Content(t.rows + Numbered(t.lastId, batch), t.lastId + |batch|)
    case Delete(gone) => Content(Remaining(t.rows, gone), t.lastId)
    case Update(to) => Content(Updated(t.rows, to), t.lastId)
  }

  function AfterChanges<T>(t: Content<T>, changes: seq<Change<T>>): Content<T> {
    if changes == [] then t else Changed(AfterChanges(t, changes[..|changes| - 1]), changes[|changes| - 1])
  }

  lemma {:induction false} RemainingRows<T(!new)>(rows: seq<Row<T>>, lastId: nat, gone: Row<T> -> bool)
    requires RowsWellFormed(rows, lastId)
    ensures RowsWellFormed(Remaining(rows, gone), lastId)
    ensures forall r :: r in Remaining(rows, gone) <==> r in rows && !gone(r)
  {
    if rows != [] {
      var before := rows[..|rows| - 1];
      RemainingRows(before, lastId, gone);
      var kept := Remaining(before, gone);
      forall i | 0 <= i < |kept| ensures kept[i].id < rows[|rows| - 1].id {
        assert kept[i] in kept;
        assert kept[i] in before;
      }
      assert rows == before + [rows[|rows| - 1]];
    }
  }

  class Table<T(==,!new)> {
    var rows: seq<Row<T>>
    var lastId: nat

    predicate Valid()
      reads this
    {
      RowsWellFormed(rows, lastId)
    }

    function Contents(): Content<T>
      reads this
    {
      Content(rows, lastId)
    }

    constructor (rows: seq<Row<T>>, lastId: nat)
      requires RowsWellFormed(rows, lastId)
      ensures Valid() && this.rows == rows && this.lastId == lastId
    {
      this.rows, this.lastId := rows, lastId;
    }

    /** One INSERT statement in its own transaction. */
    method Insert(batch: seq<T>, commits: bool) returns (ok: bool)
      requires Valid()
      modifies this
      ensures Valid() && ok == commits
      ensures rows == old(rows) + if ok then Numbered(old(lastId), batch) else []
      ensures lastId == old(lastId) + if ok then |batch| else 0
    {
      ok := commits;
      if ok {
        rows := rows + Numbered(lastId, batch);
        lastId := lastId + |batch|;
      } else {
        assert rows + [] == rows;
      }
    }

    /** Another command of the log. */
    method Apply(c: Change<T>)
      requires Valid()
      modifies this
      ensures Valid() && Contents() == Changed(old(Contents()), c)
    {
      ChangeKeeps(Contents(), c);
      match c
      case Insert(batch) =>
        rows := rows + Numbered(lastId, batch);
        lastId := lastId + |batch|;
      case Delete(gone) => rows := Remaining(rows, gone);
      case Update(to) => rows := Updated(rows, to);
    }

    /** SELECT ... WHERE id IN (ids): every matching row once, in an order the caller may not rely on. */
    method SelectIn(ids: seq<int>) returns (found: seq<T>)
      ensures multiset(found) == Matching(rows, ids)
    {
      found := [];
      var i := 0;
      while i < |rows|
        invariant 0 <= i <= |rows|
        invariant multiset(found) == Matching(rows[..i], ids)
      {
        assert rows[..i + 1][..i] == rows[..i];
        if rows[i].id in ids {
          assert multiset(found + [rows[i].payload]) == multiset(found) + multiset{rows[i].payload};
          found := found + [rows[i].payload];
        }
        i := i + 1;
      }
      assert rows[..i] == rows;
    }

    method MinMaxId() returns (minId: int, maxId: int)
      requires rows != []
      ensures forall r :: r in rows ==> minId <= r.id <= maxId
      ensures (exists r :: r in rows && r.id == minId) && (exists r :: r in rows && r.id == maxId)
    {
      minId, maxId := rows[0].id, rows[0].id;
      var i := 1;
      while i < |rows|
        invariant 1 <= i <= |rows|
        invariant forall k :: 0 <= k < i ==> minId <= rows[k].id <= maxId
        invariant (exists k :: 0 <= k < i && rows[k].id == minId) && (exists k :: 0 <= k < i && rows[k].id == maxId)
      {
        if rows[i].id < minId {
          minId := rows[i].id;
        }
        if rows[i].id > maxId {
          maxId := rows[i].id;
        }
        i := i + 1;
      }
    }
  }

  /** The payloads of the rows whose id is listed. */
  function Matching<T>(rows: seq<Row<T>>, ids: seq<int>): multiset<T> {
    if rows == [] then multiset{}
    else
      var last := rows[|rows| - 1];
      Matching(rows[..|rows| - 1], ids) + if last.id in ids then multiset{last.payload} else multiset{}
  }

  lemma {:induction false} MatchingSplit<T>(rows: seq<Row<T>>, a: seq<int>, b: seq<int>)
    requires forall i :: i in a ==> i !in b
    ensures Matching(rows, a + b) == Matching(rows, a) + Matching(rows, b)
  {
    if rows != [] {
      MatchingSplit(rows[..|rows| - 1], a, b);
    }
  }

  lemma {:induction false} MatchingNone<T>(rows: seq<Row<T>>)
    ensures Matching(rows, []) == multiset{}
  {
    if rows != [] {
      MatchingNone(rows[..|rows| - 1]);
    }
  }

  lemma {:induction false} MatchingAll<T>(rows: seq<Row<T>>, ids: seq<int>)
    requires forall r :: r in rows ==> r.id in ids
    ensures Matching(rows, ids) == multiset(Payloads(rows))
  {
    if rows != [] {
      var before := rows[..|rows| - 1];
      MatchingAll(before, ids);
      assert rows[|rows| - 1] in rows;
      assert Payloads(rows) == Payloads(before) + [rows[|rows| - 1].payload];
    }
  }

  function IdRange(low: int, high: int): (ids: seq<int>)
    ensures |ids| == (if low <= high then high - low + 1 else 0)
    ensures forall i :: 0 <= i < |ids| ==> ids[i] == low + i
  {
    seq(if low <= high then high - low + 1 else 0, i => low + i)
  }

  method ExpandIdsRange(low: int, high: int) returns (ids: seq<int>)
    ensures ids == IdRange(low, high)
  {
    ids := [];
    var i := low;
    while i <= high
      invariant low <= i && (i <= high + 1 || i == low)
      invariant ids == IdRange(low, i - 1)
      decreases high - i
    {
      ids := ids + [i];
      i := i + 1;
    }
  }

  /** Taking one more batch extends the flattened prefix by it; a prefix flattens to a prefix. */
  lemma FlattenSplit<T>(batches: seq<seq<T>>, k: nat)
    requires k < |batches|
    ensures Flatten(batches[..k + 1]) == Flatten(batches[..k]) + batches[k]
    ensures Flatten(batches[..k + 1]) <= Flatten(batches)
  {
    FlattenLast(batches[..k + 1]);
    assert batches[..k + 1][..k] == batches[..k];
    FlattenPrefix(batches, k + 1);
  }

  lemma FlattenLast<T>(batches: seq<seq<T>>)
    requires batches != []
    ensures Flatten(batches) == Flatten(batches[..|batches| - 1]) + batches[|batches| - 1]
  {
    var n := |batches| - 1;
    FlattenConcat(batches[..n], [batches[n]]);
    assert batches == batches[..n] + [batches[n]];
    FlattenOne(batches[n]);
  }

  lemma FlattenPrefix<T>(batches: seq<seq<T>>, k: nat)
    requires k <= |batches|
    ensures Flatten(batches[..k]) <= Flatten(batches)
  {
    FlattenConcat(batches[..k], batches[k..]);
    assert batches == batches[..k] + batches[k..];
  }

  lemma FlattenOne<T>(batch: seq<T>)
    ensures Flatten([batch]) == batch
  {
  }

  lemma {:induction false} FlattenConcat<T>(a: seq<seq<T>>, b: seq<seq<T>>)
    ensures Flatten(a + b) == Flatten(a) + Flatten(b)
  {
    if a == [] {
      assert a + b == b;
    } else {
      assert (a + b)[1..] == a[1..] + b;
      FlattenConcat(a[1..], b);
    }
  }

  /** The scan of all execution logs: each row of the table exactly once, whatever gaps its ids have. */
  method GetExecutionLogs<T(==,!new)>(table: Table<T>) returns (logs: seq<T>)
    ensures multiset(logs) == multiset(Payloads(table.rows))
  {
    logs := [];
    if |table.rows| < 1 {
      return;
    }
    var minId, maxId := table.MinMaxId();
    var ids := ExpandIdsRange(minId, maxId);
    var batches := Batch(ids, 11);
    BatchesConcatenate(ids, 11);
    var k := 0;
    MatchingNone(table.rows);
    while k < |batches|
      invariant 0 <= k <= |batches|
      invariant multiset(logs) == Matching(table.rows, Flatten(batches[..k]))
    {
      BatchMatches(table.rows, ids, batches, k);
      var found := table.SelectIn(batches[k]);
      logs := logs + found;
      k := k + 1;
    }
    assert batches[..k] == batches;
    RangeCovers(table.rows, minId, maxId);
  }

  /** One more batch of ascending ids finds its own rows and none of the earlier ones. */
  lemma BatchMatches<T>(rows: seq<Row<T>>, ids: seq<int>, batches: seq<seq<int>>, k: nat)
    requires k < |batches| && Flatten(batches) == ids
    requires forall i, j :: 0 <= i < j < |ids| ==> ids[i] < ids[j]
    ensures Matching(rows, Flatten(batches[..k + 1])) == Matching(rows, Flatten(batches[..k])) + Matching(rows, batches[k])
  {
    FlattenSplit(batches, k);
    var done := Flatten(batches[..k]);
    forall i | i in done ensures i !in batches[k] {
      Ascending(ids, done, batches[k], i);
    }
    MatchingSplit(rows, done, batches[k]);
  }

  lemma RangeCovers<T>(rows: seq<Row<T>>, minId: int, maxId: int)
    requires forall r :: r in rows ==> minId <= r.id <= maxId
    ensures Matching(rows, IdRange(minId, maxId)) == multiset(Payloads(rows))
  {
    var ids := IdRange(minId, maxId);
    forall r | r in rows ensures r.id in ids {
      assert ids[r.id - minId] == r.id;
    }
    MatchingAll(rows, ids);
  }

  lemma Ascending(ids: seq<int>, a: seq<int>, b: seq<int>, x: int)
    requires forall i, j :: 0 <= i < j < |ids| ==> ids[i] < ids[j]
    requires a + b <= ids && x in a
    ensures x !in b
  {
    var i :| 0 <= i < |a| && a[i] == x;
    forall j | 0 <= j < |b| ensures b[j] != x {
      assert ids[i] == (a + b)[i] && ids[|a| + j] == (a + b)[|a| + j];
    }
  }

  /** Inserting logs appends exactly them; if a batch fails, the ones before it stay and nothing else does. */
  method InsertExecutionLogs<T(==,!new)>(table: Table<T>, logs: seq<T>, commits: seq<bool>) returns (r: Result<(), Error>)
    requires table.Valid()
    requires |commits| == |Batched(logs, 11)|
    modifies table
    ensures table.Valid()
    ensures r == Err(IndexPanic) <==> logs == []
    ensures r.Ok? ==> logs != [] && Appended(old(table.rows), table.rows, logs)
    ensures r == Err(IndexPanic) ==> table.rows == old(table.rows)
    ensures r == Err(DbError) <==> logs != [] && exists k :: 0 <= k < |commits| && !commits[k]
    ensures r == Err(DbError) ==>
              exists k :: 0 <= k < |commits| && !commits[k] && Appended(old(table.rows), table.rows, Flatten(Batched(logs, 11)[..k]))
  {
    var batches := Batch(logs, 11);
    BatchesConcatenate(logs, 11);
    if logs == [] {
      return Err(IndexPanic);
    }
    var k := 0;
    while k < |batches|
      invariant 0 <= k <= |batches| && table.Valid()
      invariant forall j :: 0 <= j < k ==> commits[j]
      invariant Appended(old(table.rows), table.rows, Flatten(batches[..k]))
    {
      ghost var before, lastId := table.rows, table.lastId;
      var ok := table.Insert(batches[k], commits[k]);
      if !ok {
        assert table.rows == before;
        return Err(DbError);
      }
      FlattenSplit(batches, k);
      AppendedMore(old(table.rows), before, Flatten(batches[..k]), lastId, batches[k]);
      k := k + 1;
    }
    assert batches[..k] == batches;
    return Ok(());
  }

  /** The table kept its rows and gained rows for exactly these payloads, in order. */
  ghost predicate Appended<T>(before: seq<Row<T>>, after: seq<Row<T>>, payloads: seq<T>) {
    before <= after && Payloads(after) == Payloads(before) + payloads
  }

  lemma AppendedMore<T>(first: seq<Row<T>>, before: seq<Row<T>>, done: seq<T>, last: int, batch: seq<T>)
    requires Appended(first, before, done)
    ensures Appended(first, before + Numbered(last, batch), done + batch)
  {
  }

  // Inserts with other commands between them.

  /** What SQL says of the three statements. */
  lemma ChangedRows<T(!new)>(t: Content<T>, c: Change<T>)
    requires RowsWellFormed(t.rows, t.lastId)
    ensures var u := Changed(t, c);
            && u.lastId == t.lastId + (if c.Insert? then |c.batch| else 0)
            && (c.Insert? ==> t.rows <= u.rows && Payloads(u.rows) == Payloads(t.rows) + c.batch)
            && (c.Delete? ==> forall r :: r in u.rows <==> r in t.rows && !c.gone(r))
            && (c.Update? ==> |u.rows| == |t.rows| && forall i :: 0 <= i < |t.rows| ==> u.rows[i] == Row(t.rows[i].id, c.to(t.rows[i])))
  {
    if c.Delete? {
      RemainingRows(t.rows, t.lastId, c.gone);
    }
  }

  lemma ChangeKeeps<T(!new)>(t: Content<T>, c: Change<T>)
    requires RowsWellFormed(t.rows, t.lastId)
    ensures RowsWellFormed(Changed(t, c).rows, Changed(t, c).lastId) && Changed(t, c).lastId >= t.lastId
  {
    if c.Delete? {
      RemainingRows(t.rows, t.lastId, c.gone);
    }
  }

  /** The row with this id, or that there is none. */
  predicate HoldsAt<T(==,!new)>(t: Content<T>, id: int, row: Option<Row<T>>) {
    match row
    case Some(r) => r.id == id && r in t.rows
    case None => forall r :: r in t.rows ==> r.id != id
  }

  /** What a change leaves of a row. */
  function Traced<T>(row: Option<Row<T>>, c: Change<T>): Option<Row<T>> {
    if row.None? || c.Insert? then row
    else if c.Delete? then (if c.gone(row.value) then None else row)
    else Some(Row(row.value.id, c.to(row.value)))
  }

  function TracedAll<T>(row: Option<Row<T>>, changes: seq<Change<T>>): Option<Row<T>> {
    if changes == [] then row else Traced(TracedAll(row, changes[..|changes| - 1]), changes[|changes| - 1])
  }

  lemma SameIdSameRow<T(!new)>(rows: seq<Row<T>>, lastId: nat, a: Row<T>, b: Row<T>)
    requires RowsWellFormed(rows, lastId) && a in rows && b in rows && a.id == b.id
    ensures a == b
  {
  }

  lemma IdDeleted<T(!new)>(t: Content<T>, gone: Row<T> -> bool, row: Row<T>)
    requires RowsWellFormed(t.rows, t.lastId) && row in t.rows && gone(row)
    ensures forall r :: r in Remaining(t.rows, gone) ==> r.id != row.id
  {
    RemainingRows(t.rows, t.lastId, gone);
    forall r | r in Remaining(t.rows, gone) && r.id == row.id ensures r == row {
      SameIdSameRow(t.rows, t.lastId, r, row);
    }
  }

  lemma ChangeTraces<T(!new)>(t: Content<T>, c: Change<T>, id: int, row: Option<Row<T>>)
    requires RowsWellFormed(t.rows, t.lastId) && id <= t.lastId && HoldsAt(t, id, row)
    ensures HoldsAt(Changed(t, c), id, Traced(row, c))
  {
    match c
    case Insert(batch) =>
    case Delete(gone) =>
      RemainingRows(t.rows, t.lastId, gone);
      if row.Some? && gone(row.value) {
        IdDeleted(t, gone, row.value);
      }
    case Update(to) =>
      if row.Some? {
        var i :| 0 <= i < |t.rows| && t.rows[i] == row.value;
        assert Updated(t.rows, to)[i] == Row(id, to(row.value));
      }
  }

  lemma {:induction false} ChangesTrace<T(!new)>(t: Content<T>, changes: seq<Change<T>>, id: int, row: Option<Row<T>>)
    requires RowsWellFormed(t.rows, t.lastId) && id <= t.lastId && HoldsAt(t, id, row)
    ensures var u := AfterChanges(t, changes);
            RowsWellFormed(u.rows, u.lastId) && u.lastId >= t.lastId && HoldsAt(u, id, TracedAll(row, changes))
    decreases |changes|
  {
    if changes != [] {
      var before := changes[..|changes| - 1];
      ChangesTrace(t, before, id, row);
      ChangeKeeps(AfterChanges(t, before), changes[|changes| - 1]);
      ChangeTraces(AfterChanges(t, before), changes[|changes| - 1], id, TracedAll(row, before));
    }
  }

  /** The table after the rounds of a batched insert: before each batch the log orders other commands. */
  function AfterRounds<T>(t: Content<T>, batches: seq<seq<T>>, others: seq<seq<Change<T>>>): Content<T>
    requires |batches| <= |others|
  {
    if batches == [] then t
    else
      var n := |batches| - 1;
      Changed(AfterChanges(AfterRounds(t, batches[..n], others), others[n]), Insert(batches[n]))
  }

  /** The rows a batch is given under these ids. */
  function GivenRows<T>(ids: seq<int>, batch: seq<T>): (given: seq<Option<Row<T>>>)
    requires |ids| == |batch|
    ensures |given| == |ids| && forall i :: 0 <= i < |ids| ==> given[i] == Some(Row(ids[i], batch[i]))
  {
    seq(|ids|, i requires 0 <= i < |ids| => Some(Row(ids[i], batch[i])))
  }

  /** What the later changes leave of rows. */
  function TracedRows<T>(given: seq<Option<Row<T>>>, changes: seq<Change<T>>): (left: seq<Option<Row<T>>>)
    ensures |left| == |given| && forall i :: 0 <= i < |given| ==> left[i] == TracedAll(given[i], changes)
  {
    seq(|given|, i requires 0 <= i < |given| => TracedAll(given[i], changes))
  }

  /** Task i was given Row(ids[i], task i); this is what the commands of the later rounds left of it. */
  function Traces<T>(batches: seq<seq<T>>, others: seq<seq<Change<T>>>, ids: seq<int>): (left: seq<Option<Row<T>>>)
    requires |batches| <= |others| && |ids| == |Flatten(batches)|
    ensures |left| == |ids|
    decreases |batches|
  {
    if batches == [] then []
    else
      FlattenLast(batches);
      var n, m := |batches| - 1, |ids| - |batches[|batches| - 1]|;
      TracedRows(Traces(batches[..n], others, ids[..m]), others[n]) + GivenRows(ids[m..], batches[n])
  }

  /** The ids ascend above `low`, and under each of them the table has exactly what is left of its row. */
  ghost predicate Placed<T(!new)>(t: Content<T>, ids: seq<int>, left: seq<Option<Row<T>>>, low: int) {
    && |ids| == |left|
    && (forall i :: 0 <= i < |ids| ==> low < ids[i] <= t.lastId && HoldsAt(t, ids[i], left[i]))
    && (forall i, j :: 0 <= i < j < |ids| ==> ids[i] < ids[j])
  }

  lemma {:induction false} ChangesKeep<T(!new)>(t: Content<T>, changes: seq<Change<T>>)
    requires RowsWellFormed(t.rows, t.lastId)
    ensures RowsWellFormed(AfterChanges(t, changes).rows, AfterChanges(t, changes).lastId) && AfterChanges(t, changes).lastId >= t.lastId
    decreases |changes|
  {
    if changes != [] {
      ChangesKeep(t, changes[..|changes| - 1]);
      ChangeKeeps(AfterChanges(t, changes[..|changes| - 1]), changes[|changes| - 1]);
    }
  }

  lemma PlacedLater<T(!new)>(t: Content<T>, ids: seq<int>, left: seq<Option<Row<T>>>, low: int, changes: seq<Change<T>>)
    requires RowsWellFormed(t.rows, t.lastId) && Placed(t, ids, left, low)
    ensures Placed(AfterChanges(t, changes), ids, TracedRows(left, changes), low)
  {
    ChangesKeep(t, changes);
    forall i | 0 <= i < |ids| ensures HoldsAt(AfterChanges(t, changes), ids[i], TracedAll(left[i], changes)) {
      ChangesTrace(t, changes, ids[i], left[i]);
    }
  }

  /** The ids counted back from the last one are those the insert gave out. */
  lemma PlacedAppend<T(!new)>(t: Content<T>, ids: seq<int>, left: seq<Option<Row<T>>>, low: int, batch: seq<T>, more: seq<int>)
    requires RowsWellFormed(t.rows, t.lastId) && low <= t.lastId && Placed(t, ids, left, low)
    requires more == IdRange(t.lastId + 1, t.lastId + |batch|)
    ensures Placed(Changed(t, Insert(batch)), ids + more, left + GivenRows(more, batch), low)
  {
    var u, allIds, allLeft := Changed(t, Insert(batch)), ids + more, left + GivenRows(more, batch);
    forall i | 0 <= i < |allIds| ensures low < allIds[i] <= u.lastId && HoldsAt(u, allIds[i], allLeft[i]) {
      if i < |ids| {
        ChangeTraces(t, Insert(batch), ids[i], left[i]);
      } else {
        assert u.rows[|t.rows| + (i - |ids|)] == Row(allIds[i], batch[i - |ids|]);
      }
    }
  }

  lemma TracesStep<T>(batches: seq<seq<T>>, others: seq<seq<Change<T>>>, k: nat, ids: seq<int>, more: seq<int>)
    requires k < |batches| <= |others| && |ids| == |Flatten(batches[..k])| && |more| == |batches[k]|
    ensures |ids + more| == |Flatten(batches[..k + 1])|
    ensures Traces(batches[..k + 1], others, ids + more) == TracedRows(Traces(batches[..k], others, ids), others[k]) + GivenRows(more, batches[k])
  {
    FlattenSplit(batches, k);
    assert batches[..k + 1][..k] == batches[..k];
    assert (ids + more)[..|ids|] == ids && (ids + more)[|ids|..] == more;
  }

  /** What the first k rounds of the batched insert leave and report. */
  ghost predicate Progress<T(!new)>(start: Content<T>, t: Content<T>, batches: seq<seq<T>>, others: seq<seq<Change<T>>>, k: nat, ids: seq<int>) {
    && k <= |batches| <= |others|
    && RowsWellFormed(t.rows, t.lastId) && start.lastId <= t.lastId
    && t == AfterRounds(start, batches[..k], others)
    && |ids| == |Flatten(batches[..k])|
    && Placed(t, ids, Traces(batches[..k], others, ids), start.lastId)
  }

  /** One round of the batched insert, from what the rounds before it placed. */
  lemma RoundDone<T(!new)>(start: Content<T>, t: Content<T>, batches: seq<seq<T>>, others: seq<seq<Change<T>>>, k: nat, ids: seq<int>, more: seq<int>)
    requires Progress(start, t, batches, others, k, ids) && k < |batches|
    requires more == IdRange(AfterChanges(t, others[k]).lastId + 1, AfterChanges(t, others[k]).lastId + |batches[k]|)
    ensures Progress(start, Changed(AfterChanges(t, others[k]), Insert(batches[k])), batches, others, k + 1, ids + more)
  {
    var left := Traces(batches[..k], others, ids);
    TracesStep(batches, others, k, ids, more);
    PlacedLater(t, ids, left, start.lastId, others[k]);
    ChangesKeep(t, others[k]);
    ChangeKeeps(AfterChanges(t, others[k]), Insert(batches[k]));
    PlacedAppend(AfterChanges(t, others[k]), ids, TracedRows(left, others[k]), start.lastId, batches[k], more);
    assert batches[..k + 1][..k] == batches[..k];
  }

  /**
   The replicated insert of async tasks: position i of the result is the id given to task i, whatever
   other commands (`others`) the log orders between the batches. Under that id the table has task i's
   row as they left it, or no row if they deleted it. A failing batch is not inserted, nor any after it.
   */
  method RaftBatchInsert<T(==,!new)>(table: Table<T>, tasks: seq<T>, commits: seq<bool>, others: seq<seq<Change<T>>>)
    returns (r: Result<seq<int>, Error>)
    requires table.Valid()
    requires |commits| == |others| == |Batched(tasks, 7)|
    modifies table
    ensures table.Valid()
    ensures r == Err(IndexPanic) <==> tasks == []
    ensures r.Ok? <==> tasks != [] && forall k :: 0 <= k < |commits| ==> commits[k]
    ensures r.Ok? ==>
              && |r.value| == |Flatten(Batched(tasks, 7))| == |tasks|
              && Placed(table.Contents(), r.value, Traces(Batched(tasks, 7), others, r.value), old(table.lastId))
              && table.Contents() == AfterRounds(old(table.Contents()), Batched(tasks, 7), others)
    ensures r == Err(IndexPanic) ==> table.Contents() == old(table.Contents())
    ensures r == Err(DbError) ==>
              exists k :: 0 <= k < |commits| && !commits[k]
                          && table.Contents() == AfterChanges(AfterRounds(old(table.Contents()), Batched(tasks, 7)[..k], others), others[k])
  {
    var batches := Batch(tasks, 7);
    BatchesConcatenate(tasks, 7);
    if tasks == [] {
      return Err(IndexPanic);
    }
    ghost var start := table.Contents();
    var results := InsertBatches(table, batches, commits, others);
    if results.None? {
      return Err(DbError);
    }
    AllRounds(start, table.Contents(), batches, others, results.value);
    return Ok(results.value);
  }

  /** The loop over the batches, which stops at the first that fails. */
  method InsertBatches<T(==,!new)>(table: Table<T>, batches: seq<seq<T>>, commits: seq<bool>, others: seq<seq<Change<T>>>)
    returns (ids: Option<seq<int>>)
    requires table.Valid() && |commits| == |others| == |batches|
    modifies table
    ensures table.Valid()
    ensures ids.Some? <==> forall k :: 0 <= k < |commits| ==> commits[k]
    ensures ids.Some? ==> Progress(old(table.Contents()), table.Contents(), batches, others, |batches|, ids.value)
    ensures ids.None? ==>
              exists k :: 0 <= k < |commits| && !commits[k]
                          && table.Contents() == AfterChanges(AfterRounds(old(table.Contents()), batches[..k], others), others[k])
  {
    ghost var start := table.Contents();
    assert batches[..0] == [];
    var results: seq<int> := [];
    var k := 0;
    while k < |batches|
      invariant 0 <= k <= |batches| && table.Valid()
      invariant forall j :: 0 <= j < k ==> commits[j]
      invariant Progress(start, table.Contents(), batches, others, k, results)
    {
      ghost var before := table.Contents();
      var written := WriteBatch(table, others[k], batches[k], commits[k]);
      if written.None? {
        assert !commits[k] && table.Contents() == AfterChanges(AfterRounds(start, batches[..k], others), others[k]);
        return None;
      }
      RoundDone(start, before, batches, others, k, results, written.value);
      results := results + written.value;
      k := k + 1;
    }
    return Some(results);
  }

  lemma AllRounds<T(!new)>(start: Content<T>, t: Content<T>, batches: seq<seq<T>>, others: seq<seq<Change<T>>>, ids: seq<int>)
    requires Progress(start, t, batches, others, |batches|, ids)
    ensures |ids| == |Flatten(batches)| && t == AfterRounds(start, batches, others)
    ensures Placed(t, ids, Traces(batches, others, ids), start.lastId)
  {
    assert batches[..|batches|] == batches;
  }

  /** One round of the loop: other commands, then the batch, whose ids are counted back from the last one. */
  method WriteBatch<T(==,!new)>(table: Table<T>, other: seq<Change<T>>, batch: seq<T>, commits: bool) returns (ids: Option<seq<int>>)
    requires table.Valid()
    modifies table
    ensures table.Valid() && table.lastId >= old(table.lastId) && (ids.Some? <==> commits)
    ensures var t := AfterChanges(old(table.Contents()), other);
            && table.Contents() == (if commits then Changed(t, Insert(batch)) else t)
            && (commits ==> ids.value == IdRange(t.lastId + 1, t.lastId + |batch|))
  {
    var i := 0;
    while i < |other|
      invariant 0 <= i <= |other| && table.Valid() && table.lastId >= old(table.lastId)
      invariant table.Contents() == AfterChanges(old(table.Contents()), other[..i])
    {
      assert other[..i + 1][..i] == other[..i];
      ChangeKeeps(table.Contents(), other[i]);
      table.Apply(other[i]);
      i := i + 1;
    }
    assert other[..i] == other;
    var ok := table.Insert(batch, commits);
    if !ok {
      assert table.rows + [] == table.rows;
      return None;
    }
    var lastInsertedId := table.lastId;
    var range := ExpandIdsRange(lastInsertedId - |batch| + 1, lastInsertedId);
    return Some(range);
  }

  predicate InsertsOnly<T>(changes: seq<Change<T>>) {
    forall i :: 0 <= i < |changes| ==> changes[i].Insert?
  }

  /** If the commands in between only insert, position i is the id of the row that holds task i. */
  lemma {:induction false} PlacedByInserts<T>(batches: seq<seq<T>>, others: seq<seq<Change<T>>>, ids: seq<int>)
    requires |batches| <= |others| && |ids| == |Flatten(batches)|
    requires forall k :: 0 <= k < |others| ==> InsertsOnly(others[k])
    ensures Traces(batches, others, ids) == GivenRows(ids, Flatten(batches))
    decreases |batches|
  {
    if batches != [] {
      FlattenLast(batches);
      var n, m := |batches| - 1, |ids| - |batches[|batches| - 1]|;
      PlacedByInserts(batches[..n], others, ids[..m]);
      InsertsLeaveAll(Traces(batches[..n], others, ids[..m]), others[n]);
      GivenConcat(ids[..m], Flatten(batches[..n]), ids[m..], batches[n]);
      assert ids[..m] + ids[m..] == ids;
    }
  }

  lemma GivenConcat<T>(a: seq<int>, as_: seq<T>, b: seq<int>, bs: seq<T>)
    requires |a| == |as_| && |b| == |bs|
    ensures GivenRows(a, as_) + GivenRows(b, bs) == GivenRows(a + b, as_ + bs)
  {
  }

  lemma InsertsLeaveAll<T>(given: seq<Option<Row<T>>>, changes: seq<Change<T>>)
    requires InsertsOnly(changes)
    ensures TracedRows(given, changes) == given
  {
    forall i | 0 <= i < |given| ensures TracedAll(given[i], changes) == given[i] {
      InsertsLeave(given[i], changes);
    }
  }

  lemma {:induction false} InsertsLeave<T>(row: Option<Row<T>>, changes: seq<Change<T>>)
    requires InsertsOnly(changes)
    ensures TracedAll(row, changes) == row
    decreases |changes|
  {
    if changes != [] {
      InsertsLeave(row, changes[..|changes| - 1]);
    }
  }
}
