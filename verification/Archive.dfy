/** Moving old request details from the hot table to the archive: copy, verify, then delete. */
module Archive {
  import opened Clock
  import opened Options

  type Id = string

  const ARCHIVE_BATCH_SIZE: nat := 200
  const ARCHIVE_INTERVAL := HOUR

  datatype Row = Row(body: string, createdAt: Time)

  type Table = map<Id, Row>

  /** What the two tables hold together; a hot row hides an archived one. */
  function View(hot: Table, archive: Table): Table
  {
    archive + hot
  }

  predicate Agree(hot: Table, archive: Table)
  {
    forall id :: id in hot && id in archive ==> hot[id] == archive[id]
  }

  function Old(hot: Table, cutoff: Time): (ids: set<Id>)
    ensures ids <= hot.Keys
  {
    set id | id in hot.Keys && hot[id].createdAt < cutoff
  }

  function Ids(batch: seq<Id>): set<Id>
  {
    set i | 0 <= i < |batch| :: batch[i]
  }

  /** A result the batch query may give: the oldest old rows, in order, at most a batch of them. */
  ghost predicate IsBatch(hot: Table, cutoff: Time, batch: seq<Id>)
  {
    && (forall i, j :: 0 <= i < j < |batch| ==> batch[i] != batch[j])
    && (forall i :: 0 <= i < |batch| ==> batch[i] in Old(hot, cutoff))
    && |batch| == (if |Old(hot, cutoff)| < ARCHIVE_BATCH_SIZE then |Old(hot, cutoff)| else ARCHIVE_BATCH_SIZE)
    && (forall i, j :: 0 <= i < j < |batch| ==> hot[batch[i]].createdAt <= hot[batch[j]].createdAt)
    && (forall i, id :: 0 <= i < |batch| && id in Old(hot, cutoff) - Ids(batch) ==>
          hot[batch[i]].createdAt <= hot[id].createdAt)
  }

  /** Some of a table's rows. */
  function Part(table: Table, ids: set<Id>): Table
    requires ids <= table.Keys
  {
    map id | id in ids :: table[id]
  }

  /** The archive after the copying phase: rows already there are left alone. */
  function Copied(hot: Table, archive: Table, batch: seq<Id>): Table
    requires Ids(batch) <= hot.Keys
  {
    Part(hot, Ids(batch)) + archive
  }

  /** The hot table after the deleting phase. */
  function Trimmed(hot: Table, batch: seq<Id>): Table
  {
    hot - Ids(batch)
  }

  // ---- What each phase keeps ---------------------------------------------------------------

  lemma CopyKeepsView(hot: Table, archive: Table, batch: seq<Id>)
    requires Ids(batch) <= hot.Keys
    ensures View(hot, Copied(hot, archive, batch)) == View(hot, archive)
    ensures Agree(hot, archive) ==> Agree(hot, Copied(hot, archive, batch))
  {
  }

  /** Deleting the batch shows the archived rows instead: the view is kept exactly if those agree with the hot rows deleted. */
  lemma MoveKeepsViewIff(hot: Table, archive: Table, batch: seq<Id>)
    requires Ids(batch) <= hot.Keys
    ensures View(Trimmed(hot, batch), Copied(hot, archive, batch)) == View(hot, archive) <==>
            forall id :: id in Ids(batch) && id in archive ==> archive[id] == hot[id]
    ensures Agree(hot, archive) ==> Agree(Trimmed(hot, batch), Copied(hot, archive, batch))
    ensures View(Trimmed(hot, batch), Copied(hot, archive, batch)).Keys == View(hot, archive).Keys
  {
    var before, after := View(hot, archive), View(Trimmed(hot, batch), Copied(hot, archive, batch));
    assert before.Keys == hot.Keys + archive.Keys;
    assert after.Keys == before.Keys;
    forall id | id in before
      ensures after[id] == before[id] <==> !(id in Ids(batch) && id in archive && archive[id] != hot[id])
    {
    }
    if after == before {
      forall id | id in Ids(batch) && id in archive
        ensures archive[id] == hot[id]
      {
        assert id in before && after[id] == before[id];
      }
    }
  }

  // ---- The store ---------------------------------------------------------------------------

  /** How far a run got: not started or nothing committed, the copies committed, or all of it. */
  datatype Stage = Skipped | Stopped | CopyDone | MoveDone

  datatype Tables = Tables(hot: Table, archive: Table)

  /** The tables a run leaves behind. */
  function AfterRun(ts: Tables, batch: seq<Id>, stage: Stage): Tables
    requires Ids(batch) <= ts.hot.Keys
  {
    match stage
    case Skipped => ts
    case Stopped => ts
    case CopyDone => Tables(ts.hot, Copied(ts.hot, ts.archive, batch))
    case MoveDone => Tables(Trimmed(ts.hot, batch), Copied(ts.hot, ts.archive, batch))
  }

  class RequestDetailStore {
    var details: Table  // in memory
    var hot: Table
    var archive: Table
    var archiveDays: int
    var lastArchiveAt: Option<Time>

    constructor (hot: Table, archive: Table, archiveDays: int)
      ensures this.hot == hot && this.archive == archive && this.archiveDays == archiveDays
      ensures details == map[] && lastArchiveAt.None?
    {
      this.hot, this.archive, this.archiveDays := hot, archive, archiveDays;
      details, lastArchiveAt := map[], None;
    }

    /** Memory first, then the hot table, then the archive. */
    method Get(id: Id) returns (row: Option<Row>)
      ensures row == Lookup(details, View(hot, archive), id)
    {
      if id in details {
        return Some(details[id]);
      }
      if id in hot {
        return Some(hot[id]);
      }
      if id in archive {
        return Some(archive[id]);
      }
      return None;
    }

    /**
      * One run at `now`.  `configuredDays` is the setting read back, `batch` the query's answer, and `calls` the
      * number of database calls that succeed before one fails or the process stops.
      */
    method ArchiveOldDetails(now: Time, configuredDays: int, batch: seq<Id>, calls: nat) returns (stage: Stage)
      requires IsBatch(hot, now - configuredDays * DAY, batch)
      modifies this`hot, this`archive, this`archiveDays, this`lastArchiveAt
      ensures stage == Skipped <==>
                || old(archiveDays) <= 0
                || (old(lastArchiveAt).Some? && now - old(lastArchiveAt).value < 3_600_000_000_000)
      ensures stage != Skipped ==> lastArchiveAt == Some(now) && archiveDays == configuredDays
      ensures stage == Skipped ==> lastArchiveAt == old(lastArchiveAt) && archiveDays == old(archiveDays)
      ensures Ids(batch) <= old(hot).Keys
      ensures Tables(hot, archive) == AfterRun(Tables(old(hot), old(archive)), batch, stage)
      ensures stage != Skipped && calls >= 7 + 3 * |batch| ==> stage == MoveDone
    {
      if archiveDays <= 0 {
        return Skipped;
      }
      if lastArchiveAt.Some? && now - lastArchiveAt.value < ARCHIVE_INTERVAL {
        return Skipped;
      }
      if configuredDays != archiveDays {
        archiveDays := configuredDays;
      }
      lastArchiveAt := Some(now);

      var budget := calls;
      if budget < 1 {  // the batch query
        return Stopped;
      }
      budget := budget - 1;
      if |batch| == 0 {
        assert Copied(hot, archive, batch) == archive && Trimmed(hot, batch) == hot;
        return MoveDone;
      }

      // Phase 1: copy into the archive, in one transaction.
      var copied, tx;
      copied, tx, budget := CopyBatch(batch, budget);
      if !copied {
        return Stopped;
      }
      archive := tx;

      // Phase 2: verify every row, then delete from the hot table, in one transaction.
      for i := 0 to |batch|
        invariant budget >= 0 && budget + i == calls - 4 - |batch|
      {
        if budget < 1 {
          return CopyDone;
        }
        budget := budget - 1;
        assert batch[i] in Ids(batch);
        if batch[i] !in archive {
          return CopyDone;
        }
      }
      var deleted, rest := DeleteBatch(batch, budget);
      if !deleted {
        return CopyDone;
      }
      hot := rest;
      return MoveDone;
    }

    /** Begin, prepare, one insert per row, commit. */
    method CopyBatch(batch: seq<Id>, calls: nat) returns (done: bool, tx: Table, budget: nat)
      requires Ids(batch) <= hot.Keys
      ensures done ==> tx == Copied(hot, archive, batch) && budget == calls - 3 - |batch|
      ensures calls >= 3 + |batch| ==> done
    {
      budget, tx := calls, archive;
      if budget < 2 {
        return false, tx, budget;
      }
      budget := budget - 2;
      for i := 0 to |batch|
        invariant budget == calls - 2 - i
        invariant tx == Copied(hot, archive, batch[..i])
      {
        if budget < 1 {
          return false, tx, budget;
        }
        budget := budget - 1;
        CopyOneMore(hot, archive, batch, i);
        assert batch[i] in Ids(batch);
        if batch[i] !in tx {
          tx := tx[batch[i] := hot[batch[i]]];
        }
      }
      assert batch[..|batch|] == batch;
      if budget < 1 {
        return false, tx, budget;
      }
      return true, tx, budget - 1;
    }

    /** Begin, prepare, one delete per row, commit. */
    method DeleteBatch(batch: seq<Id>, calls: nat) returns (done: bool, tx: Table)
      ensures done ==> tx == Trimmed(hot, batch)
      ensures calls >= 3 + |batch| ==> done
    {
      var budget := calls;
      tx := hot;
      if budget < 2 {
        return false, tx;
      }
      budget := budget - 2;
      for i := 0 to |batch|
        invariant budget == calls - 2 - i
        invariant tx == Trimmed(hot, batch[..i])
      {
        if budget < 1 {
          return false, tx;
        }
        budget := budget - 1;
        IdsSnoc(batch, i);
        tx := tx - {batch[i]};
      }
      assert batch[..|batch|] == batch;
      done := budget >= 1;
    }
  }

  function Lookup(details: Table, view: Table, id: Id): Option<Row>
  {
    if id in details then Some(details[id]) else if id in view then Some(view[id]) else None
  }

  lemma IdsSnoc(batch: seq<Id>, i: nat)
    requires i < |batch|
    ensures Ids(batch[..i + 1]) == Ids(batch[..i]) + {batch[i]}
    ensures Ids(batch[..i + 1]) <= Ids(batch)
  {
    assert batch[..i + 1] == batch[..i] + [batch[i]];
  }

  lemma CopyOneMore(hot: Table, archive: Table, batch: seq<Id>, i: nat)
    requires i < |batch| && Ids(batch) <= hot.Keys
    ensures Ids(batch[..i]) <= hot.Keys && Ids(batch[..i + 1]) <= hot.Keys && batch[i] in hot
    ensures var tx := Copied(hot, archive, batch[..i]);
            Copied(hot, archive, batch[..i + 1]) == if batch[i] in tx then tx else tx[batch[i] := hot[batch[i]]]
  {
    IdsSnoc(batch, i);
    assert forall k :: 0 <= k < i ==> batch[..i][k] == batch[k];
  }

  /** A lookup prefers memory to the hot table and the hot table to the archive, and finds nothing only if all three lack the row. */
  lemma LookupRule(details: Table, hot: Table, archive: Table, id: Id)
    ensures var r := Lookup(details, View(hot, archive), id);
            && (id in details ==> r == Some(details[id]))
            && (id !in details && id in hot ==> r == Some(hot[id]))
            && (id !in details && id !in hot && id in archive ==> r == Some(archive[id]))
            && (r == None <==> id !in details && id !in hot && id !in archive)
  {
  }

  // ---- Crash safety over whole runs --------------------------------------------------------

  /** Wherever a run stops, no row is lost and every id reads as before, if the tables agree on the rows they share. */
  method StopsSafely(s: RequestDetailStore, now: Time, configuredDays: int, batch: seq<Id>, calls: nat)
    returns (stage: Stage)
    requires IsBatch(s.hot, now - configuredDays * DAY, batch)
    requires Agree(s.hot, s.archive)
    modifies s
    ensures View(s.hot, s.archive) == old(View(s.hot, s.archive)) && Agree(s.hot, s.archive) && s.details == old(s.details)
    ensures forall id :: Lookup(s.details, View(s.hot, s.archive), id) == old(Lookup(s.details, View(s.hot, s.archive), id))
  {
    hide Copied, Trimmed, View, Agree;
    BatchInHot(s.hot, now - configuredDays * DAY, batch);
    CopyKeepsView(s.hot, s.archive, batch);
    AgreeingMove(s.hot, s.archive, batch);
    stage := s.ArchiveOldDetails(now, configuredDays, batch, calls);
  }

  lemma BatchInHot(hot: Table, cutoff: Time, batch: seq<Id>)
    requires IsBatch(hot, cutoff, batch)
    ensures Ids(batch) <= hot.Keys && Ids(batch) <= Old(hot, cutoff)
  {
  }

  lemma AgreeingMove(hot: Table, archive: Table, batch: seq<Id>)
    requires Ids(batch) <= hot.Keys && Agree(hot, archive)
    ensures View(Trimmed(hot, batch), Copied(hot, archive, batch)) == View(hot, archive)
    ensures Agree(Trimmed(hot, batch), Copied(hot, archive, batch))
  {
    hide Copied, Trimmed, View;
    MoveKeepsViewIff(hot, archive, batch);
  }

  /** Without agreement a hot row rewritten after it was archived is lost for good. */
  lemma DisagreementLosesRow(id: Id, older: Row, newer: Row, cutoff: Time)
    requires older != newer && newer.createdAt < cutoff
    ensures var hot, archive: Table := map[id := newer], map[id := older];
            IsBatch(hot, cutoff, [id]) && View(hot, archive)[id] == newer && View(Trimmed(hot, [id]), Copied(hot, archive, [id]))[id] == older
  {
    assert [id][0] == id && id in Ids([id]);
    var hot: Table := map[id := newer];
    assert Old(hot, cutoff) == {id};
    assert Ids([id]) == {id};
  }

  /** One run of a history: its cutoff, the batch its query gave, and how far it got. */
  datatype Round = Round(cutoff: Time, batch: seq<Id>, stage: Stage)

  /** Each batch is what the query gives at the cutoff of its run, on the table it meets. */
  ghost predicate QueriedInTurn(hot: Table, rounds: seq<Round>)
  {
    rounds == []
    || (var r := rounds[0];
        && IsBatch(hot, r.cutoff, r.batch)
        && QueriedInTurn(if r.stage == MoveDone then Trimmed(hot, r.batch) else hot, rounds[1..]))
  }

  /** The tables a history leaves behind. */
  function AfterRounds(ts: Tables, rounds: seq<Round>): Tables
    decreases |rounds|
  {
    if rounds == [] then ts
    else if !(Ids(rounds[0].batch) <= ts.hot.Keys) then ts
    else AfterRounds(AfterRun(ts, rounds[0].batch, rounds[0].stage), rounds[1..])
  }

  function Completed(rounds: seq<Round>): nat
  {
    if rounds == [] then 0 else (if rounds[0].stage == MoveDone then 1 else 0) + Completed(rounds[1..])
  }

  predicate CutoffsWithin(rounds: seq<Round>, low: Time, high: Time)
  {
    forall i :: 0 <= i < |rounds| ==> low <= rounds[i].cutoff <= high
  }

  /** Rows only move from the hot table to the archive, unchanged, only old ones, and never onto an archived row. */
  ghost predicate OnlyMoves(before: Tables, after: Tables, high: Time)
  {
    && (forall id :: id in after.hot ==> id in before.hot && after.hot[id] == before.hot[id])
    && (forall id :: id in before.hot && id !in Old(before.hot, high) ==> id in after.hot)
    && (forall id :: id in before.hot && id !in after.hot ==> id in after.archive)
    && (forall id :: id in before.archive ==> id in after.archive && after.archive[id] == before.archive[id])
    && (forall id :: id in after.archive && id !in before.archive ==>
          id in Old(before.hot, high) && after.archive[id] == before.hot[id])
  }

  /** Every row older than the cutoff in the archive, none in the hot table; rows archived before are as they were. */
  function Drained(ts: Tables, cutoff: Time): Tables
  {
    Tables(ts.hot - Old(ts.hot, cutoff), Part(ts.hot, Old(ts.hot, cutoff)) + ts.archive)
  }

  lemma {:induction false} IdsCount(batch: seq<Id>)
    requires forall i, j :: 0 <= i < j < |batch| ==> batch[i] != batch[j]
    ensures |Ids(batch)| == |batch|
  {
    if batch != [] {
      var n := |batch| - 1;
      IdsCount(batch[..n]);
      IdsSnoc(batch, n);
      assert batch[..n + 1] == batch;
      assert batch[n] !in Ids(batch[..n]);
    } else {
      assert Ids(batch) == {};
    }
  }

  lemma SubsetSize(a: set<Id>, b: set<Id>)
    requires a <= b
    ensures |b - a| == |b| - |a| && (|a| == |b| ==> a == b)
  {
    assert b == a + (b - a);
    if |a| == |b| {
      assert b - a == {};
    }
  }

  /**
    * A batch holds the oldest rows, so whatever its cutoff it takes a full batch of the rows older than any smaller cutoff,
    * or all of them.
    */
  lemma OldestFirst(hot: Table, cutoff: Time, low: Time, batch: seq<Id>)
    requires IsBatch(hot, cutoff, batch) && low <= cutoff
    ensures var n := |Old(hot, low)|;
            |Old(hot, low) - Ids(batch)| <= if n < ARCHIVE_BATCH_SIZE then 0 else n - ARCHIVE_BATCH_SIZE
  {
    IdsCount(batch);
    BatchInHot(hot, cutoff, batch);
    var ids, rest := Ids(batch), Old(hot, low) - Ids(batch);
    if |batch| < ARCHIVE_BATCH_SIZE {
      SubsetSize(ids, Old(hot, cutoff));
      assert rest == {};
    } else if id :| id in rest {
      assert forall i :: 0 <= i < |batch| ==> hot[batch[i]].createdAt <= hot[id].createdAt;
      assert ids <= Old(hot, low);
      SubsetSize(ids, Old(hot, low));
    } else {
      assert rest == {};
    }
  }

  lemma OldTrimmed(hot: Table, cutoff: Time, batch: seq<Id>)
    ensures Old(Trimmed(hot, batch), cutoff) == Old(hot, cutoff) - Ids(batch)
  {
    hide Ids;
  }

  /** One run moves only rows older than its cutoff. */
  lemma RunOnlyMoves(ts: Tables, cutoff: Time, high: Time, batch: seq<Id>, stage: Stage)
    requires IsBatch(ts.hot, cutoff, batch) && cutoff <= high
    ensures Ids(batch) <= ts.hot.Keys && OnlyMoves(ts, AfterRun(ts, batch, stage), high)
  {
    BatchInHot(ts.hot, cutoff, batch);
    hide IsBatch, Ids;
    assert Ids(batch) <= Old(ts.hot, high);
  }

  lemma OnlyMovesTwice(a: Tables, b: Tables, c: Tables, high: Time)
    requires OnlyMoves(a, b, high) && OnlyMoves(b, c, high)
    ensures OnlyMoves(a, c, high)
  {
    assert forall id :: id in Old(b.hot, high) ==> id in Old(a.hot, high);
  }

  /**
    * Any history of runs, stopped anywhere or complete, with cutoffs that may differ from run to run: rows only move, and once
    * enough runs have completed no row older than the least cutoff is left in the hot table.
    */
  lemma {:induction false} RunsDrain(ts: Tables, low: Time, high: Time, rounds: seq<Round>)
    requires QueriedInTurn(ts.hot, rounds) && CutoffsWithin(rounds, low, high)
    ensures OnlyMoves(ts, AfterRounds(ts, rounds), high)
    ensures Completed(rounds) * ARCHIVE_BATCH_SIZE >= |Old(ts.hot, low)| ==> Old(AfterRounds(ts, rounds).hot, low) == {}
    decreases |rounds|
  {
    hide Copied, Trimmed, Old, Ids, IsBatch, OnlyMoves;
    if rounds == [] {
      NothingMoved(ts, high);
    } else {
      var r := rounds[0];
      RunOnlyMoves(ts, r.cutoff, high, r.batch, r.stage);
      OldestFirst(ts.hot, r.cutoff, low, r.batch);
      OldTrimmed(ts.hot, low, r.batch);
      var next := AfterRun(ts, r.batch, r.stage);
      RunsDrain(next, low, high, rounds[1..]);
      OnlyMovesTwice(ts, next, AfterRounds(next, rounds[1..]), high);
    }
  }

  /** The same by age: enough complete runs leave nothing older than all their cutoffs, and never touch what is not older than one. */
  lemma RunsDrainByAge(ts: Tables, low: Time, high: Time, rounds: seq<Round>)
    requires QueriedInTurn(ts.hot, rounds) && CutoffsWithin(rounds, low, high)
    ensures var after := AfterRounds(ts, rounds);
            && (forall id :: id in ts.hot && ts.hot[id].createdAt >= high ==> id in after.hot && after.hot[id] == ts.hot[id])
            && (forall id :: id in ts.hot && id !in after.hot ==> id in after.archive && ts.hot[id].createdAt < high)
            && (Completed(rounds) * 200 >= |set id | id in ts.hot && ts.hot[id].createdAt < low| ==>
                  forall id :: id in after.hot ==> after.hot[id].createdAt >= low)
  {
    RunsDrain(ts, low, high, rounds);
    assert Old(ts.hot, low) == set id | id in ts.hot && ts.hot[id].createdAt < low;
    hide QueriedInTurn, CutoffsWithin, AfterRounds, Completed;
    var after := AfterRounds(ts, rounds);
    forall id | id in after.hot && after.hot[id].createdAt < low
      ensures id in Old(after.hot, low)
    {
    }
  }

  lemma NothingMoved(ts: Tables, high: Time)
    ensures OnlyMoves(ts, ts, high)
  {
  }

  /** At one cutoff the result is a function of the tables alone, whatever the stops and batches were. */
  lemma RunsAtOneCutoff(ts: Tables, cutoff: Time, rounds: seq<Round>)
    requires QueriedInTurn(ts.hot, rounds) && CutoffsWithin(rounds, cutoff, cutoff)
    requires Completed(rounds) * ARCHIVE_BATCH_SIZE >= |Old(ts.hot, cutoff)|
    ensures AfterRounds(ts, rounds) == Drained(ts, cutoff)
  {
    hide AfterRounds, QueriedInTurn, Completed, CutoffsWithin;
    RunsDrain(ts, cutoff, cutoff, rounds);
    MovedAll(ts, AfterRounds(ts, rounds), cutoff);
  }

  lemma MovedAll(ts: Tables, after: Tables, cutoff: Time)
    requires OnlyMoves(ts, after, cutoff) && Old(after.hot, cutoff) == {}
    ensures after == Drained(ts, cutoff)
  {
    var d := Drained(ts, cutoff);
    forall id
      ensures id in after.hot <==> id in d.hot
    {
      assert id in after.hot && id in Old(ts.hot, cutoff) ==> id in Old(after.hot, cutoff);
    }
    assert after.hot == d.hot;
    assert after.archive.Keys == d.archive.Keys;
    assert after.archive == d.archive;
  }

  /** A complete rerun after an interrupted run ends where the uninterrupted run would have. */
  lemma RerunReaches(ts: Tables, batch: seq<Id>, stage: Stage)
    requires Ids(batch) <= ts.hot.Keys && stage != MoveDone
    ensures AfterRun(AfterRun(ts, batch, stage), batch, MoveDone) == AfterRun(ts, batch, MoveDone)
  {
    hide Ids;
    assert Part(ts.hot, Ids(batch)) + (Part(ts.hot, Ids(batch)) + ts.archive) == Part(ts.hot, Ids(batch)) + ts.archive;
  }

  /** No history loses a row or changes what is visible, if the tables agree. */
  lemma {:induction false} RunsKeepView(ts: Tables, rounds: seq<Round>)
    requires QueriedInTurn(ts.hot, rounds) && Agree(ts.hot, ts.archive)
    ensures var after := AfterRounds(ts, rounds);
            View(after.hot, after.archive) == View(ts.hot, ts.archive) && Agree(after.hot, after.archive)
    decreases |rounds|
  {
    hide Copied, Trimmed, View, Agree, Ids, IsBatch;
    if rounds != [] {
      var r := rounds[0];
      BatchInHot(ts.hot, r.cutoff, r.batch);
      CopyKeepsView(ts.hot, ts.archive, r.batch);
      AgreeingMove(ts.hot, ts.archive, r.batch);
      RunsKeepView(AfterRun(ts, r.batch, r.stage), rounds[1..]);
    }
  }
}
