/** The download_requests table, the entity read from it, and the repository
    (src/infrastructure/database/repositories/download_request_repository.py,
    src/domain/entities/download_request.py). Instants are integers. */
module Requests {
  import opened Wrappers
  import opened DownloadSpecs

  type Id = nat

  datatype Status = Pending | Processing | Done | Failed {
    predicate Active() {
      Pending? || Processing?
    }
  }

  /** The status column: one of the four names, or text this build cannot read. */
  datatype StoredStatus = Known(status: Status) | Unreadable(raw: string)

  datatype Row = Row(
    userId: nat,
    sourceUrl: string,
    status: StoredStatus,
    formatKind: string,
    videoTier: Option<string>,
    completedAt: Option<int>,
    updatedAt: int)
  {
    predicate Active() {
      status.Known? && status.status.Active()
    }

    predicate Terminal() {
      status.Known? && !status.status.Active()
    }

    predicate SpecReadable() {
      SpecFromParts(formatKind, videoTier).Success?
    }

    predicate Readable() {
      status.Known? && SpecReadable()
    }
  }

  type Table = map<Id, Row>

  datatype Entity = Entity(
    id: Id, userId: nat, sourceUrl: string, status: Status, spec: DownloadSpec, completedAt: Option<int>)

  datatype Column = StatusColumn | SpecColumn

  /** CorruptedRecordError: the ids survive an unreadable column next to them. */
  datatype CorruptedRecord = CorruptedRecord(column: Column, requestId: Id, userId: nat)

  datatype StaleRequest = StaleRequest(requestId: Id, userId: nat, previousStatus: Status)

  function ToEntity(id: Id, row: Row): Result<Entity, CorruptedRecord> {
    match row.status
    case Unreadable(_) => Failure(CorruptedRecord(StatusColumn, id, row.userId))
    case Known(status) =>
      match SpecFromParts(row.formatKind, row.videoTier)
      case Failure(_) => Failure(CorruptedRecord(SpecColumn, id, row.userId))
      case Success(spec) => Success(Entity(id, row.userId, row.sourceUrl, status, spec, row.completedAt))
  }

  /** What `get_by_id` finds: nothing, an entity, or an unreadable row. */
  type Found = Result<Option<Entity>, CorruptedRecord>

  function Lookup(rows: Table, id: Id): Found {
    if id !in rows then Success(None)
    else match ToEntity(id, rows[id])
      case Success(e) => Success(Some(e))
      case Failure(error) => Failure(error)
  }

  /** A lookup raises exactly on a row with an unreadable column, naming the
      status before the spec and keeping both ids; any entity it returns is
      stored as exactly the columns of that row. */
  lemma LookupIsExact(rows: Table, id: Id)
    ensures Lookup(rows, id) == Success(None) <==> id !in rows
    ensures Lookup(rows, id).Failure? <==> id in rows && !rows[id].Readable()
    ensures Lookup(rows, id).Failure? ==>
              Lookup(rows, id).error
              == CorruptedRecord(if rows[id].status.Known? then SpecColumn else StatusColumn, id, rows[id].userId)
    ensures id in rows && rows[id].Readable() ==>
              var e := Lookup(rows, id).value.value;
              Created(map[], e, rows[id].updatedAt)[id] == rows[id].(completedAt := None)
              && e.completedAt == rows[id].completedAt
  {
    if id in rows && rows[id].Readable() {
      var e := Lookup(rows, id).value.value;
      PartsInvertColumns(rows[id].formatKind, rows[id].videoTier, e.spec);
    }
  }

  // ----- what each write leaves in the table -----

  function Created(rows: Table, e: Entity, stamp: int): Table {
    rows[e.id := Row(e.userId, e.sourceUrl, Known(e.status), SpecKind(e.spec).Value(), TierColumn(e.spec), None, stamp)]
  }

  /** `update` writes whatever the row held before. */
  function Updated(rows: Table, id: Id, status: Status, completedAt: Option<int>, stamp: int): Table
    requires id in rows
  {
    rows[id := rows[id].(status := Known(status), completedAt := completedAt, updatedAt := stamp)]
  }

  function MarkedFailed(rows: Table, id: Id, stamp: int): Table {
    if id in rows then Updated(rows, id, Failed, Some(stamp), stamp) else rows
  }

  /** Two tables agree on every other row. */
  ghost predicate SameButFor(before: Table, after: Table, id: Id) {
    after.Keys == before.Keys && forall other :: other in before && other != id ==> after[other] == before[other]
  }

  /** A saved entity is read back as saved: whatever outcome `update` wrote, the
      next read finds it, its completion and all; the row carries the write's
      stamp and no other row changed. */
  lemma SaveIsReadBack(rows: Table, e0: Entity, e: Entity, stamp: int)
    requires Lookup(rows, e.id) == Success(Some(e0)) && e == e0.(status := e.status, completedAt := e.completedAt)
    ensures var after := Updated(rows, e.id, e.status, e.completedAt, stamp);
            && Lookup(after, e.id) == Success(Some(e))
            && after[e.id].updatedAt == stamp && SameButFor(rows, after, e.id)
  {
  }

  /** An id marked failed reads back FAILED since that instant, unless its spec is
      what could not be read; a missing one changes nothing. */
  lemma MarkIsReadBack(rows: Table, id: Id, stamp: int)
    ensures id !in rows ==> MarkedFailed(rows, id, stamp) == rows
    ensures id in rows ==>
              var after := MarkedFailed(rows, id, stamp);
              && SameButFor(rows, after, id) && after[id].updatedAt == stamp
              && after[id].status == Known(Failed) && after[id].completedAt == Some(stamp)
              && (rows[id].SpecReadable() ==>
                    Lookup(after, id).Success? && Lookup(after, id).value.Some?
                    && Lookup(after, id).value.value.status == Failed)
  {
  }

  /** Exactly a row stored as pending or as processing can be claimed, the second
      so that a retry finds its request again; it then reads PROCESSING with a
      fresh stamp and everything else as before. */
  lemma ClaimIsExact(rows: Table, id: Id, stamp: int)
    ensures Claimable(rows, id) <==> id in rows && rows[id].status in {Known(Pending), Known(Processing)}
    ensures Claimable(rows, id) ==>
              var after := Claimed(rows, id, stamp);
              && SameButFor(rows, after, id)
              && after[id] == rows[id].(status := Known(Processing), updatedAt := stamp)
    ensures !Claimable(rows, id) ==> Claimed(rows, id, stamp) == rows
  {
  }

  predicate Claimable(rows: Table, id: Id) {
    id in rows && rows[id].Active()
  }

  function Claimed(rows: Table, id: Id, stamp: int): Table {
    if Claimable(rows, id) then rows[id := rows[id].(status := Known(Processing), updatedAt := stamp)] else rows
  }

  predicate Stale(row: Row, cutoff: int) {
    row.Active() && row.updatedAt < cutoff
  }

  function StaleIds(rows: Table, cutoff: int): set<Id> {
    set id | id in rows && Stale(rows[id], cutoff)
  }

  /** The reaper's UPDATE: only rows that are stale at this moment move. */
  function Reaped(rows: Table, ids: seq<Id>, cutoff: int, stamp: int): Table {
    map id | id in rows :: if id in ids && Stale(rows[id], cutoff) then
                             rows[id].(status := Known(Failed), completedAt := Some(stamp), updatedAt := stamp)
                           else rows[id]
  }

  function Describe(rows: Table, id: Id): StaleRequest
    requires id in rows && rows[id].status.Known?
  {
    StaleRequest(id, rows[id].userId, rows[id].status.status)
  }

  function IdsOf(batch: seq<StaleRequest>): seq<Id> {
    seq(|batch|, i requires 0 <= i < |batch| => batch[i].requestId)
  }

  ghost predicate Distinct(ids: seq<Id>) {
    forall i, j :: 0 <= i < j < |ids| ==> ids[i] != ids[j]
  }

  /** The candidates whose row the UPDATE moves. */
  function Moved(rows: Table, batch: seq<StaleRequest>, cutoff: int): seq<StaleRequest> {
    if batch == [] then []
    else
      var last := batch[|batch| - 1];
      Moved(rows, batch[..|batch| - 1], cutoff)
      + if last.requestId in rows && Stale(rows[last.requestId], cutoff) then [last] else []
  }

  ghost predicate OldestFirst(rows: Table, batch: seq<StaleRequest>) {
    && (forall c :: c in batch ==> c.requestId in rows)
    && forall i, j :: 0 <= i < j < |batch| ==> rows[batch[i].requestId].updatedAt <= rows[batch[j].requestId].updatedAt
  }

  /** A legal answer of the SELECT: described stale rows, oldest first, up to the
      limit, passing over the rows another transaction has locked. */
  ghost predicate IsBatch(rows: Table, cutoff: int, limit: nat, locked: set<Id>, batch: seq<StaleRequest>) {
    var eligible := StaleIds(rows, cutoff) - locked;
    && Distinct(IdsOf(batch))
    && (forall c :: c in batch ==> c.requestId in eligible && c == Describe(rows, c.requestId))
    && OldestFirst(rows, batch)
    && (forall c, id :: c in batch && id in eligible && id !in IdsOf(batch) ==>
          rows[c.requestId].updatedAt <= rows[id].updatedAt)
    && |batch| == if |eligible| < limit then |eligible| else limit
  }

  /** A batch being built: `rest` are the stale rows not taken yet. */
  ghost predicate BatchSoFar(rows: Table, cutoff: int, batch: seq<StaleRequest>, rest: set<Id>) {
    && rest <= StaleIds(rows, cutoff)
    && Distinct(IdsOf(batch)) && OldestFirst(rows, batch)
    && (forall c :: c in batch ==>
          c.requestId in StaleIds(rows, cutoff) && c.requestId !in rest && c == Describe(rows, c.requestId))
    && (forall id :: id in StaleIds(rows, cutoff) && id !in IdsOf(batch) ==> id in rest)
    && (forall c, id :: c in batch && id in rest ==> rows[c.requestId].updatedAt <= rows[id].updatedAt)
    && |batch| + |rest| == |StaleIds(rows, cutoff)|
  }

  lemma BatchGrows(rows: Table, cutoff: int, batch: seq<StaleRequest>, rest: set<Id>, id: Id)
    requires BatchSoFar(rows, cutoff, batch, rest)
    requires id in rest && forall other :: other in rest ==> rows[id].updatedAt <= rows[other].updatedAt
    ensures BatchSoFar(rows, cutoff, batch + [Describe(rows, id)], rest - {id})
  {
    assert IdsOf(batch + [Describe(rows, id)]) == IdsOf(batch) + [id];
    assert id !in IdsOf(batch) by {
      assert forall i :: 0 <= i < |batch| ==> batch[i] in batch;
    }
    DistinctGrows(IdsOf(batch), id);
    OldestFirstGrows(rows, batch, Describe(rows, id));
  }

  lemma DistinctGrows(ids: seq<Id>, id: Id)
    requires Distinct(ids) && id !in ids
    ensures Distinct(ids + [id])
  {
  }

  lemma OldestFirstGrows(rows: Table, batch: seq<StaleRequest>, last: StaleRequest)
    requires OldestFirst(rows, batch) && last.requestId in rows
    requires forall c :: c in batch ==> rows[c.requestId].updatedAt <= rows[last.requestId].updatedAt
    ensures OldestFirst(rows, batch + [last])
  {
    assert forall i :: 0 <= i < |batch| ==> batch[i] in batch;
  }

  // ----- the entity and the repository as objects -----

  class DownloadRequest {
    const id: Id
    const userId: nat
    const sourceUrl: string
    const spec: DownloadSpec
    var status: Status
    var completedAt: Option<int>

    constructor (e: Entity)
      ensures Value() == e
    {
      id, userId, sourceUrl, spec, status, completedAt := e.id, e.userId, e.sourceUrl, e.spec, e.status, e.completedAt;
    }

    function Value(): Entity
      reads this
    {
      Entity(id, userId, sourceUrl, status, spec, completedAt)
    }

    method MarkProcessing()
      modifies this
      ensures Value() == old(Value()).(status := Processing)
    {
      status := Processing;
    }

    method MarkDone(now: int)
      modifies this
      ensures Value() == old(Value()).(status := Done, completedAt := Some(now))
    {
      status := Done;
      completedAt := Some(now);
    }

    method MarkFailed(now: int)
      modifies this
      ensures Value() == old(Value()).(status := Failed, completedAt := Some(now))
    {
      status := Failed;
      completedAt := Some(now);
    }
  }

  class DownloadRequestRepository {
    var rows: Table

    constructor (rows: Table)
      ensures this.rows == rows
    {
      this.rows := rows;
    }

    method GetById(id: Id) returns (found: Found)
      ensures found == Lookup(rows, id)
    {
      if id !in rows {
        return Success(None);
      }
      match ToEntity(id, rows[id])
      case Success(e) => return Success(Some(e));
      case Failure(error) => return Failure(error);
    }

    method Create(request: DownloadRequest, now: int)
      requires request.id !in rows
      modifies this
      ensures rows == Created(old(rows), request.Value(), now)
    {
      rows := rows[request.id := Row(request.userId, request.sourceUrl, Known(request.status),
                                     SpecKind(request.spec).Value(), TierColumn(request.spec), None, now)];
    }

    /** Raises (returns false) when the row is gone. */
    method Update(request: DownloadRequest, now: int) returns (ok: bool)
      modifies this
      ensures ok <==> request.id in old(rows)
      ensures rows == if ok then Updated(old(rows), request.id, request.status, request.completedAt, now) else old(rows)
    {
      if request.id !in rows {
        return false;
      }
      var row := rows[request.id];
      row := row.(status := Known(request.status), completedAt := request.completedAt);
      rows := rows[request.id := row.(updatedAt := now)];
      return true;
    }

    method MarkFailedById(id: Id, now: int)
      modifies this
      ensures rows == MarkedFailed(old(rows), id, now)
    {
      if id !in rows {
        return;
      }
      rows := rows[id := rows[id].(status := Known(Failed), completedAt := Some(now), updatedAt := now)];
    }

    method ClaimForProcessing(id: Id, now: int) returns (claimed: bool)
      modifies this
      ensures claimed <==> Claimable(old(rows), id)
      ensures rows == Claimed(old(rows), id, now)
    {
      claimed := id in rows && rows[id].Active();
      if claimed {
        rows := rows[id := rows[id].(status := Known(Processing), updatedAt := now)];
      }
    }

    /** The oldest of a set of rows. */
    method Oldest(ids: set<Id>) returns (oldest: Id)
      requires ids != {} && ids <= rows.Keys
      ensures oldest in ids && forall id :: id in ids ==> rows[oldest].updatedAt <= rows[id].updatedAt
    {
      oldest :| oldest in ids;
      var rest := ids - {oldest};
      while rest != {}
        invariant rest <= ids && oldest in ids
        invariant forall id :: id in ids && id !in rest ==> rows[oldest].updatedAt <= rows[id].updatedAt
        decreases rest
      {
        var id :| id in rest;
        if rows[id].updatedAt < rows[oldest].updatedAt {
          oldest := id;
        }
        rest := rest - {id};
      }
    }

    /** SELECT ... WHERE stale ORDER BY updated_at LIMIT, nothing locked. */
    method SelectStale(cutoff: int, limit: nat) returns (batch: seq<StaleRequest>)
      ensures IsBatch(rows, cutoff, limit, {}, batch)
    {
      batch := [];
      var rest := StaleIds(rows, cutoff);
      while |batch| < limit && rest != {}
        invariant |batch| <= limit && BatchSoFar(rows, cutoff, batch, rest)
        decreases rest
      {
        var id := Oldest(rest);
        BatchGrows(rows, cutoff, batch, rest, id);
        batch := batch + [Describe(rows, id)];
        rest := rest - {id};
      }
      assert StaleIds(rows, cutoff) - {} == StaleIds(rows, cutoff);
    }

    /** UPDATE ... WHERE id IN candidates AND still stale RETURNING id, then the
        candidates among the returned ids. */
    method UpdateStale(batch: seq<StaleRequest>, cutoff: int, now: int) returns (moved: seq<StaleRequest>)
      modifies this
      ensures rows == Reaped(old(rows), IdsOf(batch), cutoff, now)
      ensures moved == Moved(old(rows), batch, cutoff)
    {
      ghost var before := rows;
      var ids := set id | id in IdsOf(batch);
      var returned := set id | id in ids && id in rows && Stale(rows[id], cutoff);
      rows := map id | id in rows :: if id in returned then
                                       rows[id].(status := Known(Failed), completedAt := Some(now), updatedAt := now)
                                     else rows[id];
      moved := [];
      for i := 0 to |batch|
        invariant moved == Moved(before, batch[..i], cutoff)
      {
        assert batch[..i + 1][..i] == batch[..i];
        assert batch[i].requestId == IdsOf(batch)[i];
        if batch[i].requestId in returned {
          moved := moved + [batch[i]];
        }
      }
      assert batch[..|batch|] == batch;
    }

    /** `fail_stale` with nothing in between its two statements. */
    method FailStale(updatedBefore: int, limit: nat, now: int) returns (moved: seq<StaleRequest>)
      modifies this
      ensures IsBatch(old(rows), updatedBefore, limit, {}, moved)
      ensures rows == Reaped(old(rows), IdsOf(moved), updatedBefore, now)
    {
      var batch := SelectStale(updatedBefore, limit);
      if batch == [] {
        assert rows == Reaped(rows, IdsOf(batch), updatedBefore, now);
        return [];
      }
      AllMove(rows, batch, updatedBefore);
      moved := UpdateStale(batch, updatedBefore, now);
    }
  }

  /** Candidates that are all still stale all move. */
  lemma {:induction false} AllMove(rows: Table, batch: seq<StaleRequest>, cutoff: int)
    requires forall c :: c in batch ==> c.requestId in rows && Stale(rows[c.requestId], cutoff)
    ensures Moved(rows, batch, cutoff) == batch
  {
    if batch != [] {
      AllMove(rows, batch[..|batch| - 1], cutoff);
      assert batch == batch[..|batch| - 1] + [batch[|batch| - 1]];
    }
  }

  /** The result of the UPDATE is exactly the rows it moved, in batch order. */
  lemma {:induction false} MovedAreTheStale(rows: Table, batch: seq<StaleRequest>, cutoff: int, c: StaleRequest)
    ensures c in Moved(rows, batch, cutoff)
            <==> c in batch && c.requestId in rows && Stale(rows[c.requestId], cutoff)
  {
    if batch != [] {
      var last := batch[|batch| - 1];
      MovedAreTheStale(rows, batch[..|batch| - 1], cutoff, c);
      assert c in batch <==> c in batch[..|batch| - 1] || c == last;
    }
  }

  lemma {:induction false} MovedIsDistinct(rows: Table, batch: seq<StaleRequest>, cutoff: int)
    requires Distinct(IdsOf(batch))
    ensures Distinct(IdsOf(Moved(rows, batch, cutoff)))
  {
    if batch != [] {
      var front, last := batch[..|batch| - 1], batch[|batch| - 1];
      assert forall i :: 0 <= i < |front| ==> IdsOf(front)[i] == IdsOf(batch)[i];
      MovedIsDistinct(rows, front, cutoff);
      var moved := Moved(rows, front, cutoff);
      forall i | 0 <= i < |moved|
        ensures moved[i].requestId != last.requestId
      {
        MovedAreTheStale(rows, front, cutoff, moved[i]);
        var k :| 0 <= k < |front| && front[k] == moved[i];
        assert IdsOf(batch)[k] != IdsOf(batch)[|batch| - 1];
      }
      var all := Moved(rows, batch, cutoff);
      assert all == moved || all == moved + [last];
      assert forall i :: 0 <= i < |moved| ==> IdsOf(all)[i] == IdsOf(moved)[i] == moved[i].requestId;
    }
  }
}
