/** The reaper's use case and what its ticks add up to
    (src/application/use_cases/reap_stale_requests.py). */
module ReapStaleRequests {
  import opened Wrappers
  import opened DownloadSpecs
  import opened Requests

  /** What becomes of one notification: the message went out, the user is gone
      or has no Telegram id, or something raised (and was logged). */
  datatype NotifyOutcome = Reached | Unreachable | Raised

  class ReapStaleRequestsUseCase {
    const repository: DownloadRequestRepository
    const staleAfter: nat
    const batchSize: nat
    /** Everything handed to `_notify`, in order, and the messages that went out. */
    ghost var attempted: seq<StaleRequest>
    var sent: seq<StaleRequest>

    constructor (repository: DownloadRequestRepository, staleAfter: nat, batchSize: nat)
      ensures this.repository == repository && this.staleAfter == staleAfter && this.batchSize == batchSize
      ensures attempted == [] && sent == []
    {
      this.repository, this.staleAfter, this.batchSize := repository, staleAfter, batchSize;
      attempted, sent := [], [];
    }

    /** One attempt for each row, in order; a failing one does not stop the rest. */
    method NotifyAll(reaped: seq<StaleRequest>, outcomes: StaleRequest -> NotifyOutcome)
      modifies this
      ensures attempted == old(attempted) + reaped
      ensures sent == old(sent) + ReachedOf(reaped, outcomes)
    {
      for i := 0 to |reaped|
        invariant attempted == old(attempted) + reaped[..i]
        invariant sent == old(sent) + ReachedOf(reaped[..i], outcomes)
      {
        assert reaped[..i + 1] == reaped[..i] + [reaped[i]];
        attempted := attempted + [reaped[i]];
        if outcomes(reaped[i]) == Reached {
          sent := sent + [reaped[i]];
        }
      }
      assert reaped[..|reaped|] == reaped;
    }

    /** One tick: one committed batch, then one notification attempt for each row
        the commit moved, oldest first. */
    method Execute(clock: int, now: int, outcomes: StaleRequest -> NotifyOutcome) returns (reaped: seq<StaleRequest>)
      modifies this, repository
      ensures IsBatch(old(repository.rows), clock - staleAfter, batchSize, {}, reaped)
      ensures repository.rows == Reaped(old(repository.rows), IdsOf(reaped), clock - staleAfter, now)
      ensures attempted == old(attempted) + reaped
      ensures sent == old(sent) + ReachedOf(reaped, outcomes)
    {
      reaped := repository.FailStale(clock - staleAfter, batchSize, now);
      NotifyAll(reaped, outcomes);
    }
  }

  function ReachedOf(batch: seq<StaleRequest>, outcomes: StaleRequest -> NotifyOutcome): seq<StaleRequest> {
    if batch == [] then []
    else
      var last := batch[|batch| - 1];
      ReachedOf(batch[..|batch| - 1], outcomes) + if outcomes(last) == Reached then [last] else []
  }

  /** Exactly the reached rows of a batch, in its order. */
  lemma ReachedExactly(batch: seq<StaleRequest>, outcomes: StaleRequest -> NotifyOutcome, c: StaleRequest)
    ensures c in ReachedOf(batch, outcomes) <==> c in batch && outcomes(c) == Reached
    ensures multiset(ReachedOf(batch, outcomes))[c] == if outcomes(c) == Reached then multiset(batch)[c] else 0
  {
    if batch != [] {
      var front, last := batch[..|batch| - 1], batch[|batch| - 1];
      assert batch == front + [last];
      ReachedExactly(front, outcomes, c);
    }
  }

  lemma {:induction false} ReachedInOrder(
      a: seq<StaleRequest>, b: seq<StaleRequest>, outcomes: StaleRequest -> NotifyOutcome)
    ensures ReachedOf(a + b, outcomes) == ReachedOf(a, outcomes) + ReachedOf(b, outcomes)
  {
    if b == [] {
      assert a + b == a;
    } else {
      ReachedInOrder(a, b[..|b| - 1], outcomes);
      assert (a + b)[..|a + b| - 1] == a + b[..|b| - 1];
    }
  }

  // ----- draining a backlog -----

  datatype Tick = Tick(cutoff: int, stamp: int, batch: seq<StaleRequest>)

  function AfterTick(rows: Table, t: Tick): Table {
    Reaped(rows, IdsOf(t.batch), t.cutoff, t.stamp)
  }

  /** Between two ticks others may write, but no row goes stale, no stale row is
      touched, and finished rows keep their status. */
  ghost predicate Quiet(rows: Table, cutoff: int, rows': Table, cutoff': int) {
    && StaleIds(rows', cutoff') == StaleIds(rows, cutoff)
    && (forall id :: id in StaleIds(rows, cutoff) ==> rows'[id] == rows[id])
    && (forall id :: id in rows && rows[id].Terminal() ==> id in rows' && rows'[id].status == rows[id].status)
  }

  /** `tables[i]` is what tick i finds; nothing is locked. */
  ghost predicate IsDrain(tables: seq<Table>, ticks: seq<Tick>, limit: nat)
    decreases |ticks|
  {
    && |tables| == |ticks| >= 1
    && IsBatch(tables[0], ticks[0].cutoff, limit, {}, ticks[0].batch)
    && (|ticks| > 1 ==>
          && Quiet(AfterTick(tables[0], ticks[0]), ticks[0].cutoff, tables[1], ticks[1].cutoff)
          && IsDrain(tables[1..], ticks[1..], limit))
  }

  function Final(tables: seq<Table>, ticks: seq<Tick>): Table
    requires |tables| == |ticks| >= 1
  {
    if |ticks| == 1 then AfterTick(tables[0], ticks[0]) else Final(tables[1..], ticks[1..])
  }

  /** The results of all ticks, concatenated. */
  function AllReaped(ticks: seq<Tick>): seq<StaleRequest> {
    if ticks == [] then [] else ticks[0].batch + AllReaped(ticks[1..])
  }

  ghost predicate StillOrFailed(before: Row, after: Row, taken: bool) {
    if taken then after.status == Known(Failed) else after == before
  }

  /** What some ticks have done to the stale rows of a table. */
  ghost predicate Drained(rows: Table, cutoff: int, all: seq<StaleRequest>, rows': Table) {
    && Distinct(IdsOf(all)) && OldestFirst(rows, all)
    && (forall c :: c in all ==> c.requestId in StaleIds(rows, cutoff) && c == Describe(rows, c.requestId))
    && (forall c, id :: c in all && id in StaleIds(rows, cutoff) && id !in IdsOf(all) ==>
          rows[c.requestId].updatedAt <= rows[id].updatedAt)
    && (forall id :: id in StaleIds(rows, cutoff) ==>
          id in rows' && StillOrFailed(rows[id], rows'[id], id in IdsOf(all)))
    && (forall id :: id in rows && rows[id].Terminal() ==> id in rows' && rows'[id].status == rows[id].status)
  }

  function Min(a: nat, b: nat): nat {
    if a < b then a else b
  }

  function IdSet(batch: seq<StaleRequest>): set<Id> {
    set c | c in batch :: c.requestId
  }

  lemma IdSetIsIds(batch: seq<StaleRequest>)
    ensures forall id :: id in IdSet(batch) <==> id in IdsOf(batch)
  {
    forall id
      ensures id in IdSet(batch) <==> id in IdsOf(batch)
    {
      if id in IdSet(batch) {
        var c :| c in batch && c.requestId == id;
        var k :| 0 <= k < |batch| && batch[k] == c;
        assert IdsOf(batch)[k] == id;
      }
      if id in IdsOf(batch) {
        var k :| 0 <= k < |batch| && IdsOf(batch)[k] == id;
        assert batch[k] in batch;
      }
    }
  }

  lemma {:induction false} IdSetSize(batch: seq<StaleRequest>)
    requires Distinct(IdsOf(batch))
    ensures |IdSet(batch)| == |batch|
  {
    if batch != [] {
      var front, last := batch[..|batch| - 1], batch[|batch| - 1];
      assert IdsOf(batch) == IdsOf(front) + [last.requestId];
      assert forall i :: 0 <= i < |front| ==> IdsOf(batch)[i] == IdsOf(front)[i];
      IdSetSize(front);
      IdSetIsIds(front);
      forall i | 0 <= i < |front|
        ensures IdsOf(front)[i] != last.requestId
      {
        assert IdsOf(batch)[i] != IdsOf(batch)[|front|];
      }
      IdSetIsIds(batch);
      assert IdSet(batch) == IdSet(front) + {last.requestId};
    }
  }

  /** What one UPDATE over candidates that are all stale does to the table. */
  lemma TickEffect(rows: Table, t: Tick)
    requires forall c :: c in t.batch ==> c.requestId in StaleIds(rows, t.cutoff)
    ensures var after := AfterTick(rows, t);
            && after.Keys == rows.Keys
            && (forall id :: id in rows ==>
                  if id in IdSet(t.batch) then after[id].status == Known(Failed) else after[id] == rows[id])
            && StaleIds(after, t.cutoff) == StaleIds(rows, t.cutoff) - IdSet(t.batch)
  {
    IdSetIsIds(t.batch);
  }

  lemma BatchSizes(rows: Table, cutoff: int, limit: nat, batch: seq<StaleRequest>)
    requires IsBatch(rows, cutoff, limit, {}, batch)
    ensures IdSet(batch) <= StaleIds(rows, cutoff) && |IdSet(batch)| == |batch|
    ensures |batch| == Min(|StaleIds(rows, cutoff)|, limit)
    ensures |StaleIds(rows, cutoff) - IdSet(batch)| == |StaleIds(rows, cutoff)| - |batch|
  {
    assert StaleIds(rows, cutoff) - {} == StaleIds(rows, cutoff);
    IdSetSize(batch);
  }

  lemma BatchIsOldest(rows: Table, cutoff: int, limit: nat, batch: seq<StaleRequest>)
    requires IsBatch(rows, cutoff, limit, {}, batch)
    ensures Distinct(IdsOf(batch)) && OldestFirst(rows, batch)
    ensures forall c :: c in batch ==> c.requestId in StaleIds(rows, cutoff) && c == Describe(rows, c.requestId)
    ensures forall c, id :: c in batch && id in StaleIds(rows, cutoff) && id !in IdsOf(batch) ==>
              rows[c.requestId].updatedAt <= rows[id].updatedAt
  {
    assert StaleIds(rows, cutoff) - {} == StaleIds(rows, cutoff);
  }

  /** One tick fails its batch and leaves the other stale rows as they were. */
  lemma TickDrains(rows: Table, t: Tick, limit: nat)
    requires IsBatch(rows, t.cutoff, limit, {}, t.batch)
    ensures Drained(rows, t.cutoff, t.batch, AfterTick(rows, t))
  {
    BatchIsOldest(rows, t.cutoff, limit, t.batch);
    TickEffect(rows, t);
    IdSetIsIds(t.batch);
  }

  /** The stale rows a first stretch left over, as the next stretch finds them. */
  ghost predicate LeftOver(rows: Table, cutoff: int, taken: seq<StaleRequest>, rows': Table, cutoff': int) {
    && (forall id :: id in StaleIds(rows', cutoff') <==> id in StaleIds(rows, cutoff) && id !in IdsOf(taken))
    && (forall id :: id in StaleIds(rows', cutoff') ==> rows'[id] == rows[id])
    && (forall id :: id in IdsOf(taken) ==> id in rows' && rows'[id].status == Known(Failed))
    && (forall id :: id in rows && rows[id].Terminal() ==> id in rows' && rows'[id].status == rows[id].status)
  }

  lemma TickLeavesOver(rows: Table, t: Tick, rows': Table, cutoff': int)
    requires forall c :: c in t.batch ==> c.requestId in StaleIds(rows, t.cutoff)
    requires Quiet(AfterTick(rows, t), t.cutoff, rows', cutoff')
    ensures LeftOver(rows, t.cutoff, t.batch, rows', cutoff')
  {
    TickEffect(rows, t);
    IdSetIsIds(t.batch);
    forall id | id in IdsOf(t.batch)
      ensures id in rows' && rows'[id].status == Known(Failed)
    {
      var after := AfterTick(rows, t);
      var k :| 0 <= k < |t.batch| && IdsOf(t.batch)[k] == id;
      assert t.batch[k] in t.batch;
      assert id in after && after[id].Terminal();
    }
  }

  lemma IdsOfConcat(a: seq<StaleRequest>, b: seq<StaleRequest>)
    ensures IdsOf(a + b) == IdsOf(a) + IdsOf(b)
  {
  }

  /** The concatenated results: still distinct and oldest first. */
  lemma ResultsConcatenate(
      rows: Table, cutoff: int, a: seq<StaleRequest>, rows': Table, cutoff': int, b: seq<StaleRequest>)
    requires Distinct(IdsOf(a)) && OldestFirst(rows, a) && Distinct(IdsOf(b)) && OldestFirst(rows', b)
    requires LeftOver(rows, cutoff, a, rows', cutoff')
    requires forall c :: c in b ==> c.requestId in StaleIds(rows', cutoff')
    requires forall c, id :: c in a && id in StaleIds(rows, cutoff) && id !in IdsOf(a) ==>
               rows[c.requestId].updatedAt <= rows[id].updatedAt
    ensures Distinct(IdsOf(a + b)) && OldestFirst(rows, a + b)
  {
    IdsOfConcat(a, b);
    var all := a + b;
    assert forall i :: 0 <= i < |b| ==> b[i] in b && IdsOf(b)[i] == b[i].requestId;
    forall i, j | 0 <= i < j < |all|
      ensures IdsOf(all)[i] != IdsOf(all)[j]
    {
      if i < |a| && j >= |a| {
        assert IdsOf(all)[j] == b[j - |a|].requestId;
        assert IdsOf(all)[i] == IdsOf(a)[i];
        assert IdsOf(a)[i] in IdsOf(a);
      }
    }
    forall c | c in all
      ensures c.requestId in rows
    {
    }
    forall i, j | 0 <= i < j < |all|
      ensures rows[all[i].requestId].updatedAt <= rows[all[j].requestId].updatedAt
    {
      if i < |a| && j >= |a| {
        assert all[i] in a && all[j] == b[j - |a|];
      } else if i >= |a| {
        assert all[i] == b[i - |a|] && all[j] == b[j - |a|];
      }
    }
  }

  lemma DrainsCompose(rows: Table, cutoff: int, a: seq<StaleRequest>, mid: Table,
                      rows': Table, cutoff': int, b: seq<StaleRequest>, final: Table)
    requires Drained(rows, cutoff, a, mid) && LeftOver(rows, cutoff, a, rows', cutoff')
             && Drained(rows', cutoff', b, final)
    ensures Drained(rows, cutoff, a + b, final)
  {
    ResultsConcatenate(rows, cutoff, a, rows', cutoff', b);
    IdsOfConcat(a, b);
    forall c, id | c in a + b && id in StaleIds(rows, cutoff) && id !in IdsOf(a + b)
      ensures rows[c.requestId].updatedAt <= rows[id].updatedAt
    {
    }
    forall id | id in StaleIds(rows, cutoff)
      ensures id in final && StillOrFailed(rows[id], final[id], id in IdsOf(a + b))
    {
      if id in IdsOf(a) {
        assert rows'[id].Terminal();
      }
    }
  }

  lemma FirstTickThenRest(
      rows: Table, t: Tick, limit: nat, rows': Table, cutoff': int, rest: seq<StaleRequest>, final: Table)
    requires IsBatch(rows, t.cutoff, limit, {}, t.batch)
    requires Quiet(AfterTick(rows, t), t.cutoff, rows', cutoff') && Drained(rows', cutoff', rest, final)
    ensures Drained(rows, t.cutoff, t.batch + rest, final)
  {
    TickDrains(rows, t, limit);
    TickLeavesOver(rows, t, rows', cutoff');
    DrainsCompose(rows, t.cutoff, t.batch, AfterTick(rows, t), rows', cutoff', rest, final);
  }

  lemma FirstTickSize(rows: Table, t: Tick, limit: nat, rows': Table, cutoff': int)
    requires IsBatch(rows, t.cutoff, limit, {}, t.batch)
    requires Quiet(AfterTick(rows, t), t.cutoff, rows', cutoff')
    ensures |t.batch| == Min(|StaleIds(rows, t.cutoff)|, limit)
    ensures |StaleIds(rows', cutoff')| == |StaleIds(rows, t.cutoff)| - |t.batch|
  {
    BatchSizes(rows, t.cutoff, limit, t.batch);
    BatchIsOldest(rows, t.cutoff, limit, t.batch);
    TickEffect(rows, t);
  }

  lemma OneMoreBatch(k: nat, n: nat, limit: nat)
    ensures Min(k, limit) + Min(k - Min(k, limit), n * limit) == Min(k, (n + 1) * limit)
  {
    assert (n + 1) * limit == n * limit + limit;
    assert n * limit >= 0;
  }

  /** n ticks take n full batches, or everything. */
  lemma {:induction false} TicksTake(tables: seq<Table>, ticks: seq<Tick>, limit: nat)
    requires IsDrain(tables, ticks, limit)
    ensures |AllReaped(ticks)| == Min(|StaleIds(tables[0], ticks[0].cutoff)|, |ticks| * limit)
    decreases |ticks|
  {
    var k, n := |StaleIds(tables[0], ticks[0].cutoff)|, |ticks| - 1;
    OneMoreBatch(k, n, limit);
    if n == 0 {
      BatchSizes(tables[0], ticks[0].cutoff, limit, ticks[0].batch);
      assert AllReaped(ticks[1..]) == [];
    } else {
      FirstTickSize(tables[0], ticks[0], limit, tables[1], ticks[1].cutoff);
      TicksTake(tables[1..], ticks[1..], limit);
    }
  }

  /** Any number of ticks over a backlog: the concatenated results are stale rows
      sorted by `updated_at` without repeats, each taken row is FAILED at the
      end, and the others wait untouched behind every taken one. */
  lemma {:induction false} TicksDrain(tables: seq<Table>, ticks: seq<Tick>, limit: nat)
    requires IsDrain(tables, ticks, limit)
    ensures Drained(tables[0], ticks[0].cutoff, AllReaped(ticks), Final(tables, ticks))
    decreases |ticks|
  {
    if |ticks| == 1 {
      TickDrains(tables[0], ticks[0], limit);
      assert AllReaped(ticks[1..]) == [];
      assert AllReaped(ticks) == ticks[0].batch;
    } else {
      TicksDrain(tables[1..], ticks[1..], limit);
      FirstTickThenRest(tables[0], ticks[0], limit, tables[1], ticks[1].cutoff,
                        AllReaped(ticks[1..]), Final(tables, ticks));
    }
  }

  function CeilDiv(a: nat, b: nat): nat
    requires b > 0
  {
    (a + b - 1) / b
  }

  /** If no new row goes stale, ceil(k / limit) ticks fail all k stale rows; the
      results concatenated are exactly those rows. */
  lemma BacklogIsDrained(tables: seq<Table>, ticks: seq<Tick>, limit: nat)
    requires limit >= 1 && IsDrain(tables, ticks, limit)
    requires |ticks| == CeilDiv(|StaleIds(tables[0], ticks[0].cutoff)|, limit)
    ensures IdSet(AllReaped(ticks)) == StaleIds(tables[0], ticks[0].cutoff)
    ensures Distinct(IdsOf(AllReaped(ticks))) && OldestFirst(tables[0], AllReaped(ticks))
    ensures forall id :: id in StaleIds(tables[0], ticks[0].cutoff) ==>
              id in Final(tables, ticks) && Final(tables, ticks)[id].status == Known(Failed)
  {
    var stale, all := StaleIds(tables[0], ticks[0].cutoff), AllReaped(ticks);
    TicksDrain(tables, ticks, limit);
    TicksTake(tables, ticks, limit);
    CeilCovers(|stale|, limit);
    IdSetSize(all);
    IdSetIsIds(all);
    SameSizeSubset(IdSet(all), stale);
  }

  /** The least number of batches of b that hold a. */
  lemma CeilCovers(a: nat, b: nat)
    requires b > 0
    ensures CeilDiv(a, b) * b >= a
    ensures a > 0 ==> (CeilDiv(a, b) - 1) * b < a
    ensures a == 0 ==> CeilDiv(a, b) == 0
  {
    var q, r := (a + b - 1) / b, (a + b - 1) % b;
    assert a + b - 1 == q * b + r;
    assert (q - 1) * b == q * b - b;
  }

  lemma {:induction false} SameSizeSubset(part: set<Id>, whole: set<Id>)
    requires part <= whole && |part| == |whole|
    ensures part == whole
  {
    if part != {} {
      var id :| id in part;
      SameSizeSubset(part - {id}, whole - {id});
    }
  }
}
