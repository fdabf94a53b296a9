/** What every step of the lifecycle keeps, whatever the clocks do. */
module LifecycleInvariants {
  import opened Wrappers
  import opened DownloadSpecs
  import opened Requests
  import opened Lifecycle

  // ----- the queue -----

  ghost predicate JobFor(arq: Arq, j: JobId, id: Id) {
    j in arq.jobs && arq.jobs[j] == id
  }

  ghost predicate HasNoJob(arq: Arq, id: Id) {
    forall j :: !JobFor(arq, j, id)
  }

  ghost predicate LiveWf(arq: Arq, j: JobId)
    requires j in arq.live
  {
    && JobFor(arq, j, arq.live[j].request) && j !in arq.queue
    && (arq.live[j].pc.JobSettled? ==> arq.live[j].pc.status == Done || arq.live[j].pc.status == Failed)
  }

  /** A request has at most one job, queued or live, and its row is committed. */
  ghost predicate JobsWf(rows: Table, arq: Arq) {
    && (forall j, k, id :: JobFor(arq, j, id) && JobFor(arq, k, id) ==> j == k)
    && arq.queue <= arq.jobs.Keys
    && (forall j :: j in arq.live ==> LiveWf(arq, j))
    && (forall j, id :: JobFor(arq, j, id) ==> id in rows)
  }

  /** A job on its recovery path has an unreadable row. */
  ghost predicate RecoveriesWf(rows: Table, arq: Arq) {
    forall j :: j in arq.live && arq.live[j].pc.JobRecovering? && arq.live[j].request in rows ==>
                  !rows[arq.live[j].request].Readable()
  }

  /** A job that is about to save DONE has sent its file. */
  ghost predicate DeliveriesWf(arq: Arq) {
    forall j :: j in arq.live && SendsFirst(arq.live[j].pc) ==> arq.live[j].request in arq.sent
  }

  predicate SendsFirst(pc: JobPc) {
    pc.JobSent? || (pc.JobSettled? && pc.status == Done)
  }

  // ----- rows whose handler is not done with them -----

  ghost predicate Owns(bot: Bot, h: HandlerId, id: Id) {
    h in bot.handlers && !bot.handlers[h].Holding? && bot.handlers[h].id == id
  }

  /** Nobody but the reaper can have touched such a row. */
  ghost predicate Unqueued(rows: Table, arq: Arq, id: Id) {
    && id in rows && rows[id].SpecReadable()
    && (rows[id].status == Known(Pending) || rows[id].status == Known(Failed))
    && HasNoJob(arq, id)
  }

  ghost predicate HandlersWf(rows: Table, bot: Bot, arq: Arq) {
    && (forall h, id :: Owns(bot, h, id) ==> Unqueued(rows, arq, id))
    && (forall h, k, id :: Owns(bot, h, id) && Owns(bot, k, id) ==> h == k)
  }

  ghost predicate Rejected(rows: Table, bot: Bot, arq: Arq, id: Id) {
    && id in rows && rows[id].SpecReadable() && rows[id].status == Known(Failed)
    && HasNoJob(arq, id)
    && forall h :: !Owns(bot, h, id)
  }

  /** A row whose enqueue failed stays failed, without a job. */
  ghost predicate RejectedWf(rows: Table, bot: Bot, arq: Arq) {
    forall id :: id in bot.rejected ==> Rejected(rows, bot, arq, id)
  }

  // ----- tokens -----

  ghost predicate Holds(bot: Bot, h: HandlerId, t: Token) {
    h in bot.handlers && bot.handlers[h] == Holding(Some(t))
  }

  ghost predicate Began(bot: Bot, id: Id, t: Token) {
    id in bot.origin && bot.origin[id] == Some(t)
  }

  /** A saved token is in exactly one place: the store, one handler, the origin
      of one row, or nowhere any more. */
  ghost predicate TokensWf(rows: Table, bot: Bot) {
    && bot.store <= bot.issued
    && (forall h, t :: Holds(bot, h, t) ==> t in bot.issued && t !in bot.store)
    && (forall h, k, t :: Holds(bot, h, t) && Holds(bot, k, t) ==> h == k)
    && (forall id, t :: Began(bot, id, t) ==> t in bot.issued && t !in bot.store && id in rows)
    && (forall id, other, t :: Began(bot, id, t) && Began(bot, other, t) ==> id == other)
    && (forall h, id, t :: Holds(bot, h, t) ==> !Began(bot, id, t))
    && (forall id :: id in bot.origin ==> id in rows)
  }

  // ----- what the reaper reports -----

  ghost predicate Reports(g: Reaping, k: nat, i: nat, id: Id) {
    k < |g.results| && i < |g.results[k]| && g.results[k][i].requestId == id
  }

  /** Each request is in at most one `fail_stale` result, once, and its row is
      over. */
  ghost predicate ResultsWf(rows: Table, g: Reaping) {
    && (forall k: nat, i: nat, id :: Reports(g, k, i, id) ==> id in rows && rows[id].Terminal())
    && (forall k: nat, i: nat, m: nat, n: nat, id :: Reports(g, k, i, id) && Reports(g, m, n, id) ==> k == m && i == n)
  }

  ghost predicate Notifies(g: Reaping, r: ReaperId, k: nat) {
    r in g.reapers && g.reapers[r].Notifying? && g.reapers[r].result == k
  }

  /** Each report is sent at most once. */
  ghost predicate NoticesWf(g: Reaping) {
    && (forall r, k: nat :: Notifies(g, r, k) ==> k < |g.results|)
    && (forall r, q, k: nat :: Notifies(g, r, k) && Notifies(g, q, k) ==> r == q)
    && (forall r, n :: n in g.notices && Notifies(g, r, n.result) ==> n.index < g.reapers[r].next)
    && (forall n :: n in g.notices ==> n.result < |g.results| && n.index < |g.results[n.result]|)
    && (forall i, j :: 0 <= i < j < |g.notices| ==> g.notices[i] != g.notices[j])
  }

  ghost predicate BatchesWf(g: Reaping) {
    forall r :: r in g.reapers && g.reapers[r].Selected? ==> Distinct(IdsOf(g.reapers[r].batch))
  }

  ghost predicate Base(s: State) {
    && JobsWf(s.rows, s.arq)
    && RecoveriesWf(s.rows, s.arq)
    && DeliveriesWf(s.arq)
    && HandlersWf(s.rows, s.bot, s.arq)
    && RejectedWf(s.rows, s.bot, s.arq)
    && TokensWf(s.rows, s.bot)
    && ResultsWf(s.rows, s.reaping)
    && NoticesWf(s.reaping)
    && BatchesWf(s.reaping)
  }

  // ----- bot steps -----

  lemma BotKeepsJobs(cfg: Config, s: State, b: BotStep)
    requires Base(s) && BotEnabled(cfg, s, b)
    ensures JobsWf(BotApply(cfg, s, b).rows, BotApply(cfg, s, b).arq)
    ensures RecoveriesWf(BotApply(cfg, s, b).rows, BotApply(cfg, s, b).arq)
  {
    var s' := BotApply(cfg, s, b);
    if b.EnqueueOk? {
      assert Owns(s.bot, b.h, s.bot.handlers[b.h].id);
      assert forall j, id ::
          JobFor(s'.arq, j, id) <==> JobFor(s.arq, j, id) || (j == b.job && id == s.bot.handlers[b.h].id);
      assert forall j :: j in s'.arq.live ==> LiveWf(s.arq, j);
    } else {
      assert s'.arq == s.arq;
      if b.MarkEnqueueFailed? {
        assert Owns(s.bot, b.h, s.bot.handlers[b.h].id);
        forall j | j in s.arq.live
          ensures s.arq.live[j].request != s.bot.handlers[b.h].id
        {
          assert LiveWf(s.arq, j);
        }
      }
    }
  }

  lemma BotKeepsHandlers(cfg: Config, s: State, b: BotStep)
    requires Base(s) && BotEnabled(cfg, s, b)
    ensures HandlersWf(BotApply(cfg, s, b).rows, BotApply(cfg, s, b).bot, BotApply(cfg, s, b).arq)
  {
    var s' := BotApply(cfg, s, b);
    match b
    case CommitRow(h, e, stamp) =>
      PartsInvertColumns(SpecKind(e.spec).Value(), TierColumn(e.spec), e.spec);
      assert forall k, id :: Owns(s'.bot, k, id) ==> (k == h && id == e.id) || Owns(s.bot, k, id);
      assert HasNoJob(s.arq, e.id);
    case EnqueueOk(h, j) =>
      assert forall k, id :: Owns(s'.bot, k, id) ==> k != h && Owns(s.bot, k, id);
      assert Owns(s.bot, h, s.bot.handlers[h].id);
      assert forall k, id :: JobFor(s'.arq, k, id) ==> JobFor(s.arq, k, id) || id == s.bot.handlers[h].id;
    case EnqueueRaises(h) =>
      assert forall k, id :: Owns(s'.bot, k, id) <==> Owns(s.bot, k, id);
    case MarkEnqueueFailed(h, stamp) =>
      assert forall k, id :: Owns(s'.bot, k, id) ==> k != h && Owns(s.bot, k, id);
      assert Owns(s.bot, h, s.bot.handlers[h].id);
    case _ =>
      assert forall k, id :: Owns(s'.bot, k, id) ==> Owns(s.bot, k, id);
  }

  lemma BotKeepsRejected(cfg: Config, s: State, b: BotStep)
    requires Base(s) && BotEnabled(cfg, s, b)
    ensures RejectedWf(BotApply(cfg, s, b).rows, BotApply(cfg, s, b).bot, BotApply(cfg, s, b).arq)
  {
    var s' := BotApply(cfg, s, b);
    forall id | id in s'.bot.rejected
      ensures Rejected(s'.rows, s'.bot, s'.arq, id)
    {
      match b
      case CommitRow(h, e, stamp) =>
        assert Rejected(s.rows, s.bot, s.arq, id);
        assert forall k :: Owns(s'.bot, k, id) ==> Owns(s.bot, k, id);
      case EnqueueOk(h, j) =>
        assert Rejected(s.rows, s.bot, s.arq, id);
        assert Owns(s.bot, h, s.bot.handlers[h].id);
        assert forall k :: Owns(s'.bot, k, id) ==> Owns(s.bot, k, id);
        assert forall k :: JobFor(s'.arq, k, id) ==> JobFor(s.arq, k, id);
      case MarkEnqueueFailed(h, stamp) =>
        assert Owns(s.bot, h, s.bot.handlers[h].id);
        assert forall k, i :: Owns(s'.bot, k, i) ==> k != h && Owns(s.bot, k, i);
        if id != s.bot.handlers[h].id {
          assert Rejected(s.rows, s.bot, s.arq, id);
        }
      case EnqueueRaises(h) =>
        assert Rejected(s.rows, s.bot, s.arq, id);
        assert Owns(s.bot, h, s.bot.handlers[h].id);
        assert forall k :: Owns(s'.bot, k, id) ==> Owns(s.bot, k, id);
      case _ =>
        assert Rejected(s.rows, s.bot, s.arq, id);
        assert forall k :: Owns(s'.bot, k, id) ==> Owns(s.bot, k, id);
    }
  }

  lemma BotKeepsTokens(cfg: Config, s: State, b: BotStep)
    requires Base(s) && BotEnabled(cfg, s, b)
    ensures TokensWf(BotApply(cfg, s, b).rows, BotApply(cfg, s, b).bot)
  {
    var s' := BotApply(cfg, s, b);
    match b
    case CommitRow(h, e, stamp) =>
      assert forall k, t :: Holds(s'.bot, k, t) ==> k != h && Holds(s.bot, k, t);
      assert forall id, t ::
          Began(s'.bot, id, t) <==> (id == e.id && Holds(s.bot, h, t)) || (id != e.id && Began(s.bot, id, t));
    case ConfirmTap(h, t) =>
      assert forall k, u :: Holds(s'.bot, k, u) ==> (k == h && u == t && t in s.bot.store) || Holds(s.bot, k, u);
      assert forall id, u :: Began(s'.bot, id, u) <==> Began(s.bot, id, u);
    case _ =>
      assert forall k, u :: Holds(s'.bot, k, u) ==> Holds(s.bot, k, u);
      assert forall id, u :: Began(s'.bot, id, u) <==> Began(s.bot, id, u);
  }

  lemma BotKeepsResults(cfg: Config, s: State, b: BotStep)
    requires Base(s) && BotEnabled(cfg, s, b)
    ensures ResultsWf(BotApply(cfg, s, b).rows, BotApply(cfg, s, b).reaping)
  {
    var s' := BotApply(cfg, s, b);
    assert s'.reaping == s.reaping;
    assert forall id :: id in s.rows && s.rows[id].Terminal() ==> id in s'.rows && s'.rows[id].Terminal();
  }

  // ----- worker steps -----

  lemma WorkerKeepsJobs(cfg: Config, s: State, w: WorkerStep)
    requires Base(s) && WorkerEnabled(cfg, s, w)
    ensures JobsWf(WorkerApply(cfg, s, w).rows, WorkerApply(cfg, s, w).arq)
  {
    var s' := WorkerApply(cfg, s, w);
    assert s'.arq.jobs == s.arq.jobs;
    assert forall j, id :: JobFor(s'.arq, j, id) <==> JobFor(s.arq, j, id);
    forall j | j in s'.arq.live
      ensures LiveWf(s'.arq, j)
    {
      if j in s.arq.live {
        assert LiveWf(s.arq, j);
      } else {
        assert JobFor(s.arq, j, s.arq.jobs[j]);
      }
    }
  }

  /** Two live jobs never work on the same request. */
  lemma OneJobPerRequest(rows: Table, arq: Arq, j: JobId, k: JobId)
    requires JobsWf(rows, arq) && j in arq.live && k in arq.live && arq.live[j].request == arq.live[k].request
    ensures j == k
  {
    assert LiveWf(arq, j) && LiveWf(arq, k);
  }

  lemma WorkerKeepsRecoveries(cfg: Config, s: State, w: WorkerStep)
    requires Base(s) && WorkerEnabled(cfg, s, w)
    ensures RecoveriesWf(WorkerApply(cfg, s, w).rows, WorkerApply(cfg, s, w).arq)
  {
    var s' := WorkerApply(cfg, s, w);
    forall j | j in s'.arq.live && s'.arq.live[j].pc.JobRecovering? && s'.arq.live[j].request in s'.rows
      ensures !s'.rows[s'.arq.live[j].request].Readable()
    {
      if s'.rows != s.rows && w.j in s.arq.live && j in s.arq.live && s.arq.live[w.j].request == s.arq.live[j].request {
        OneJobPerRequest(s.rows, s.arq, w.j, j);
      }
    }
  }

  /** The only rows a worker writes are those of its own live job. */
  lemma WorkerWritesItsRow(cfg: Config, s: State, w: WorkerStep, id: Id)
    requires JobsWf(s.rows, s.arq) && WorkerEnabled(cfg, s, w) && id in s.rows
    ensures id in WorkerApply(cfg, s, w).rows
    ensures WorkerApply(cfg, s, w).rows[id] == s.rows[id] || (w.j in s.arq.live && JobFor(s.arq, w.j, id))
  {
    if w.j in s.arq.live {
      assert LiveWf(s.arq, w.j);
    }
  }

  lemma WorkerKeepsBotSide(cfg: Config, s: State, w: WorkerStep)
    requires Base(s) && WorkerEnabled(cfg, s, w)
    ensures var s' := WorkerApply(cfg, s, w);
            HandlersWf(s'.rows, s'.bot, s'.arq) && RejectedWf(s'.rows, s'.bot, s'.arq) && TokensWf(s'.rows, s'.bot)
  {
    var s' := WorkerApply(cfg, s, w);
    assert s'.bot == s.bot;
    assert forall j, id :: JobFor(s'.arq, j, id) <==> JobFor(s.arq, j, id);
    forall id | id in s.rows
      ensures id in s'.rows && (HasNoJob(s.arq, id) ==> s'.rows[id] == s.rows[id])
    {
      WorkerWritesItsRow(cfg, s, w, id);
    }
    forall h, id | Owns(s'.bot, h, id)
      ensures Unqueued(s'.rows, s'.arq, id)
    {
      assert Owns(s.bot, h, id);
    }
    forall id | id in s'.bot.rejected
      ensures Rejected(s'.rows, s'.bot, s'.arq, id)
    {
      assert Rejected(s.rows, s.bot, s.arq, id);
    }
  }

  lemma WorkerKeepsResults(cfg: Config, s: State, w: WorkerStep)
    requires Base(s) && WorkerEnabled(cfg, s, w)
    ensures ResultsWf(WorkerApply(cfg, s, w).rows, WorkerApply(cfg, s, w).reaping)
  {
    var s' := WorkerApply(cfg, s, w);
    assert s'.reaping == s.reaping;
    if w.SaveOutcome? {
      assert LiveWf(s.arq, w.j);
    }
    assert forall id :: id in s.rows && s.rows[id].Terminal() ==> id in s'.rows && s'.rows[id].Terminal();
  }

  // ----- reaper steps -----

  lemma ReaperKeepsOtherSides(cfg: Config, s: State, t: ReaperStep)
    requires Base(s) && ReaperEnabled(cfg, s, t)
    ensures var s' := ReaperApply(cfg, s, t);
            && JobsWf(s'.rows, s'.arq) && RecoveriesWf(s'.rows, s'.arq) && HandlersWf(s'.rows, s'.bot, s'.arq)
            && RejectedWf(s'.rows, s'.bot, s'.arq) && TokensWf(s'.rows, s'.bot)
  {
    var s' := ReaperApply(cfg, s, t);
    assert s'.arq == s.arq && s'.bot == s.bot && s'.rows.Keys == s.rows.Keys;
    assert forall id :: id in s.rows ==> s'.rows[id] == s.rows[id]
                                         || (s.rows[id].Active() && s'.rows[id].status == Known(Failed)
                                             && s'.rows[id].SpecReadable() == s.rows[id].SpecReadable());
    forall id | id in s'.bot.rejected
      ensures Rejected(s'.rows, s'.bot, s'.arq, id)
    {
      assert Rejected(s.rows, s.bot, s.arq, id);
    }
  }

  /** What one UPDATE adds to the results: rows that were active and now are not. */
  lemma UpdateReports(rows: Table, batch: seq<StaleRequest>, cutoff: int, stamp: int)
    requires Distinct(IdsOf(batch))
    ensures var moved := Moved(rows, batch, cutoff);
            && Distinct(IdsOf(moved))
            && forall i :: 0 <= i < |moved| ==>
                 var id := moved[i].requestId;
                 id in rows && rows[id].Active() && Reaped(rows, IdsOf(batch), cutoff, stamp)[id].Terminal()
  {
    var moved := Moved(rows, batch, cutoff);
    MovedIsDistinct(rows, batch, cutoff);
    forall i | 0 <= i < |moved|
      ensures var id := moved[i].requestId;
              id in rows && rows[id].Active() && Reaped(rows, IdsOf(batch), cutoff, stamp)[id].Terminal()
    {
      MovedAreTheStale(rows, batch, cutoff, moved[i]);
      var k :| 0 <= k < |batch| && batch[k] == moved[i];
      assert IdsOf(batch)[k] == moved[i].requestId;
    }
  }

  lemma ReaperKeepsResults(cfg: Config, s: State, t: ReaperStep)
    requires Base(s) && ReaperEnabled(cfg, s, t)
    ensures ResultsWf(ReaperApply(cfg, s, t).rows, ReaperApply(cfg, s, t).reaping)
  {
    var s' := ReaperApply(cfg, s, t);
    if t.UpdateRows? {
      var pc := s.reaping.reapers[t.r];
      UpdateReports(s.rows, pc.batch, pc.cutoff, t.stamp);
      var moved := Moved(s.rows, pc.batch, pc.cutoff);
      var k0 := |s.reaping.results|;
      assert forall k: nat, i: nat, id :: Reports(s'.reaping, k, i, id) ==>
                                  Reports(s.reaping, k, i, id) || (k == k0 && i < |moved| && moved[i].requestId == id);
      assert forall i :: 0 <= i < |moved| ==> IdsOf(moved)[i] == moved[i].requestId;
    } else {
      assert s'.rows == s.rows && s'.reaping.results == s.reaping.results;
      assert forall k: nat, i: nat, id :: Reports(s'.reaping, k, i, id) ==> Reports(s.reaping, k, i, id);
    }
  }

  lemma ReaperKeepsNotices(cfg: Config, s: State, t: ReaperStep)
    requires Base(s) && ReaperEnabled(cfg, s, t)
    ensures NoticesWf(ReaperApply(cfg, s, t).reaping) && BatchesWf(ReaperApply(cfg, s, t).reaping)
  {
    var g, g' := s.reaping, ReaperApply(cfg, s, t).reaping;
    match t
    case SelectRows(r, clock, locked, batch) =>
      assert forall q, k: nat :: Notifies(g', q, k) ==> Notifies(g, q, k);
    case UpdateRows(r, stamp) =>
      UpdateKeepsNotices(cfg, s, r, stamp);
    case Notify(r, reached) =>
      NotifyKeepsNotices(cfg, s, r, reached);
    case DropReaper(r) =>
      assert forall q, k: nat :: Notifies(g', q, k) ==> Notifies(g, q, k);
  }

  lemma UpdateKeepsNotices(cfg: Config, s: State, r: ReaperId, stamp: int)
    requires Base(s) && ReaperEnabled(cfg, s, UpdateRows(r, stamp))
    ensures var g' := ReaperApply(cfg, s, UpdateRows(r, stamp)).reaping; NoticesWf(g') && BatchesWf(g')
  {
    var g, g' := s.reaping, ReaperApply(cfg, s, UpdateRows(r, stamp)).reaping;
    assert forall q, k: nat :: Notifies(g', q, k) ==> Notifies(g, q, k) || (q == r && k == |g.results|);
  }

  lemma NotifyKeepsNotices(cfg: Config, s: State, r: ReaperId, reached: bool)
    requires Base(s) && ReaperEnabled(cfg, s, Notify(r, reached))
    ensures var g' := ReaperApply(cfg, s, Notify(r, reached)).reaping; NoticesWf(g') && BatchesWf(g')
  {
    var g, g' := s.reaping, ReaperApply(cfg, s, Notify(r, reached)).reaping;
    assert forall q, k: nat :: Notifies(g', q, k) <==> Notifies(g, q, k);
    var pc := g.reapers[r];
    assert Notifies(g, r, pc.result);
    assert forall n :: n in g'.notices ==> n in g.notices || n == Notice(pc.result, pc.next);
    assert forall i :: 0 <= i < |g.notices| ==> g.notices[i] in g.notices;
  }

  // ----- all steps, all runs -----

  lemma StepKeepsDeliveries(cfg: Config, s: State, step: Step)
    requires DeliveriesWf(s.arq) && Enabled(cfg, s, step)
    ensures DeliveriesWf(Apply(cfg, s, step).arq)
  {
  }

  lemma BotKeepsBase(cfg: Config, s: State, b: BotStep)
    requires Base(s) && BotEnabled(cfg, s, b)
    ensures Base(BotApply(cfg, s, b))
  {
    BotKeepsJobs(cfg, s, b);
    BotKeepsHandlers(cfg, s, b);
    BotKeepsRejected(cfg, s, b);
    BotKeepsTokens(cfg, s, b);
    BotKeepsResults(cfg, s, b);
    StepKeepsDeliveries(cfg, s, BotDoes(b));
  }

  lemma WorkerKeepsBase(cfg: Config, s: State, w: WorkerStep)
    requires Base(s) && WorkerEnabled(cfg, s, w)
    ensures Base(WorkerApply(cfg, s, w))
  {
    WorkerKeepsJobs(cfg, s, w);
    WorkerKeepsRecoveries(cfg, s, w);
    WorkerKeepsBotSide(cfg, s, w);
    WorkerKeepsResults(cfg, s, w);
    StepKeepsDeliveries(cfg, s, WorkerDoes(w));
  }

  lemma ReaperKeepsBase(cfg: Config, s: State, t: ReaperStep)
    requires Base(s) && ReaperEnabled(cfg, s, t)
    ensures Base(ReaperApply(cfg, s, t))
  {
    ReaperKeepsOtherSides(cfg, s, t);
    ReaperKeepsResults(cfg, s, t);
    ReaperKeepsNotices(cfg, s, t);
    StepKeepsDeliveries(cfg, s, ReaperDoes(t));
  }

  lemma StepKeepsBase(cfg: Config, s: State, step: Step)
    requires Base(s) && Enabled(cfg, s, step)
    ensures Base(Apply(cfg, s, step))
  {
    match step
    case BotDoes(b) => BotKeepsBase(cfg, s, b);
    case WorkerDoes(w) => WorkerKeepsBase(cfg, s, w);
    case ReaperDoes(t) => ReaperKeepsBase(cfg, s, t);
    case Advance(_) =>
  }

  lemma InitialIsBase(cfg: Config, s: State)
    requires Initial(cfg, s)
    ensures Base(s)
  {
  }

  lemma {:induction false} LeadsKeepsBase(cfg: Config, s: State, steps: seq<Step>, s': State)
    requires Base(s) && Leads(cfg, s, steps, s')
    ensures Base(s')
    decreases |steps|
  {
    if steps != [] {
      StepKeepsBase(cfg, s, steps[0]);
      LeadsKeepsBase(cfg, Apply(cfg, s, steps[0]), steps[1..], s');
    }
  }
}
