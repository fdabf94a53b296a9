/** What holds of a request over every run, and exactly when. */
module LifecycleSafety {
  import opened Wrappers
  import opened DownloadSpecs
  import opened Requests
  import opened Lifecycle
  import opened LifecycleInvariants
  import opened LifecycleTiming

  // ----- the reaper and live jobs -----

  /** Job j holds a claim on a row that reaper r's next UPDATE would fail. */
  ghost predicate ReapsLiveJob(s: State, r: ReaperId, j: JobId) {
    && r in s.reaping.reapers && s.reaping.reapers[r].Selected?
    && j in s.arq.live && s.arq.live[j].pc.HoldsClaim()
    && s.arq.live[j].request in IdsOf(s.reaping.reapers[r].batch)
    && s.arq.live[j].request in s.rows && Stale(s.rows[s.arq.live[j].request], s.reaping.reapers[r].cutoff)
  }

  /** In every interleaving, the reaper never fails a request whose claiming job
      is still running, if the grace covers the skew, nor one whose job is still
      being cancelled, if it covers the tail as well. */
  lemma ReaperSparesLiveJobs(cfg: Config, s: State, r: ReaperId, stamp: int, j: JobId)
    requires Reachable(cfg, s) && ReaperEnabled(cfg, s, UpdateRows(r, stamp))
    requires j in s.arq.live && s.arq.live[j].pc.HoldsClaim()
    requires cfg.GraceCoversTail() || (cfg.GraceCoversSkew() && Running(cfg, s, j))
    ensures var s', id := ReaperApply(cfg, s, UpdateRows(r, stamp)), s.arq.live[j].request;
            && !ReapsLiveJob(s, r, j)
            && id in s.rows && s'.rows[id] == s.rows[id]
            && forall c :: c in s'.reaping.results[|s.reaping.results|] ==> c.requestId != id
  {
    ReachableIsTimed(cfg, s);
    assert ClaimWf(cfg, s.now, s.rows, s.arq.live[j]);
    ClaimedRowIsNotStale(cfg, s, r, j);
    var pc := s.reaping.reapers[r];
    forall c | c in Moved(s.rows, pc.batch, pc.cutoff)
      ensures c.requestId != s.arq.live[j].request
    {
      MovedAreTheStale(s.rows, pc.batch, pc.cutoff, c);
    }
  }

  // ----- finished requests -----

  ghost predicate Finished(rows: Table, id: Id) {
    id in rows && rows[id].Terminal() && rows[id].SpecReadable()
  }

  function StartCount(downloads: seq<Id>, id: Id): nat {
    if downloads == [] then 0
    else StartCount(downloads[..|downloads| - 1], id) + if downloads[|downloads| - 1] == id then 1 else 0
  }

  lemma FinishedStep(cfg: Config, s: State, step: Step, id: Id)
    requires cfg.GraceCoversSkew() && Base(s) && Timed(cfg, s) && Enabled(cfg, s, step) && Finished(s.rows, id)
    ensures var s' := Apply(cfg, s, step);
            && Finished(s'.rows, id) && s'.rows[id].status == s.rows[id].status
            && StartCount(s'.arq.downloads, id) == StartCount(s.arq.downloads, id)
            && (!cfg.LateMarkShows() ==> s'.rows[id] == s.rows[id])
  {
    match step
    case BotDoes(b) =>
      if b.MarkEnqueueFailed? {
        var own := s.bot.handlers[b.h].id;
        assert Owns(s.bot, b.h, own) && Unqueued(s.rows, s.arq, own);
        assert WindowWf(cfg, s.now, s.rows, own, s.bot.handlers[b.h].at);
      }
    case WorkerDoes(w) =>
      FinishedWorkerStep(cfg, s, w, id);
    case ReaperDoes(_) =>
    case Advance(_) =>
  }

  lemma FinishedWorkerStep(cfg: Config, s: State, w: WorkerStep, id: Id)
    requires cfg.GraceCoversSkew() && Base(s) && ClaimsWf(cfg, s) && WorkerEnabled(cfg, s, w) && Finished(s.rows, id)
    ensures var s' := WorkerApply(cfg, s, w);
            && id in s'.rows && s'.rows[id] == s.rows[id]
            && StartCount(s'.arq.downloads, id) == StartCount(s.arq.downloads, id)
  {
    var s' := WorkerApply(cfg, s, w);
    if w.j in s.arq.live {
      assert LiveWf(s.arq, w.j) && ClaimWf(cfg, s.now, s.rows, s.arq.live[w.j]);
    }
    if w.StartDownload? {
      assert s'.arq.downloads[..|s.arq.downloads|] == s.arq.downloads;
    }
  }

  /** Over every run: a request with readable status and spec that has reached
      DONE or FAILED keeps that status and never starts another download, though
      `update` and `mark_failed_by_id` write unconditionally. Its whole row is
      frozen unless a handler's late mark can show. */
  lemma {:induction false} FinishedRequestsStayFinished(cfg: Config, s: State, steps: seq<Step>, s': State, id: Id)
    requires cfg.GraceCoversSkew() && Base(s) && Timed(cfg, s) && Leads(cfg, s, steps, s') && Finished(s.rows, id)
    ensures Finished(s'.rows, id) && s'.rows[id].status == s.rows[id].status
    ensures StartCount(s'.arq.downloads, id) == StartCount(s.arq.downloads, id)
    ensures !cfg.LateMarkShows() ==> s'.rows[id] == s.rows[id]
    decreases |steps|
  {
    if steps != [] {
      FinishedStep(cfg, s, steps[0], id);
      StepKeepsBase(cfg, s, steps[0]);
      StepKeepsTimed(cfg, s, steps[0]);
      FinishedRequestsStayFinished(cfg, Apply(cfg, s, steps[0]), steps[1..], s', id);
    }
  }

  /** The same between any two moments of any run from a deployment at rest. */
  lemma TerminalStatusIsAbsorbing(cfg: Config, s: State, steps: seq<Step>, s': State, id: Id)
    requires cfg.GraceCoversSkew() && Reachable(cfg, s) && Leads(cfg, s, steps, s') && Finished(s.rows, id)
    ensures Finished(s'.rows, id) && s'.rows[id].status == s.rows[id].status
    ensures StartCount(s'.arq.downloads, id) == StartCount(s.arq.downloads, id)
    ensures !cfg.LateMarkShows() ==> s'.rows[id] == s.rows[id]
  {
    ReachableIsTimed(cfg, s);
    FinishedRequestsStayFinished(cfg, s, steps, s', id);
  }

  // ----- delivery -----

  predicate IsDone(rows: Table, id: Id) {
    id in rows && rows[id].status == Known(Done)
  }

  lemma DoneStep(cfg: Config, s: State, step: Step, id: Id)
    requires Base(s) && Enabled(cfg, s, step)
    ensures s.arq.sent <= Apply(cfg, s, step).arq.sent
    ensures IsDone(Apply(cfg, s, step).rows, id) ==> IsDone(s.rows, id) || id in s.arq.sent
  {
  }

  /** Over every run, crashes and retries included: a request that became DONE had
      its file sent by some job. */
  lemma {:induction false} DoneMeansSent(cfg: Config, s: State, steps: seq<Step>, s': State, id: Id)
    requires Base(s) && Leads(cfg, s, steps, s')
    ensures s.arq.sent <= s'.arq.sent
    ensures IsDone(s'.rows, id) ==> IsDone(s.rows, id) || id in s'.arq.sent
    decreases |steps|
  {
    if steps != [] {
      DoneStep(cfg, s, steps[0], id);
      StepKeepsBase(cfg, s, steps[0]);
      DoneMeansSent(cfg, Apply(cfg, s, steps[0]), steps[1..], s', id);
    }
  }

  // ----- results and notices -----

  /** With any number of reapers between SELECT and UPDATE and no row locks: a
      request is in at most one `fail_stale` result, and is noticed at most
      once. No assumption on clocks is needed. */
  lemma AtMostOneStaleNotice(cfg: Config, s: State, a: nat, b: nat)
    requires Reachable(cfg, s)
    requires a < b < |s.reaping.notices|
    ensures forall k: nat, i: nat, m: nat, n: nat, id ::
              Reports(s.reaping, k, i, id) && Reports(s.reaping, m, n, id) ==> k == m && i == n
    ensures var x, y := s.reaping.notices[a], s.reaping.notices[b];
            && x.result < |s.reaping.results| && x.index < |s.reaping.results[x.result]|
            && y.result < |s.reaping.results| && y.index < |s.reaping.results[y.result]|
            && s.reaping.results[x.result][x.index].requestId != s.reaping.results[y.result][y.index].requestId
  {
    ReachableIsBase(cfg, s);
    var g := s.reaping;
    var x, y := g.notices[a], g.notices[b];
    assert x in g.notices && y in g.notices && x != y;
    assert Reports(g, x.result, x.index, g.results[x.result][x.index].requestId);
    assert Reports(g, y.result, y.index, g.results[y.result][y.index].requestId);
  }

  lemma IdsOfMember(batch: seq<StaleRequest>, c: StaleRequest)
    requires c in batch
    ensures c.requestId in IdsOf(batch)
  {
    var k :| 0 <= k < |batch| && batch[k] == c;
    assert IdsOf(batch)[k] == c.requestId;
  }

  /** The result of an UPDATE is exactly the rows that UPDATE changed, and says
      of each the user and the status it had at that moment: every write since
      the SELECT would have stamped the row past the cutoff. */
  lemma ResultIsWhatMoved(cfg: Config, s: State, r: ReaperId, stamp: int)
    requires cfg.StaleTimeCoversSkew() && Reachable(cfg, s) && ReaperEnabled(cfg, s, UpdateRows(r, stamp))
    ensures var s' := ReaperApply(cfg, s, UpdateRows(r, stamp));
            var result := s'.reaping.results[|s.reaping.results|];
            && (forall c :: c in result ==>
                  && c.requestId in s.rows && s.rows[c.requestId].Active() && c == Describe(s.rows, c.requestId)
                  && s'.rows[c.requestId]
                     == s.rows[c.requestId].(status := Known(Failed), completedAt := Some(stamp), updatedAt := stamp))
            && (forall id :: id in s.rows && id !in IdsOf(result) ==> s'.rows[id] == s.rows[id])
  {
    ReachableHasCandidates(cfg, s);
    var pc := s.reaping.reapers[r];
    var s' := ReaperApply(cfg, s, UpdateRows(r, stamp));
    var result := Moved(s.rows, pc.batch, pc.cutoff);
    forall c | c in result
      ensures c.requestId in s.rows && s.rows[c.requestId].Active() && c == Describe(s.rows, c.requestId)
      ensures s'.rows[c.requestId]
              == s.rows[c.requestId].(status := Known(Failed), completedAt := Some(stamp), updatedAt := stamp)
    {
      MovedAreTheStale(s.rows, pc.batch, pc.cutoff, c);
      assert CandidateWf(s.rows, c, pc.cutoff);
      var i :| 0 <= i < |pc.batch| && pc.batch[i] == c;
      assert IdsOf(pc.batch)[i] == c.requestId;
    }
    forall id | id in s.rows && id !in IdsOf(result)
      ensures s'.rows[id] == s.rows[id]
    {
      if id in IdsOf(pc.batch) && Stale(s.rows[id], pc.cutoff) {
        var i :| 0 <= i < |pc.batch| && IdsOf(pc.batch)[i] == id;
        MovedAreTheStale(s.rows, pc.batch, pc.cutoff, pc.batch[i]);
        assert pc.batch[i] in result;
        IdsOfMember(result, pc.batch[i]);
      }
    }
  }

  // ----- tokens, rows and jobs -----

  /** In any interleaving of picker, back, cancel and confirm taps: a saved token
      begins at most one request, a request gets at most one job, every job ever
      queued belongs to a committed row, and a request whose enqueue failed is
      FAILED and has no job. */
  lemma TokensYieldOneRequest(cfg: Config, s: State)
    requires Reachable(cfg, s)
    ensures forall id, other, t :: Began(s.bot, id, t) && Began(s.bot, other, t) ==> id == other
    ensures forall j, k, id :: JobFor(s.arq, j, id) && JobFor(s.arq, k, id) ==> j == k
    ensures forall j, id :: JobFor(s.arq, j, id) ==> id in s.rows
    ensures forall id :: id in s.bot.rejected ==> Rejected(s.rows, s.bot, s.arq, id)
    ensures forall id, t :: Began(s.bot, id, t) ==> t !in s.bot.store
  {
    ReachableIsBase(cfg, s);
  }

  /** Only a confirm tap consumes a live token for a request: afterwards it is
      out of the store for good, so every later confirm of it is a no-op. */
  lemma TokenIsClaimedOnce(cfg: Config, s: State, h: HandlerId, k: HandlerId, t: Token, steps: seq<Step>, s': State)
    requires Reachable(cfg, s) && t in s.bot.store && BotEnabled(cfg, s, ConfirmTap(h, t))
    requires Leads(cfg, BotApply(cfg, s, ConfirmTap(h, t)), steps, s') && BotEnabled(cfg, s', ConfirmTap(k, t))
    ensures BotApply(cfg, s', ConfirmTap(k, t)) == s'
  {
    ReachableIsBase(cfg, s);
    StepKeepsBase(cfg, s, BotDoes(ConfirmTap(h, t)));
    SpentStaysSpent(cfg, BotApply(cfg, s, ConfirmTap(h, t)), steps, s', t);
  }

  lemma {:induction false} SpentStaysSpent(cfg: Config, s: State, steps: seq<Step>, s': State, t: Token)
    requires t in s.bot.issued && t !in s.bot.store && Leads(cfg, s, steps, s')
    ensures t !in s'.bot.store
    decreases |steps|
  {
    if steps != [] {
      SpentStaysSpent(cfg, Apply(cfg, s, steps[0]), steps[1..], s', t);
    }
  }

  // ----- nothing is left behind -----

  /** No crash leaves a request active for good: an active row nobody wrote for
      the stale time (plus the clocks' spread) is stale for every reaper that
      looks from then on. By then no running job holds a claim on it, and no
      cancelled one either if the grace covers the tail. */
  lemma SilentRowsBecomeStale(cfg: Config, s: State, steps: seq<Step>, s': State, id: Id, clock: int)
    requires Reachable(cfg, s) && Leads(cfg, s, steps, s')
    requires id in s.rows && s.rows[id].Active() && id in s'.rows && s'.rows[id] == s.rows[id]
    requires s'.now > s.now + cfg.StaleAfter() + cfg.behind + cfg.ahead && cfg.Reads(s'.now, clock)
    ensures Stale(s'.rows[id], clock - cfg.StaleAfter())
    ensures forall j :: j in s'.arq.live && s'.arq.live[j].request == id
                        && (cfg.GraceCoversTail() || (cfg.GraceCoversSkew() && Running(cfg, s', j)))
                        ==> !s'.arq.live[j].pc.HoldsClaim()
  {
    ReachableIsTimed(cfg, s);
    LeadsKeepsTimed(cfg, s, steps, s');
    forall j | j in s'.arq.live && s'.arq.live[j].request == id
               && (cfg.GraceCoversTail() || (cfg.GraceCoversSkew() && Running(cfg, s', j)))
      ensures !s'.arq.live[j].pc.HoldsClaim()
    {
      assert ClaimWf(cfg, s'.now, s'.rows, s'.arq.live[j]);
    }
  }
}
