/** What every step keeps of the stamps, whatever the configuration: the facts
    that make the unconditional writes safe once the grace covers the skew. */
module LifecycleTiming {
  import opened Wrappers
  import opened DownloadSpecs
  import opened Requests
  import opened Lifecycle
  import opened LifecycleInvariants

  /** A live job is within its bound; while the stale time protects it, one that
      holds a claim has a PROCESSING row stamped no earlier than its start. */
  ghost predicate ClaimWf(cfg: Config, now: int, rows: Table, job: Job) {
    && job.start <= now <= job.start + cfg.jobTimeout + cfg.cancelTail
    && (job.pc.HoldsClaim() && cfg.Protects(now, job.start) ==>
          && job.request in rows && rows[job.request].status == Known(Processing)
          && rows[job.request].updatedAt >= job.start - cfg.behind)
  }

  ghost predicate ClaimsWf(cfg: Config, s: State) {
    forall j :: j in s.arq.live ==> ClaimWf(cfg, s.now, s.rows, s.arq.live[j])
  }

  /** A handler between commit and enqueue is within its window; while its row is
      pending it carries the commit's stamp, and a prompt handler's row is. A
      row the reaper failed in the meantime was stale first. */
  ghost predicate WindowWf(cfg: Config, now: int, rows: Table, id: Id, at: int) {
    && at <= now <= at + cfg.enqueueWindow
    && (id in rows && rows[id].status == Known(Pending) ==> rows[id].updatedAt >= at - cfg.behind)
    && (cfg.EnqueueIsPrompt() ==> id in rows && rows[id].status == Known(Pending))
    && (id in rows && rows[id].status == Known(Failed) ==>
          && rows[id].completedAt == Some(rows[id].updatedAt)
          && rows[id].updatedAt > at + cfg.StaleAfter() - cfg.ahead - 2 * cfg.behind)
  }

  ghost predicate WindowsWf(cfg: Config, s: State) {
    forall h, id :: Owns(s.bot, h, id) ==> WindowWf(cfg, s.now, s.rows, id, s.bot.handlers[h].at)
  }

  /** A selected row is as it was selected, or stamped past the cutoff. */
  ghost predicate CandidateWf(rows: Table, c: StaleRequest, cutoff: int) {
    && c.requestId in rows && rows[c.requestId].userId == c.userId
    && (rows[c.requestId].updatedAt >= cutoff || rows[c.requestId].status == Known(c.previousStatus))
  }

  ghost predicate CutoffsWf(cfg: Config, s: State) {
    forall r :: r in s.reaping.reapers && s.reaping.reapers[r].Selected? ==>
      s.reaping.reapers[r].cutoff <= s.now + cfg.ahead - cfg.StaleAfter()
  }

  ghost predicate CandidatesWf(s: State) {
    forall r :: r in s.reaping.reapers && s.reaping.reapers[r].Selected? ==>
      forall c :: c in s.reaping.reapers[r].batch ==> CandidateWf(s.rows, c, s.reaping.reapers[r].cutoff)
  }

  ghost predicate StampsWf(cfg: Config, s: State) {
    forall id :: id in s.rows ==> s.rows[id].updatedAt <= s.now + cfg.ahead
  }

  ghost predicate Timed(cfg: Config, s: State) {
    ClaimsWf(cfg, s) && WindowsWf(cfg, s) && CutoffsWf(cfg, s) && StampsWf(cfg, s)
  }

  // ----- rows written by one step -----

  /** Every row a step writes gets a fresh stamp. */
  ghost predicate FreshlyStamped(cfg: Config, now: int, rows: Table, rows': Table) {
    && (forall id :: id in rows ==> id in rows' && rows'[id].userId == rows[id].userId
                                    && (rows'[id] == rows[id] || cfg.Reads(now, rows'[id].updatedAt)))
    && (forall id :: id in rows' && id !in rows ==> cfg.Reads(now, rows'[id].updatedAt))
  }

  lemma StepsStampFreshly(cfg: Config, s: State, step: Step)
    requires Enabled(cfg, s, step)
    ensures FreshlyStamped(cfg, s.now, s.rows, Apply(cfg, s, step).rows)
  {
    match step
    case BotDoes(b) => BotStampsFreshly(cfg, s, b);
    case WorkerDoes(w) => WorkerStampsFreshly(cfg, s, w);
    case _ =>
  }

  lemma BotStampsFreshly(cfg: Config, s: State, b: BotStep)
    requires BotEnabled(cfg, s, b)
    ensures FreshlyStamped(cfg, s.now, s.rows, BotApply(cfg, s, b).rows)
  {
  }

  lemma WorkerStampsFreshly(cfg: Config, s: State, w: WorkerStep)
    requires WorkerEnabled(cfg, s, w)
    ensures FreshlyStamped(cfg, s.now, s.rows, WorkerApply(cfg, s, w).rows)
  {
  }

  /** Nothing selected since. */
  ghost predicate NoNewSelection(s: State, s': State) {
    forall r :: r in s'.reaping.reapers && s'.reaping.reapers[r].Selected? ==>
      r in s.reaping.reapers && s'.reaping.reapers[r] == s.reaping.reapers[r]
  }

  lemma SelectionsSurviveWrites(cfg: Config, s: State, s': State)
    requires cfg.StaleTimeCoversSkew() && CutoffsWf(cfg, s) && CandidatesWf(s)
    requires s'.now == s.now && FreshlyStamped(cfg, s.now, s.rows, s'.rows) && NoNewSelection(s, s')
    ensures CandidatesWf(s')
  {
  }

  lemma StampsSurviveWrites(cfg: Config, s: State, s': State)
    requires StampsWf(cfg, s) && s'.now == s.now && FreshlyStamped(cfg, s.now, s.rows, s'.rows)
    ensures StampsWf(cfg, s')
  {
  }

  // ----- bot steps -----

  lemma BotKeepsTimed(cfg: Config, s: State, b: BotStep)
    requires Base(s) && Timed(cfg, s) && BotEnabled(cfg, s, b)
    ensures Timed(cfg, BotApply(cfg, s, b))
  {
    var s' := BotApply(cfg, s, b);
    StepsStampFreshly(cfg, s, BotDoes(b));
    StampsSurviveWrites(cfg, s, s');
    BotKeepsClaims(cfg, s, b);
    BotKeepsWindows(cfg, s, b);
  }

  lemma BotKeepsClaims(cfg: Config, s: State, b: BotStep)
    requires Base(s) && ClaimsWf(cfg, s) && BotEnabled(cfg, s, b)
    ensures ClaimsWf(cfg, BotApply(cfg, s, b))
  {
    var s' := BotApply(cfg, s, b);
    forall j | j in s'.arq.live
      ensures ClaimWf(cfg, s'.now, s'.rows, s'.arq.live[j])
    {
      assert s'.arq.live == s.arq.live && LiveWf(s.arq, j) && ClaimWf(cfg, s.now, s.rows, s.arq.live[j]);
      if b.MarkEnqueueFailed? {
        assert Owns(s.bot, b.h, s.bot.handlers[b.h].id);
      }
    }
  }

  lemma BotKeepsWindows(cfg: Config, s: State, b: BotStep)
    requires Base(s) && WindowsWf(cfg, s) && BotEnabled(cfg, s, b)
    ensures WindowsWf(cfg, BotApply(cfg, s, b))
  {
    var s' := BotApply(cfg, s, b);
    forall h, id | Owns(s'.bot, h, id)
      ensures WindowWf(cfg, s'.now, s'.rows, id, s'.bot.handlers[h].at)
    {
      if b.CommitRow? && h == b.h {
      } else {
        assert Owns(s.bot, h, id) && WindowWf(cfg, s.now, s.rows, id, s.bot.handlers[h].at);
        if b.MarkEnqueueFailed? {
          assert Owns(s.bot, b.h, s.bot.handlers[b.h].id);
        }
      }
    }
  }

  // ----- worker steps -----

  lemma WorkerKeepsTimed(cfg: Config, s: State, w: WorkerStep)
    requires Base(s) && Timed(cfg, s) && WorkerEnabled(cfg, s, w)
    ensures Timed(cfg, WorkerApply(cfg, s, w))
  {
    var s' := WorkerApply(cfg, s, w);
    StepsStampFreshly(cfg, s, WorkerDoes(w));
    StampsSurviveWrites(cfg, s, s');
    WorkerKeepsClaims(cfg, s, w);
    WorkerKeepsWindows(cfg, s, w);
  }

  lemma WorkerKeepsClaims(cfg: Config, s: State, w: WorkerStep)
    requires Base(s) && ClaimsWf(cfg, s) && WorkerEnabled(cfg, s, w)
    ensures ClaimsWf(cfg, WorkerApply(cfg, s, w))
  {
    var s' := WorkerApply(cfg, s, w);
    forall j | j in s'.arq.live
      ensures ClaimWf(cfg, s'.now, s'.rows, s'.arq.live[j])
    {
      if j in s.arq.live {
        assert LiveWf(s.arq, j) && ClaimWf(cfg, s.now, s.rows, s.arq.live[j]);
        if j != w.j && s.arq.live[j].request in s.rows {
          WorkerWritesItsRow(cfg, s, w, s.arq.live[j].request);
        }
      }
    }
  }

  lemma WorkerKeepsWindows(cfg: Config, s: State, w: WorkerStep)
    requires Base(s) && WindowsWf(cfg, s) && WorkerEnabled(cfg, s, w)
    ensures WindowsWf(cfg, WorkerApply(cfg, s, w))
  {
    var s' := WorkerApply(cfg, s, w);
    forall h, id | Owns(s'.bot, h, id)
      ensures WindowWf(cfg, s'.now, s'.rows, id, s'.bot.handlers[h].at)
    {
      assert Owns(s.bot, h, id) && Unqueued(s.rows, s.arq, id);
      WorkerWritesItsRow(cfg, s, w, id);
    }
  }

  // ----- reaper steps -----

  /** The row of a protected claim is never stale for a reaper in flight. */
  lemma ClaimedRowIsNotStale(cfg: Config, s: State, r: ReaperId, j: JobId)
    requires Timed(cfg, s)
    requires r in s.reaping.reapers && s.reaping.reapers[r].Selected?
    requires j in s.arq.live && s.arq.live[j].pc.HoldsClaim() && cfg.Protects(s.now, s.arq.live[j].start)
    ensures s.arq.live[j].request in s.rows && !Stale(s.rows[s.arq.live[j].request], s.reaping.reapers[r].cutoff)
  {
    assert ClaimWf(cfg, s.now, s.rows, s.arq.live[j]);
  }

  /** Neither is the row of a prompt handler. */
  lemma PromptRowIsNotStale(cfg: Config, s: State, r: ReaperId, h: HandlerId, id: Id)
    requires cfg.EnqueueIsPrompt() && Timed(cfg, s)
    requires r in s.reaping.reapers && s.reaping.reapers[r].Selected? && Owns(s.bot, h, id)
    ensures id in s.rows && !Stale(s.rows[id], s.reaping.reapers[r].cutoff)
  {
    assert WindowWf(cfg, s.now, s.rows, id, s.bot.handlers[h].at);
  }

  lemma ReaperKeepsTimed(cfg: Config, s: State, t: ReaperStep)
    requires Base(s) && Timed(cfg, s) && ReaperEnabled(cfg, s, t)
    ensures Timed(cfg, ReaperApply(cfg, s, t))
  {
    var s' := ReaperApply(cfg, s, t);
    StepsStampFreshly(cfg, s, ReaperDoes(t));
    StampsSurviveWrites(cfg, s, s');
    ReaperKeepsClaims(cfg, s, t);
    ReaperKeepsWindows(cfg, s, t);
  }

  lemma SelectionIsDescribed(cfg: Config, s: State, t: ReaperStep)
    requires t.SelectRows? && CandidatesWf(s) && ReaperEnabled(cfg, s, t)
    ensures CandidatesWf(ReaperApply(cfg, s, t))
  {
    var s' := ReaperApply(cfg, s, t);
    forall c | c in t.batch
      ensures CandidateWf(s'.rows, c, t.clock - cfg.StaleAfter())
    {
      assert c == Describe(s.rows, c.requestId);
    }
  }

  lemma ReaperKeepsClaims(cfg: Config, s: State, t: ReaperStep)
    requires Timed(cfg, s) && ReaperEnabled(cfg, s, t)
    ensures ClaimsWf(cfg, ReaperApply(cfg, s, t))
  {
    var s' := ReaperApply(cfg, s, t);
    forall j | j in s'.arq.live
      ensures ClaimWf(cfg, s'.now, s'.rows, s'.arq.live[j])
    {
      assert ClaimWf(cfg, s.now, s.rows, s.arq.live[j]);
      if t.UpdateRows? && s.arq.live[j].pc.HoldsClaim() && cfg.Protects(s.now, s.arq.live[j].start) {
        ClaimedRowIsNotStale(cfg, s, t.r, j);
      }
    }
  }

  lemma ReaperKeepsWindows(cfg: Config, s: State, t: ReaperStep)
    requires Base(s) && Timed(cfg, s) && ReaperEnabled(cfg, s, t)
    ensures WindowsWf(cfg, ReaperApply(cfg, s, t))
  {
    var s' := ReaperApply(cfg, s, t);
    forall h, id | Owns(s'.bot, h, id)
      ensures WindowWf(cfg, s'.now, s'.rows, id, s'.bot.handlers[h].at)
    {
      assert Owns(s.bot, h, id)
        && WindowWf(cfg, s.now, s.rows, id, s.bot.handlers[h].at) && Unqueued(s.rows, s.arq, id);
      if t.UpdateRows? && cfg.EnqueueIsPrompt() {
        PromptRowIsNotStale(cfg, s, t.r, h, id);
      }
    }
  }

  lemma AdvanceKeepsTimed(cfg: Config, s: State, d: nat)
    requires Base(s) && Timed(cfg, s) && MayAdvance(cfg, s, d)
    ensures Timed(cfg, s.(now := s.now + d))
  {
    var s' := s.(now := s.now + d);
    forall j | j in s'.arq.live
      ensures ClaimWf(cfg, s'.now, s'.rows, s'.arq.live[j])
    {
      assert ClaimWf(cfg, s.now, s.rows, s.arq.live[j]);
    }
    forall h, id | Owns(s'.bot, h, id)
      ensures WindowWf(cfg, s'.now, s'.rows, id, s'.bot.handlers[h].at)
    {
      assert WindowWf(cfg, s.now, s.rows, id, s.bot.handlers[h].at);
    }
  }

  // ----- all steps, all runs -----

  lemma StepKeepsTimed(cfg: Config, s: State, step: Step)
    requires Base(s) && Timed(cfg, s) && Enabled(cfg, s, step)
    ensures Timed(cfg, Apply(cfg, s, step))
  {
    match step
    case BotDoes(b) => BotKeepsTimed(cfg, s, b);
    case WorkerDoes(w) => WorkerKeepsTimed(cfg, s, w);
    case ReaperDoes(t) => ReaperKeepsTimed(cfg, s, t);
    case Advance(d) => AdvanceKeepsTimed(cfg, s, d);
  }

  lemma {:induction false} LeadsKeepsTimed(cfg: Config, s: State, steps: seq<Step>, s': State)
    requires Base(s) && Timed(cfg, s) && Leads(cfg, s, steps, s')
    ensures Base(s') && Timed(cfg, s')
    decreases |steps|
  {
    if steps != [] {
      StepKeepsBase(cfg, s, steps[0]);
      StepKeepsTimed(cfg, s, steps[0]);
      LeadsKeepsTimed(cfg, Apply(cfg, s, steps[0]), steps[1..], s');
    }
  }

  lemma ReachableIsBase(cfg: Config, s: State)
    requires Reachable(cfg, s)
    ensures Base(s)
  {
    var init, steps :| Initial(cfg, init) && Leads(cfg, init, steps, s);
    InitialIsBase(cfg, init);
    LeadsKeepsBase(cfg, init, steps, s);
  }

  lemma ReachableIsTimed(cfg: Config, s: State)
    requires Reachable(cfg, s)
    ensures Base(s) && Timed(cfg, s)
  {
    var init, steps :| Initial(cfg, init) && Leads(cfg, init, steps, s);
    InitialIsBase(cfg, init);
    LeadsKeepsTimed(cfg, init, steps, s);
  }

  // ----- candidates -----

  lemma StepKeepsCandidates(cfg: Config, s: State, step: Step)
    requires cfg.StaleTimeCoversSkew() && CutoffsWf(cfg, s) && CandidatesWf(s) && Enabled(cfg, s, step)
    ensures CandidatesWf(Apply(cfg, s, step))
  {
    if step.ReaperDoes? && step.t.SelectRows? {
      SelectionIsDescribed(cfg, s, step.t);
    } else if !step.Advance? {
      StepsStampFreshly(cfg, s, step);
      SelectionsSurviveWrites(cfg, s, Apply(cfg, s, step));
    }
  }

  lemma {:induction false} LeadsKeepsCandidates(cfg: Config, s: State, steps: seq<Step>, s': State)
    requires cfg.StaleTimeCoversSkew() && Base(s) && Timed(cfg, s) && CandidatesWf(s) && Leads(cfg, s, steps, s')
    ensures CandidatesWf(s')
    decreases |steps|
  {
    if steps != [] {
      StepKeepsBase(cfg, s, steps[0]);
      StepKeepsTimed(cfg, s, steps[0]);
      StepKeepsCandidates(cfg, s, steps[0]);
      LeadsKeepsCandidates(cfg, Apply(cfg, s, steps[0]), steps[1..], s');
    }
  }

  lemma ReachableHasCandidates(cfg: Config, s: State)
    requires cfg.StaleTimeCoversSkew() && Reachable(cfg, s)
    ensures CandidatesWf(s)
  {
    var init, steps :| Initial(cfg, init) && Leads(cfg, init, steps, s);
    InitialIsBase(cfg, init);
    LeadsKeepsCandidates(cfg, init, steps, s);
  }
}
