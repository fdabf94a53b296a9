/** The timing conditions are exact: when one fails, a run breaks what it
    protects. */
module LifecycleBounds {
  import opened Wrappers
  import opened DownloadSpecs
  import opened Requests
  import opened Lifecycle
  import opened LifecycleInvariants
  import opened LifecycleTiming
  import opened LifecycleSafety

  lemma LeadsOneMore(cfg: Config, init: State, steps: seq<Step>, s: State, step: Step)
    requires Leads(cfg, init, steps, s) && Enabled(cfg, s, step)
    ensures Leads(cfg, init, steps + [step], Apply(cfg, s, step))
  {
    LeadsOne(cfg, s, step);
    LeadsOn(cfg, init, steps, s, [step], Apply(cfg, s, step));
  }

  lemma Reach(cfg: Config, s: State, step: Step, s': State)
    requires Reachable(cfg, s) && Enabled(cfg, s, step) && Apply(cfg, s, step) == s'
    ensures Reachable(cfg, s')
  {
    var init, steps :| Initial(cfg, init) && Leads(cfg, init, steps, s);
    LeadsOneMore(cfg, init, steps, s, step);
  }

  lemma InitialIsReachable(cfg: Config, s: State)
    requires Initial(cfg, s)
    ensures Reachable(cfg, s)
  {
    assert Leads(cfg, s, [], s);
  }

  const NO_BOT := Bot({}, {}, map[], map[], {})
  const NO_REAPING := Reaping(map[], [], [])
  const NO_ARQ := Arq(map[], {}, map[], [], {})

  /** The one job of request 0, started at time 0. */
  function OneJob(pc: JobPc): Arq {
    Arq(map[0 := 0], {}, map[0 := Job(0, 0, pc)], [], {})
  }

  function AudioRow(status: Status, completedAt: Option<int>, stamp: int): (row: Row)
    ensures row.Readable()
  {
    PartsInvertColumns("audio", None, AudioSpec(MP3));
    Row(0, "", Known(status), "audio", None, completedAt, stamp)
  }

  /** One request, claimed by its job at time 0 on the slowest clock. */
  function ClaimedState(cfg: Config, now: int): State {
    State(now, map[0 := AudioRow(Processing, None, 0 - cfg.behind as int)], NO_BOT,
          OneJob(JobClaimed), NO_REAPING)
  }

  lemma StartedIsReachable(cfg: Config)
    ensures Reachable(cfg, State(0, map[0 := AudioRow(Pending, None, 0 - cfg.behind as int)], NO_BOT,
                                 OneJob(JobStarted), NO_REAPING))
  {
    var s := State(0, map[0 := AudioRow(Pending, None, 0 - cfg.behind as int)], NO_BOT,
        Arq(map[0 := 0], {0}, map[], [], {}), NO_REAPING);
    InitialIsReachable(cfg, s);
    Reach(cfg, s, WorkerDoes(StartJob(0)), s.(arq := OneJob(JobStarted)));
  }

  lemma ClaimedIsReachable(cfg: Config)
    ensures Reachable(cfg, ClaimedState(cfg, 0))
  {
    StartedIsReachable(cfg);
    var s1 := State(0, map[0 := AudioRow(Pending, None, 0 - cfg.behind as int)], NO_BOT,
                    OneJob(JobStarted), NO_REAPING);
    var s2 := s1.(arq := OneJob(JobLoaded));
    Reach(cfg, s1, WorkerDoes(LoadRequest(0)), s2);
    Reach(cfg, s2, WorkerDoes(ClaimRow(0, 0 - cfg.behind as int)), ClaimedState(cfg, 0));
  }

  /** A batch of one: the only row there is. */
  lemma SoleRowIsBatch(cfg: Config, row: Row, cutoff: int)
    requires Stale(row, cutoff) && cfg.batchSize >= 1
    ensures IsBatch(map[0 := row], cutoff, cfg.batchSize, {}, [StaleRequest(0, row.userId, row.status.status)])
  {
    var rows: Table := map[0 := row];
    assert StaleIds(rows, cutoff) - {} == {0};
  }

  function SelectSole(row: Row, clock: int): ReaperStep
    requires row.status.Known?
  {
    SelectRows(0, clock, {}, [StaleRequest(0, row.userId, row.status.status)])
  }

  function SoleSelection(cfg: Config, row: Row, clock: int): ReaperPc
    requires row.status.Known?
  {
    Selected(clock - cfg.StaleAfter(), [StaleRequest(0, row.userId, row.status.status)])
  }

  lemma SelectSoleIsEnabled(cfg: Config, s: State, row: Row, clock: int)
    requires s.rows == map[0 := row] && s.reaping == NO_REAPING
    requires cfg.Reads(s.now, clock) && Stale(row, clock - cfg.StaleAfter()) && cfg.batchSize >= 1
    ensures ReaperEnabled(cfg, s, SelectSole(row, clock))
  {
    SoleRowIsBatch(cfg, row, clock - cfg.StaleAfter());
  }

  lemma ReachSelection(cfg: Config, s: State, row: Row, clock: int)
    requires Reachable(cfg, s) && s.reaping == NO_REAPING && row.status.Known?
    requires ReaperEnabled(cfg, s, SelectSole(row, clock))
    ensures Reachable(cfg, s.(reaping := Reaping(
                        map[0 := SoleSelection(cfg, row, clock)], [], [])))
  {
    var step := ReaperDoes(SelectSole(row, clock));
    SelectSoleApplies(cfg, s, row, clock);
    Reach(cfg, s, step, Apply(cfg, s, step));
  }

  lemma SelectSoleApplies(cfg: Config, s: State, row: Row, clock: int)
    requires s.reaping == NO_REAPING && row.status.Known? && ReaperEnabled(cfg, s, SelectSole(row, clock))
    ensures Apply(cfg, s, ReaperDoes(SelectSole(row, clock)))
            == s.(reaping := Reaping(
                    map[0 := SoleSelection(cfg, row, clock)], [], []))
  {
  }

  lemma ReachSoleSelection(cfg: Config, s: State, row: Row, clock: int)
    requires Reachable(cfg, s) && s.rows == map[0 := row] && s.reaping == NO_REAPING
    requires cfg.Reads(s.now, clock) && Stale(row, clock - cfg.StaleAfter()) && cfg.batchSize >= 1
    ensures Reachable(cfg, s.(reaping := Reaping(
                        map[0 := SoleSelection(cfg, row, clock)], [], [])))
  {
    SelectSoleIsEnabled(cfg, s, row, clock);
    ReachSelection(cfg, s, row, clock);
  }

  /** The job still holds its claim, `end` after its start, when the fastest
      clock's reaper selects its row. */
  function SelectedState(cfg: Config, end: nat): State {
    ClaimedState(cfg, end).(reaping := Reaping(
      map[0 := Selected(end + cfg.ahead - cfg.StaleAfter(), [StaleRequest(0, 0, Processing)])], [], []))
  }

  /** A claim this old is stale for the fastest clock if the slowest stamped it. */
  predicate Outlived(cfg: Config, end: nat) {
    end <= cfg.jobTimeout + cfg.cancelTail && end + cfg.behind + cfg.ahead > cfg.StaleAfter() && cfg.batchSize >= 1
  }

  lemma ClaimSurvives(cfg: Config, end: nat)
    requires end <= cfg.jobTimeout + cfg.cancelTail
    ensures Reachable(cfg, ClaimedState(cfg, end))
  {
    ClaimedIsReachable(cfg);
    Reach(cfg, ClaimedState(cfg, 0), Advance(end), ClaimedState(cfg, end));
  }

  lemma SelectedIsReachable(cfg: Config, end: nat)
    requires Outlived(cfg, end)
    ensures Reachable(cfg, SelectedState(cfg, end)) && ReapsLiveJob(SelectedState(cfg, end), 0, 0)
  {
    var s := ClaimedState(cfg, end);
    ClaimSurvives(cfg, end);
    ReachSoleSelection(cfg, s, s.rows[0], end + cfg.ahead);
    assert IdsOf([StaleRequest(0, 0, Processing)])[0] == 0;
  }

  lemma ProtectedIsSpared(cfg: Config, s: State, r: ReaperId, j: JobId)
    requires Reachable(cfg, s) && j in s.arq.live && cfg.Protects(s.now, s.arq.live[j].start)
    ensures !ReapsLiveJob(s, r, j)
  {
    if ReapsLiveJob(s, r, j) {
      ReachableIsTimed(cfg, s);
      ClaimedRowIsNotStale(cfg, s, r, j);
    }
  }

  /** The grace is exact. No reachable UPDATE ever fails the request of a claim
      whose job still runs if and only if the grace covers the clock skew; none
      fails that of a claim whose job is still present, perhaps being cancelled,
      if and only if it covers skew plus cancel tail. */
  lemma GraceIsExact(cfg: Config)
    requires cfg.batchSize >= 1
    ensures cfg.GraceCoversSkew()
            <==> forall s, r, j :: Reachable(cfg, s) && Running(cfg, s, j) ==> !ReapsLiveJob(s, r, j)
    ensures cfg.GraceCoversTail() <==> forall s, r, j :: Reachable(cfg, s) ==> !ReapsLiveJob(s, r, j)
  {
    forall s, r, j | Reachable(cfg, s) && j in s.arq.live
                     && (cfg.GraceCoversTail() || (cfg.GraceCoversSkew() && Running(cfg, s, j)))
      ensures !ReapsLiveJob(s, r, j)
    {
      ReachableIsTimed(cfg, s);
      assert ClaimWf(cfg, s.now, s.rows, s.arq.live[j]);
      ProtectedIsSpared(cfg, s, r, j);
    }
    if !cfg.GraceCoversTail() {
      SelectedIsReachable(cfg, cfg.jobTimeout + cfg.cancelTail);
    }
    if !cfg.GraceCoversSkew() {
      SelectedIsReachable(cfg, cfg.jobTimeout);
      assert Running(cfg, SelectedState(cfg, cfg.jobTimeout), 0);
    }
  }

  /** The reaped job carries on until its timeout. */
  function ReapedState(cfg: Config, pc: JobPc, downloads: seq<Id>, sent: set<Id>): State {
    var end := cfg.jobTimeout;
    State(end, map[0 := AudioRow(Failed, Some(end), end)], NO_BOT,
          Arq(map[0 := 0], {}, map[0 := Job(0, 0, pc)], downloads, sent),
          Reaping(map[0 := Notifying(0, 0)], [[StaleRequest(0, 0, Processing)]], []))
  }

  /** An UPDATE over the sole, stale row. */
  lemma SoleRowIsReaped(row: Row, cutoff: int, stamp: int)
    requires Stale(row, cutoff)
    ensures var batch := [StaleRequest(0, row.userId, row.status.status)];
            && Moved(map[0 := row], batch, cutoff) == batch
            && Reaped(map[0 := row], IdsOf(batch), cutoff, stamp)
               == map[0 := row.(status := Known(Failed), completedAt := Some(stamp), updatedAt := stamp)]
  {
    var batch := [StaleRequest(0, row.userId, row.status.status)];
    AllMove(map[0 := row], batch, cutoff);
    assert IdsOf(batch)[0] == 0;
  }

  lemma ReapedIsReachable(cfg: Config)
    requires !cfg.GraceCoversSkew() && cfg.batchSize >= 1
    ensures Reachable(cfg, ReapedState(cfg, JobClaimed, [], {}))
  {
    var s, end := SelectedState(cfg, cfg.jobTimeout), cfg.jobTimeout;
    SelectedIsReachable(cfg, end);
    SoleRowIsReaped(s.rows[0], s.reaping.reapers[0].cutoff, end);
    Reach(cfg, s, ReaperDoes(UpdateRows(0, end)), ReapedState(cfg, JobClaimed, [], {}));
  }

  /** When the skew exceeds the grace, a failed request starts a download and
      turns DONE within its job's own time: the unconditional `update` overwrites
      the reaper's FAILED. */
  lemma SkewLetsFailedTurnDone(cfg: Config) returns (s: State, steps: seq<Step>, s': State)
    requires !cfg.GraceCoversSkew() && cfg.batchSize >= 1
    ensures Reachable(cfg, s) && Leads(cfg, s, steps, s')
    ensures Finished(s.rows, 0) && s.rows[0].status == Known(Failed)
    ensures 0 in s'.rows && s'.rows[0].status == Known(Done)
    ensures StartCount(s'.arq.downloads, 0) == StartCount(s.arq.downloads, 0) + 1
  {
    s := ReapedState(cfg, JobClaimed, [], {});
    ReapedIsReachable(cfg);
    s' := ReapedJobFinishes(cfg);
    steps :| Leads(cfg, s, steps, s');
    OneStart();
  }

  /** The reaped job downloads, settles and saves its outcome all the same. */
  lemma ReapedJobFinishes(cfg: Config) returns (s': State)
    ensures CanLead(cfg, ReapedState(cfg, JobClaimed, [], {}), s')
    ensures 0 in s'.rows && s'.rows[0].status == Known(Done) && s'.arq.downloads == [0]
  {
    var s := ReapedState(cfg, JobClaimed, [], {});
    assert Leads(cfg, s, [], s);
    ReapedJobDownloads(cfg, s);
    ReapedJobSends(cfg, s);
    ReapedJobSettles(cfg, s);
    s' := ReapedJobSaves(cfg, s);
  }

  lemma OneStart()
    ensures StartCount([], 0) == 0 && StartCount([0], 0) == 1
  {
    assert [0][..0] == [];
  }

  lemma ReapedJobDownloads(cfg: Config, init: State)
    requires CanLead(cfg, init, ReapedState(cfg, JobClaimed, [], {}))
    ensures CanLead(cfg, init, ReapedState(cfg, JobDownloading, [0], {}))
  {
    ThenStep(cfg, init, ReapedState(cfg, JobClaimed, [], {}), WorkerDoes(StartDownload(0)),
        ReapedState(cfg, JobDownloading, [0], {}));
  }

  lemma ReapedJobSends(cfg: Config, init: State)
    requires CanLead(cfg, init, ReapedState(cfg, JobDownloading, [0], {}))
    ensures CanLead(cfg, init, ReapedState(cfg, JobSent, [0], {0}))
  {
    ThenStep(cfg, init, ReapedState(cfg, JobDownloading, [0], {}), WorkerDoes(SendFile(0)),
             ReapedState(cfg, JobSent, [0], {0}));
  }

  lemma ReapedJobSettles(cfg: Config, init: State)
    requires CanLead(cfg, init, ReapedState(cfg, JobSent, [0], {0}))
    ensures CanLead(cfg, init, ReapedState(cfg, JobSettled(Done, cfg.jobTimeout), [0], {0}))
  {
    var end := cfg.jobTimeout;
    ThenStep(cfg, init, ReapedState(cfg, JobSent, [0], {0}), WorkerDoes(Settle(0, Done, end)),
             ReapedState(cfg, JobSettled(Done, end), [0], {0}));
  }

  lemma ReapedJobSaves(cfg: Config, init: State) returns (s': State)
    requires CanLead(cfg, init, ReapedState(cfg, JobSettled(Done, cfg.jobTimeout), [0], {0}))
    ensures CanLead(cfg, init, s')
    ensures 0 in s'.rows && s'.rows[0].status == Known(Done) && s'.arq.downloads == [0]
  {
    var end := cfg.jobTimeout;
    var s, step := ReapedState(cfg, JobSettled(Done, end), [0], {0}), WorkerDoes(SaveOutcome(0, end));
    s' := Apply(cfg, s, step);
    ThenStep(cfg, init, s, step, s');
  }

  ghost predicate CanLead(cfg: Config, s: State, s': State) {
    exists steps :: Leads(cfg, s, steps, s')
  }

  lemma ThenStep(cfg: Config, init: State, s: State, step: Step, s': State)
    requires CanLead(cfg, init, s) && Enabled(cfg, s, step) && Apply(cfg, s, step) == s'
    ensures CanLead(cfg, init, s')
  {
    var steps :| Leads(cfg, init, steps, s);
    LeadsOneMore(cfg, init, steps, s, step);
  }

  /** Between these two moments of a run, a finished request keeps its status. */
  ghost predicate Absorbs(cfg: Config, s: State, steps: seq<Step>, s': State, id: Id) {
    Reachable(cfg, s) && Leads(cfg, s, steps, s') && Finished(s.rows, id) ==>
      Finished(s'.rows, id) && s'.rows[id].status == s.rows[id].status
  }

  /** The grace is exact for finished requests too: their status is absorbing
      over every run if and only if it covers the clock skew. A cancelled job
      writes nothing, so its tail does not matter here. */
  lemma AbsorptionIsExact(cfg: Config)
    requires cfg.batchSize >= 1
    ensures cfg.GraceCoversSkew() <==> forall s, steps, s', id :: Absorbs(cfg, s, steps, s', id)
  {
    if cfg.GraceCoversSkew() {
      forall s, steps, s', id
        ensures Absorbs(cfg, s, steps, s', id)
      {
        if Reachable(cfg, s) && Leads(cfg, s, steps, s') && Finished(s.rows, id) {
          TerminalStatusIsAbsorbing(cfg, s, steps, s', id);
        }
      }
    } else {
      var s, steps, s' := SkewLetsFailedTurnDone(cfg);
      assert !Absorbs(cfg, s, steps, s', 0);
    }
  }

  // ----- what the reaper reports -----

  /** The UPDATE would report a row under another status than it has. */
  ghost predicate Misreports(s: State, r: ReaperId) {
    && r in s.reaping.reapers && s.reaping.reapers[r].Selected?
    && exists c :: c in Moved(s.rows, s.reaping.reapers[r].batch, s.reaping.reapers[r].cutoff)
                   && c.requestId in s.rows && s.rows[c.requestId].status != Known(c.previousStatus)
  }

  /** A row selected as pending, then claimed by a clock as slow as the reaper's
      is fast, so that its new stamp is still before the cutoff. */
  function MisreportingState(cfg: Config): State {
    ClaimedState(cfg, 0).(reaping := Reaping(
      map[0 := Selected(cfg.ahead - cfg.StaleAfter(), [StaleRequest(0, 0, Pending)])], [], []))
  }

  /** The same row before the claim, its job as far as `pc`. */
  function SelectedEarly(cfg: Config, pc: JobPc): State {
    State(0, map[0 := AudioRow(Pending, None, 0 - cfg.behind as int)], NO_BOT,
          OneJob(pc), MisreportingState(cfg).reaping)
  }

  lemma SelectedEarlyIsReachable(cfg: Config)
    requires !cfg.StaleTimeCoversSkew() && cfg.batchSize >= 1
    ensures Reachable(cfg, SelectedEarly(cfg, JobStarted))
  {
    var row := AudioRow(Pending, None, 0 - cfg.behind as int);
    StartedIsReachable(cfg);
    var s := State(0, map[0 := row], NO_BOT, OneJob(JobStarted), NO_REAPING);
    ReachSoleSelection(cfg, s, row, cfg.ahead);
  }

  lemma LoadedEarlyIsReachable(cfg: Config)
    requires Reachable(cfg, SelectedEarly(cfg, JobStarted))
    ensures Reachable(cfg, SelectedEarly(cfg, JobLoaded))
  {
    Reach(cfg, SelectedEarly(cfg, JobStarted), WorkerDoes(LoadRequest(0)), SelectedEarly(cfg, JobLoaded));
  }

  lemma ClaimKeepsOldStamp(cfg: Config)
    ensures var claim := WorkerDoes(ClaimRow(0, 0 - cfg.behind as int));
            && Enabled(cfg, SelectedEarly(cfg, JobLoaded), claim)
            && Apply(cfg, SelectedEarly(cfg, JobLoaded), claim) == MisreportingState(cfg)
  {
  }

  lemma MisreportingIsReachable(cfg: Config)
    requires !cfg.StaleTimeCoversSkew() && cfg.batchSize >= 1
    ensures Reachable(cfg, MisreportingState(cfg))
  {
    SelectedEarlyIsReachable(cfg);
    LoadedEarlyIsReachable(cfg);
    ClaimKeepsOldStamp(cfg);
    Reach(cfg, SelectedEarly(cfg, JobLoaded), WorkerDoes(ClaimRow(0, 0 - cfg.behind as int)), MisreportingState(cfg));
  }

  lemma ReportsAreTrue(cfg: Config, s: State, r: ReaperId)
    requires cfg.StaleTimeCoversSkew() && Reachable(cfg, s)
    ensures !Misreports(s, r)
  {
    ReachableHasCandidates(cfg, s);
    if r in s.reaping.reapers && s.reaping.reapers[r].Selected? {
      var pc := s.reaping.reapers[r];
      forall c | c in Moved(s.rows, pc.batch, pc.cutoff)
        ensures c.requestId in s.rows && s.rows[c.requestId].status == Known(c.previousStatus)
      {
        MovedAreTheStale(s.rows, pc.batch, pc.cutoff, c);
        assert CandidateWf(s.rows, c, pc.cutoff);
      }
    }
  }

  /** A result always tells each row's status at the UPDATE if and only if the
      stale time covers the skew: then every write since the SELECT stamps its
      row past the cutoff. */
  lemma ReportIsExact(cfg: Config)
    requires cfg.batchSize >= 1
    ensures cfg.StaleTimeCoversSkew() <==> forall s, r :: Reachable(cfg, s) ==> !Misreports(s, r)
  {
    if cfg.StaleTimeCoversSkew() {
      forall s, r | Reachable(cfg, s)
        ensures !Misreports(s, r)
      {
        ReportsAreTrue(cfg, s, r);
      }
    } else {
      MisreportingIsReachable(cfg);
      var s := MisreportingState(cfg);
      var pc, c := s.reaping.reapers[0], StaleRequest(0, 0, Pending);
      MovedAreTheStale(s.rows, pc.batch, pc.cutoff, c);
      assert Misreports(s, 0);
    }
  }

  // ----- the handler's window -----

  /** A handler's `mark_failed_by_id` is about to overwrite a finished row. */
  ghost predicate RewritesFinished(s: State, h: HandlerId) {
    h in s.bot.handlers && s.bot.handlers[h].EnqueueRaised? && Finished(s.rows, s.bot.handlers[h].id)
  }

  const SOLE := Entity(0, 0, "", Pending, AudioSpec(MP3), None)

  function RaisedState(cfg: Config, now: int, row: Row, reaping: Reaping): State {
    State(now, map[0 := row], Bot({}, {}, map[0 := EnqueueRaised(0, 0)], map[0 := None], {}),
          NO_ARQ, reaping)
  }

  lemma HoldingIsReachable(cfg: Config)
    ensures Reachable(cfg, State(0, map[], Bot({}, {}, map[0 := Holding(None)], map[], {}),
                                 NO_ARQ, NO_REAPING))
  {
    var s := State(0, map[], NO_BOT, NO_ARQ, NO_REAPING);
    InitialIsReachable(cfg, s);
    Reach(cfg, s, BotDoes(DirectRequest(0)), s.(bot := Bot({}, {}, map[0 := Holding(None)], map[], {})));
  }

  lemma RaisedIsReachable(cfg: Config)
    ensures Reachable(cfg, RaisedState(cfg, 0, AudioRow(Pending, None, 0 - cfg.behind as int), NO_REAPING))
  {
    var none := NO_ARQ;
    var s1 := State(0, map[], Bot({}, {}, map[0 := Holding(None)], map[], {}), none, NO_REAPING);
    HoldingIsReachable(cfg);
    var row := AudioRow(Pending, None, 0 - cfg.behind as int);
    var s2 := State(0, map[0 := row], Bot({}, {}, map[0 := RowCommitted(0, 0)], map[0 := None], {}), none, NO_REAPING);
    Reach(cfg, s1, BotDoes(CommitRow(0, SOLE, 0 - cfg.behind as int)), s2);
    Reach(cfg, s2, BotDoes(EnqueueRaises(0)), RaisedState(cfg, 0, row, NO_REAPING));
  }

  /** Some time after the commit, as the fastest clock's reaper sees the row. */
  function LateState(cfg: Config, late: nat): State {
    RaisedState(cfg, late, AudioRow(Pending, None, 0 - cfg.behind as int), Reaping(
      map[0 := Selected(late + cfg.ahead - cfg.StaleAfter(), [StaleRequest(0, 0, Pending)])], [], []))
  }

  /** The same row, failed by that reaper on the slowest clock. */
  function OvertakenState(cfg: Config, now: nat, late: nat): State {
    RaisedState(cfg, now, AudioRow(Failed, Some(late - cfg.behind), late - cfg.behind),
                Reaping(map[0 := Notifying(0, 0)], [[StaleRequest(0, 0, Pending)]], []))
  }

  predicate CanBeOvertaken(cfg: Config, late: nat) {
    late <= cfg.enqueueWindow && late + cfg.behind + cfg.ahead > cfg.StaleAfter() && cfg.batchSize >= 1
  }

  lemma RaisedStays(cfg: Config, late: nat)
    requires late <= cfg.enqueueWindow
    ensures Reachable(cfg, RaisedState(cfg, late, AudioRow(Pending, None, 0 - cfg.behind as int), NO_REAPING))
  {
    var row := AudioRow(Pending, None, 0 - cfg.behind as int);
    RaisedIsReachable(cfg);
    Reach(cfg, RaisedState(cfg, 0, row, NO_REAPING), Advance(late), RaisedState(cfg, late, row, NO_REAPING));
  }

  lemma LateIsReachable(cfg: Config, late: nat)
    requires CanBeOvertaken(cfg, late)
    ensures Reachable(cfg, LateState(cfg, late))
  {
    var row := AudioRow(Pending, None, 0 - cfg.behind as int);
    RaisedStays(cfg, late);
    var s := RaisedState(cfg, late, row, NO_REAPING);
    ReachSoleSelection(cfg, s, row, late + cfg.ahead);
  }

  lemma OvertakenIsReachable(cfg: Config, late: nat)
    requires CanBeOvertaken(cfg, late)
    ensures Reachable(cfg, OvertakenState(cfg, late, late))
  {
    var before := LateState(cfg, late);
    LateIsReachable(cfg, late);
    SoleRowIsReaped(before.rows[0], before.reaping.reapers[0].cutoff, late - cfg.behind);
    Reach(cfg, before, ReaperDoes(UpdateRows(0, late - cfg.behind)), OvertakenState(cfg, late, late));
  }

  /** A handler that outstays its row's freshness marks it failed after the reaper
      did, and the finished row's `completed_at` changes. */
  lemma LateHandlerRewrites(cfg: Config) returns (s: State, s': State)
    requires cfg.LateMarkShows() && cfg.batchSize >= 1
    ensures Reachable(cfg, s) && RewritesFinished(s, 0)
    ensures var mark := BotDoes(MarkEnqueueFailed(0, cfg.enqueueWindow + cfg.ahead));
            Leads(cfg, s, [mark], s')
    ensures 0 in s.rows && 0 in s'.rows && s'.rows[0].completedAt != s.rows[0].completedAt
  {
    var window, stamp := cfg.enqueueWindow, cfg.enqueueWindow + cfg.ahead;
    var late := if cfg.behind + cfg.ahead >= 1 then window else window - 1;
    OvertakenWaits(cfg, late);
    s := OvertakenState(cfg, window, late);
    s' := LateMark(cfg, late);
    assert [BotDoes(MarkEnqueueFailed(0, stamp))][1..] == [];
  }

  lemma OvertakenWaits(cfg: Config, late: nat)
    requires CanBeOvertaken(cfg, late)
    ensures Reachable(cfg, OvertakenState(cfg, cfg.enqueueWindow, late))
  {
    OvertakenIsReachable(cfg, late);
    Reach(cfg, OvertakenState(cfg, late, late), Advance(cfg.enqueueWindow - late),
          OvertakenState(cfg, cfg.enqueueWindow, late));
  }

  lemma LateMark(cfg: Config, late: nat) returns (s': State)
    ensures var s, mark := OvertakenState(cfg, cfg.enqueueWindow, late),
                           BotDoes(MarkEnqueueFailed(0, cfg.enqueueWindow + cfg.ahead));
            Enabled(cfg, s, mark) && s' == Apply(cfg, s, mark)
    ensures 0 in s'.rows && s'.rows[0].completedAt == Some(cfg.enqueueWindow + cfg.ahead)
  {
    var mark := BotDoes(MarkEnqueueFailed(0, cfg.enqueueWindow + cfg.ahead));
    s' := Apply(cfg, OvertakenState(cfg, cfg.enqueueWindow, late), mark);
  }

  /** The enqueue window is exact: no handler ever overwrites a finished row if
      and only if a handler marks its row failed before the row can go stale. */
  lemma EnqueueWindowIsExact(cfg: Config)
    requires cfg.batchSize >= 1
    ensures cfg.EnqueueIsPrompt() <==> forall s, h :: Reachable(cfg, s) ==> !RewritesFinished(s, h)
  {
    if cfg.EnqueueIsPrompt() {
      forall s, h | Reachable(cfg, s)
        ensures !RewritesFinished(s, h)
      {
        ReachableIsTimed(cfg, s);
        if h in s.bot.handlers && s.bot.handlers[h].EnqueueRaised? {
          assert Owns(s.bot, h, s.bot.handlers[h].id);
          assert WindowWf(cfg, s.now, s.rows, s.bot.handlers[h].id, s.bot.handlers[h].at);
        }
      }
    } else {
      OvertakenIsReachable(cfg, cfg.enqueueWindow);
      assert RewritesFinished(OvertakenState(cfg, cfg.enqueueWindow, cfg.enqueueWindow), 0);
    }
  }

  /** Between these two moments of a run, a finished request's row is the same. */
  ghost predicate Freezes(cfg: Config, s: State, steps: seq<Step>, s': State, id: Id) {
    Reachable(cfg, s) && Leads(cfg, s, steps, s') && Finished(s.rows, id) ==> id in s'.rows && s'.rows[id] == s.rows[id]
  }

  /** A finished request's whole row, `completed_at` included, is frozen over
      every run if and only if the grace covers the skew and no late mark of a
      handler can show. */
  lemma FreezeIsExact(cfg: Config)
    requires cfg.batchSize >= 1
    ensures cfg.GraceCoversSkew() && !cfg.LateMarkShows()
            <==> forall s, steps, s', id :: Freezes(cfg, s, steps, s', id)
  {
    if !cfg.GraceCoversSkew() {
      var s, steps, s' := SkewLetsFailedTurnDone(cfg);
      assert !Freezes(cfg, s, steps, s', 0);
    } else if cfg.LateMarkShows() {
      var s, s' := LateHandlerRewrites(cfg);
      assert !Freezes(cfg, s, [BotDoes(MarkEnqueueFailed(0, cfg.enqueueWindow + cfg.ahead))], s', 0);
    } else {
      forall s, steps, s', id
        ensures Freezes(cfg, s, steps, s', id)
      {
        if Reachable(cfg, s) && Leads(cfg, s, steps, s') && Finished(s.rows, id) {
          TerminalStatusIsAbsorbing(cfg, s, steps, s', id);
        }
      }
    }
  }

  /** The deployed constants (worker_settings.py:73, settings.py:148,
      jobs.py:42): running jobs are safe for any clocks that together stay within
      the 300 seconds of grace, cancelled ones for what the tail leaves of it. */
  lemma DeployedConfiguration(cfg: Config)
    requires cfg.jobTimeout == 2100 && cfg.grace == 300 && cfg.batchSize == 100
    ensures cfg.StaleAfter() == 2400
    ensures (forall s, r, j :: Reachable(cfg, s) && Running(cfg, s, j) ==> !ReapsLiveJob(s, r, j))
            <==> cfg.behind + cfg.ahead <= 300
    ensures (forall s, r, j :: Reachable(cfg, s) ==> !ReapsLiveJob(s, r, j))
            <==> cfg.behind + cfg.ahead + cfg.cancelTail <= 300
  {
    GraceIsExact(cfg);
  }
}
