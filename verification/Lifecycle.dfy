/** The life of a download request as one concurrent, timed protocol: bot
    handlers, the preview tokens, the job queue, worker jobs, and the stale
    reaper, all acting on one table
    (src/presentation/telegram/handlers/download_flow.py,
    src/application/use_cases/request_download.py, process_download.py and
    reap_stale_requests.py, src/infrastructure/queue/worker_settings.py).

    Every step is one committed database call, one queue or store command, or
    the passing of time. A run is any sequence of enabled steps. */
module Lifecycle {
  import opened Wrappers
  import opened DownloadSpecs
  import opened Requests

  type Token = string
  type HandlerId = nat
  type JobId = nat
  type ReaperId = nat

  /** `behind`/`ahead`: how far any host's clock may read from true time.
      `cancelTail`: how long after the timeout a job being cancelled may linger,
      writing nothing any more.
      `enqueueWindow`: how long a bot handler may take from committing a row to
      marking it failed when the enqueue raises. */
  datatype Config = Config(
    jobTimeout: nat, cancelTail: nat, grace: nat,
    behind: nat, ahead: nat,
    enqueueWindow: nat, batchSize: nat)
  {
    function StaleAfter(): nat {
      jobTimeout + grace
    }

    predicate Reads(now: int, clock: int) {
      now - behind <= clock <= now + ahead
    }

    /** Any two clocks differ by at most the grace. */
    predicate GraceCoversSkew() {
      behind + ahead <= grace
    }

    /** The same with a cancelled job's tail on top. */
    predicate GraceCoversTail() {
      behind + ahead + cancelTail <= grace
    }

    predicate StaleTimeCoversSkew() {
      behind + ahead <= StaleAfter()
    }

    /** arq has not cancelled a job of this start yet. */
    predicate Runs(now: int, start: int) {
      now <= start + jobTimeout
    }

    /** No clock can take a row stamped at `start` or later for stale yet. */
    predicate Protects(now: int, start: int) {
      now + behind + ahead <= start + StaleAfter()
    }

    predicate EnqueueIsPrompt() {
      enqueueWindow + behind + ahead <= StaleAfter()
    }

    /** A handler's late mark can carry another instant than the reaper's: some
        clocks differ, or two ticks are left. */
    predicate LateMarkShows() {
      !EnqueueIsPrompt() && (behind + ahead >= 1 || enqueueWindow > StaleAfter() + 1)
    }
  }

  // ----- bot -----

  datatype HandlerPc =
    | Holding(token: Option<Token>)       // may still refuse; None for /download
    | RowCommitted(id: Id, at: int)       // enqueue next
    | EnqueueRaised(id: Id, at: int)      // mark_failed_by_id next

  /** `issued`: every token ever saved. `origin`: for each row a handler created,
      the token it consumed. `rejected`: rows whose enqueue failed and was marked. */
  datatype Bot = Bot(
    store: set<Token>, issued: set<Token>,
    handlers: map<HandlerId, HandlerPc>,
    origin: map<Id, Option<Token>>,
    rejected: set<Id>)

  datatype BotStep =
    | SavePreview(token: Token)
    | ExpirePreview(token: Token)
    | ReadTap(token: Token)               // picker or back
    | CancelTap(token: Token)
    | ConfirmTap(h: HandlerId, token: Token)
    | DirectRequest(h: HandlerId)
    | CommitRow(h: HandlerId, entity: Entity, stamp: int)
    | EnqueueOk(h: HandlerId, job: JobId)
    | EnqueueRaises(h: HandlerId)
    | MarkEnqueueFailed(h: HandlerId, stamp: int)
    | DropHandler(h: HandlerId)           // refusal, exception or crash

  // ----- queue and worker -----

  datatype JobPc =
    | JobStarted
    | JobRecovering                       // get_by_id raised: mark_failed_by_id next
    | JobLoaded                           // entity in hand: claim next
    | JobClaimed
    | JobDownloading
    | JobSent                             // `send_file` returned
    | JobSettled(status: Status, completedAt: int)   // entity marked: update next
    | JobFinished
  {
    /** Between a successful claim and the final update. */
    predicate HoldsClaim() {
      JobClaimed? || JobDownloading? || JobSent? || JobSettled?
    }
  }

  datatype Job = Job(request: Id, start: int, pc: JobPc)

  /** `jobs`: every job ever enqueued. `downloads`: requests in the order their
      downloads started. `sent`: requests whose file some job has sent. */
  datatype Arq = Arq(jobs: map<JobId, Id>, queue: set<JobId>, live: map<JobId, Job>, downloads: seq<Id>, sent: set<Id>)

  datatype WorkerStep =
    | StartJob(j: JobId)
    | LoseJob(j: JobId)
    | LoadRequest(j: JobId)
    | RecoverRow(j: JobId, stamp: int)
    | ClaimRow(j: JobId, stamp: int)
    | StartDownload(j: JobId)
    | SendFile(j: JobId)
    | Settle(j: JobId, status: Status, stamp: int)
    | SaveOutcome(j: JobId, stamp: int)
    | EndJob(j: JobId, requeue: bool)     // return, exception, cancel or crash

  // ----- reaper -----

  datatype ReaperPc = Selected(cutoff: int, batch: seq<StaleRequest>) | Notifying(result: nat, next: nat)

  datatype Notice = Notice(result: nat, index: nat)

  /** `results`: the return value of every `fail_stale`, in commit order. */
  datatype Reaping = Reaping(reapers: map<ReaperId, ReaperPc>, results: seq<seq<StaleRequest>>, notices: seq<Notice>)

  datatype ReaperStep =
    | SelectRows(r: ReaperId, clock: int, locked: set<Id>, batch: seq<StaleRequest>)
    | UpdateRows(r: ReaperId, stamp: int)
    | Notify(r: ReaperId, reached: bool)
    | DropReaper(r: ReaperId)

  datatype State = State(now: int, rows: Table, bot: Bot, arq: Arq, reaping: Reaping)

  datatype Step = BotDoes(b: BotStep) | WorkerDoes(w: WorkerStep) | ReaperDoes(t: ReaperStep) | Advance(d: nat)

  // ----- enabled steps and their effect -----

  predicate At(bot: Bot, h: HandlerId) {
    h in bot.handlers
  }

  predicate BotEnabled(cfg: Config, s: State, b: BotStep) {
    match b
    case SavePreview(t) => t !in s.bot.issued
    case ExpirePreview(t) => true
    case ReadTap(t) => true
    case CancelTap(t) => true
    case ConfirmTap(h, t) => !At(s.bot, h)
    case DirectRequest(h) => !At(s.bot, h)
    case CommitRow(h, e, stamp) =>
      && At(s.bot, h) && s.bot.handlers[h].Holding?
      && e.id !in s.rows && e.status == Pending && e.completedAt == None && cfg.Reads(s.now, stamp)
    case EnqueueOk(h, j) => At(s.bot, h) && s.bot.handlers[h].RowCommitted? && j !in s.arq.jobs
    case EnqueueRaises(h) => At(s.bot, h) && s.bot.handlers[h].RowCommitted?
    case MarkEnqueueFailed(h, stamp) => At(s.bot, h) && s.bot.handlers[h].EnqueueRaised? && cfg.Reads(s.now, stamp)
    case DropHandler(h) => At(s.bot, h)
  }

  function BotApply(cfg: Config, s: State, b: BotStep): State
    requires BotEnabled(cfg, s, b)
  {
    var bot := s.bot;
    match b
    case SavePreview(t) => s.(bot := bot.(store := bot.store + {t}, issued := bot.issued + {t}))
    case ExpirePreview(t) => s.(bot := bot.(store := bot.store - {t}))
    case ReadTap(t) => s
    case CancelTap(t) => s.(bot := bot.(store := bot.store - {t}))
    case ConfirmTap(h, t) =>
      if t in bot.store then
        s.(bot := bot.(store := bot.store - {t}, handlers := bot.handlers[h := Holding(Some(t))]))
      else s
    case DirectRequest(h) => s.(bot := bot.(handlers := bot.handlers[h := Holding(None)]))
    case CommitRow(h, e, stamp) =>
      s.(rows := Created(s.rows, e, stamp),
         bot := bot.(handlers := bot.handlers[h := RowCommitted(e.id, s.now)],
                     origin := bot.origin[e.id := bot.handlers[h].token]))
    case EnqueueOk(h, j) =>
      s.(bot := bot.(handlers := bot.handlers - {h}),
         arq := s.arq.(jobs := s.arq.jobs[j := bot.handlers[h].id], queue := s.arq.queue + {j}))
    case EnqueueRaises(h) =>
      s.(bot := bot.(handlers := bot.handlers[h := EnqueueRaised(bot.handlers[h].id, bot.handlers[h].at)]))
    case MarkEnqueueFailed(h, stamp) =>
      s.(rows := MarkedFailed(s.rows, bot.handlers[h].id, stamp),
         bot := bot.(handlers := bot.handlers - {h}, rejected := bot.rejected + {bot.handlers[h].id}))
    case DropHandler(h) => s.(bot := bot.(handlers := bot.handlers - {h}))
  }

  /** A live job that has not been cancelled: a cancelled one only ends. */
  predicate Running(cfg: Config, s: State, j: JobId) {
    j in s.arq.live && cfg.Runs(s.now, s.arq.live[j].start)
  }

  predicate WorkerEnabled(cfg: Config, s: State, w: WorkerStep) {
    match w
    case StartJob(j) => j in s.arq.queue && j in s.arq.jobs
    case LoseJob(j) => j in s.arq.queue
    case LoadRequest(j) => Running(cfg, s, j) && s.arq.live[j].pc.JobStarted?
    case RecoverRow(j, stamp) => Running(cfg, s, j) && s.arq.live[j].pc.JobRecovering? && cfg.Reads(s.now, stamp)
    case ClaimRow(j, stamp) => Running(cfg, s, j) && s.arq.live[j].pc.JobLoaded? && cfg.Reads(s.now, stamp)
    case StartDownload(j) => Running(cfg, s, j) && s.arq.live[j].pc.JobClaimed?
    case SendFile(j) => Running(cfg, s, j) && s.arq.live[j].pc.JobDownloading?
    case Settle(j, status, stamp) =>
      && Running(cfg, s, j) && cfg.Reads(s.now, stamp)
      && (((s.arq.live[j].pc.JobClaimed? || s.arq.live[j].pc.JobDownloading?) && status == Failed)
          || (s.arq.live[j].pc.JobSent? && status == Done))
    case SaveOutcome(j, stamp) =>
      && Running(cfg, s, j) && s.arq.live[j].pc.JobSettled?
      && s.arq.live[j].request in s.rows && cfg.Reads(s.now, stamp)
    case EndJob(j, requeue) => j in s.arq.live
  }

  function WithPc(arq: Arq, j: JobId, pc: JobPc): Arq
    requires j in arq.live
  {
    arq.(live := arq.live[j := arq.live[j].(pc := pc)])
  }

  function WorkerApply(cfg: Config, s: State, w: WorkerStep): State
    requires WorkerEnabled(cfg, s, w)
  {
    var arq := s.arq;
    match w
    case StartJob(j) =>
      s.(arq := arq.(queue := arq.queue - {j}, live := arq.live[j := Job(arq.jobs[j], s.now, JobStarted)]))
    case LoseJob(j) => s.(arq := arq.(queue := arq.queue - {j}))
    case LoadRequest(j) =>
      var id := arq.live[j].request;
      if id !in s.rows then s.(arq := WithPc(arq, j, JobFinished))
      else if !s.rows[id].Readable() then s.(arq := WithPc(arq, j, JobRecovering))
      else s.(arq := WithPc(arq, j, JobLoaded))
    case RecoverRow(j, stamp) =>
      s.(rows := MarkedFailed(s.rows, arq.live[j].request, stamp), arq := WithPc(arq, j, JobFinished))
    case ClaimRow(j, stamp) =>
      s.(rows := Claimed(s.rows, arq.live[j].request, stamp),
         arq := WithPc(arq, j, if Claimable(s.rows, arq.live[j].request) then JobClaimed else JobFinished))
    case StartDownload(j) =>
      s.(arq := WithPc(arq, j, JobDownloading).(downloads := arq.downloads + [arq.live[j].request]))
    case SendFile(j) =>
      s.(arq := WithPc(arq, j, JobSent).(sent := arq.sent + {arq.live[j].request}))
    case Settle(j, status, stamp) => s.(arq := WithPc(arq, j, JobSettled(status, stamp)))
    case SaveOutcome(j, stamp) =>
      var pc := arq.live[j].pc;
      s.(rows := Updated(s.rows, arq.live[j].request, pc.status, Some(pc.completedAt), stamp),
         arq := WithPc(arq, j, JobFinished))
    case EndJob(j, requeue) =>
      s.(arq := arq.(live := arq.live - {j}, queue := if requeue then arq.queue + {j} else arq.queue))
  }

  ghost predicate ReaperEnabled(cfg: Config, s: State, t: ReaperStep) {
    match t
    case SelectRows(r, clock, locked, batch) =>
      && r !in s.reaping.reapers && cfg.Reads(s.now, clock)
      && IsBatch(s.rows, clock - cfg.StaleAfter(), cfg.batchSize, locked, batch)
    case UpdateRows(r, stamp) =>
      r in s.reaping.reapers && s.reaping.reapers[r].Selected? && cfg.Reads(s.now, stamp)
    case Notify(r, reached) =>
      && r in s.reaping.reapers && s.reaping.reapers[r].Notifying?
      && s.reaping.reapers[r].result < |s.reaping.results|
      && s.reaping.reapers[r].next < |s.reaping.results[s.reaping.reapers[r].result]|
    case DropReaper(r) => r in s.reaping.reapers
  }

  function ReaperApply(cfg: Config, s: State, t: ReaperStep): State
    requires t.UpdateRows? ==> t.r in s.reaping.reapers && s.reaping.reapers[t.r].Selected?
    requires t.Notify? ==> t.r in s.reaping.reapers && s.reaping.reapers[t.r].Notifying?
  {
    var g := s.reaping;
    match t
    case SelectRows(r, clock, locked, batch) =>
      s.(reaping := g.(reapers := g.reapers[r := Selected(clock - cfg.StaleAfter(), batch)]))
    case UpdateRows(r, stamp) =>
      var pc := g.reapers[r];
      s.(rows := Reaped(s.rows, IdsOf(pc.batch), pc.cutoff, stamp),
         reaping := g.(reapers := g.reapers[r := Notifying(|g.results|, 0)],
                       results := g.results + [Moved(s.rows, pc.batch, pc.cutoff)]))
    case Notify(r, reached) =>
      var pc := g.reapers[r];
      s.(reaping := g.(reapers := g.reapers[r := Notifying(pc.result, pc.next + 1)],
                       notices := if reached then g.notices + [Notice(pc.result, pc.next)] else g.notices))
    case DropReaper(r) => s.(reaping := g.(reapers := g.reapers - {r}))
  }

  /** Time may pass only while no live job and no handler outstays its bound. */
  ghost predicate MayAdvance(cfg: Config, s: State, d: nat) {
    && (forall j :: j in s.arq.live ==> s.now + d <= s.arq.live[j].start + cfg.jobTimeout + cfg.cancelTail)
    && (forall h :: h in s.bot.handlers && !s.bot.handlers[h].Holding? ==>
          s.now + d <= s.bot.handlers[h].at + cfg.enqueueWindow)
  }

  ghost predicate Enabled(cfg: Config, s: State, step: Step) {
    match step
    case BotDoes(b) => BotEnabled(cfg, s, b)
    case WorkerDoes(w) => WorkerEnabled(cfg, s, w)
    case ReaperDoes(t) => ReaperEnabled(cfg, s, t)
    case Advance(d) => MayAdvance(cfg, s, d)
  }

  ghost function Apply(cfg: Config, s: State, step: Step): State
    requires Enabled(cfg, s, step)
  {
    match step
    case BotDoes(b) => BotApply(cfg, s, b)
    case WorkerDoes(w) => WorkerApply(cfg, s, w)
    case ReaperDoes(t) => ReaperApply(cfg, s, t)
    case Advance(d) => s.(now := s.now + d)
  }

  /** A deployment at rest: any rows at all, readable or not, and any leftover
      queue in which a request has at most one job. */
  ghost predicate Initial(cfg: Config, s: State) {
    && s.bot.handlers == map[] && s.bot.origin == map[] && s.bot.rejected == {} && s.bot.store <= s.bot.issued
    && s.arq.live == map[] && s.arq.downloads == [] && s.arq.sent == {} && s.arq.queue <= s.arq.jobs.Keys
    && (forall j :: j in s.arq.jobs ==> s.arq.jobs[j] in s.rows)
    && (forall j, k :: j in s.arq.jobs && k in s.arq.jobs && s.arq.jobs[j] == s.arq.jobs[k] ==> j == k)
    && s.reaping == Reaping(map[], [], [])
    && (forall id :: id in s.rows ==> s.rows[id].updatedAt <= s.now + cfg.ahead)
  }

  /** `s'` follows from `s` by the given steps. */
  ghost predicate Leads(cfg: Config, s: State, steps: seq<Step>, s': State)
    decreases |steps|
  {
    if steps == [] then s' == s
    else Enabled(cfg, s, steps[0]) && Leads(cfg, Apply(cfg, s, steps[0]), steps[1..], s')
  }

  lemma LeadsOne(cfg: Config, s: State, step: Step)
    requires Enabled(cfg, s, step)
    ensures Leads(cfg, s, [step], Apply(cfg, s, step))
  {
    assert [step][1..] == [];
  }

  lemma LeadsMore(cfg: Config, s: State, step: Step, rest: seq<Step>, s': State)
    requires Enabled(cfg, s, step) && Leads(cfg, Apply(cfg, s, step), rest, s')
    ensures Leads(cfg, s, [step] + rest, s')
  {
    assert ([step] + rest)[1..] == rest;
  }

  lemma {:induction false} LeadsOn(cfg: Config, s: State, steps: seq<Step>, mid: State, rest: seq<Step>, s': State)
    requires Leads(cfg, s, steps, mid) && Leads(cfg, mid, rest, s')
    ensures Leads(cfg, s, steps + rest, s')
    decreases |steps|
  {
    if steps == [] {
      assert steps + rest == rest;
    } else {
      LeadsOn(cfg, Apply(cfg, s, steps[0]), steps[1..], mid, rest, s');
      LeadsMore(cfg, s, steps[0], steps[1..] + rest, s');
      assert steps + rest == [steps[0]] + (steps[1..] + rest);
    }
  }

  ghost predicate Reachable(cfg: Config, s: State) {
    exists init, steps :: Initial(cfg, init) && Leads(cfg, init, steps, s)
  }
}
