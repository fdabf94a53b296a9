/** A worker run as a run of the lifecycle: the program counter it moves and the
    steps it takes, whatever everyone else does between them
    (src/application/use_cases/process_download.py). */
module WorkerRuns {
  import opened Wrappers
  import opened DownloadSpecs
  import opened Requests
  import opened Lifecycle
  import opened ProcessDownload

  // ----- the program counter -----

  /** Where a job's program counter goes with an effect; None if the lifecycle
      has no such step there. */
  function Track(pc: JobPc, e: Effect): Option<JobPc> {
    match e
    case ClaimedRow => if pc.JobLoaded? then Some(JobClaimed) else None
    case DirectoryMade => if pc.JobClaimed? then Some(pc) else None
    case DownloadStarted(_, _) => if pc.JobClaimed? then Some(JobDownloading) else None
    case FileSent => if pc.JobDownloading? then Some(JobSent) else None
    case Saved(status, _) =>
      if ((pc.JobClaimed? || pc.JobDownloading?) && status == Failed) || (pc.JobSent? && status == Done)
      then Some(JobFinished) else None
    case SavedById => if pc.JobRecovering? then Some(JobFinished) else None
    case _ => Some(pc)
  }

  function Tracked(pc: JobPc, t: seq<Effect>): Option<JobPc>
    decreases |t|
  {
    if t == [] then Some(pc)
    else match Track(pc, t[0])
      case None => None
      case Some(next) => Tracked(next, t[1..])
  }

  lemma {:induction false} TrackedConcat(pc: JobPc, t: seq<Effect>, u: seq<Effect>)
    ensures Tracked(pc, t + u) == match Tracked(pc, t) case None => None case Some(next) => Tracked(next, u)
    decreases |t|
  {
    if t == [] {
      assert t + u == u;
    } else {
      assert (t + u)[1..] == t[1..] + u;
      match Track(pc, t[0])
      case None =>
      case Some(next) => TrackedConcat(next, t[1..], u);
    }
  }

  lemma {:induction false} CardsKeepPc(pc: JobPc, phases: seq<CardPhase>)
    ensures Tracked(pc, Cards(phases)) == Some(pc)
  {
    if phases != [] {
      assert Cards(phases)[0] == Card(phases[0]) && Cards(phases)[1..] == Cards(phases[1..]);
      CardsKeepPc(pc, phases[1..]);
    }
  }

  function PcAfterLookup(found: Found): JobPc {
    if found.Failure? then JobRecovering else if found.value.None? then JobFinished else JobLoaded
  }

  /** Every run, whole, cancelled or crashed, only moves the program counter where
      it may go. */
  lemma RunFollowsTheLifecycle(s: Script, found: Found, claimable: bool, t: seq<Effect>, exit: Exit)
    requires s.Valid() && Possible(s, found, claimable, t, exit)
    ensures Tracked(PcAfterLookup(found), t).Some?
  {
    if Claims(s, found, claimable) {
      var p, released := ClaimedRunParts(s, found, claimable, t, exit);
      ClaimedPartIsTracked(s, found.value.value);
      PrefixIsTracked(JobLoaded, ClaimedPart(s, found.value.value), p);
      assert p + [] == p;
    } else if found.Failure? {
      UnclaimedRunLeavesNoTrace(s, found, claimable, t, exit);
      RecoveryIsTracked();
      PrefixIsTracked(JobRecovering, [SavedById, Card(FailedCard), TextSent], t);
    }
  }

  lemma RecoveryIsTracked()
    ensures Tracked(JobRecovering, [SavedById, Card(FailedCard), TextSent]).Some?
  {
    OneTracked(JobRecovering, SavedById);
    OneTracked(JobFinished, Card(FailedCard));
    OneTracked(JobFinished, TextSent);
    TrackedConcat(JobRecovering, [SavedById], [Card(FailedCard)]);
    TrackedConcat(JobRecovering, [SavedById, Card(FailedCard)], [TextSent]);
    assert [SavedById] + [Card(FailedCard)] == [SavedById, Card(FailedCard)];
    assert [SavedById, Card(FailedCard)] + [TextSent] == [SavedById, Card(FailedCard), TextSent];
  }

  lemma ClaimedPartIsTracked(s: Script, e: Entity)
    ensures Tracked(JobLoaded, ClaimedPart(s, e)).Some?
  {
    OneTracked(JobLoaded, ClaimedRow);
    BodyIsTracked(s, e.sourceUrl, e.spec);
    TrackedConcat(JobLoaded, [ClaimedRow], Body(s, e.sourceUrl, e.spec));
  }

  lemma PrefixIsTracked(pc: JobPc, t: seq<Effect>, p: seq<Effect>)
    requires Tracked(pc, t).Some? && p <= t
    ensures Tracked(pc, p).Some? && Tracked(pc, p + [Released]).Some?
  {
    assert p + t[|p|..] == t;
    TrackedConcat(pc, p, t[|p|..]);
    TrackedConcat(pc, p, [Released]);
    OneTracked(Tracked(pc, p).value, Released);
  }

  lemma BodyIsTracked(s: Script, url: string, spec: DownloadSpec)
    ensures Tracked(JobClaimed, Body(s, url, spec)).Some?
  {
    var head, start := DownloadEffects(s, url, spec), [DirectoryMade, DownloadStarted(url, spec)];
    TrackedConcat(JobClaimed, head, Ending(s).0);
    if s.Downloads() {
      TrackedConcat(JobClaimed, start, Cards(s.progress));
      assert start[1..] == [DownloadStarted(url, spec)] && start[1..][1..] == [];
      CardsKeepPc(JobDownloading, s.progress);
      DeliveryIsTracked(s);
    }
    FailureIsTracked(s, JobClaimed);
    FailureIsTracked(s, JobDownloading);
  }

  lemma OneTracked(pc: JobPc, e: Effect)
    ensures Tracked(pc, [e]) == Track(pc, e)
  {
    assert [e][1..] == [];
  }

  lemma FailureIsTracked(s: Script, pc: JobPc)
    requires pc.JobClaimed? || pc.JobDownloading?
    ensures Tracked(pc, FailRun(s).0).Some?
  {
    var save := Saved(Failed, Some(s.markedAt));
    OneTracked(pc, save);
    OneTracked(JobFinished, Card(FailedCard));
    OneTracked(JobFinished, TextSent);
    TrackedConcat(pc, [save], [Card(FailedCard)]);
    TrackedConcat(pc, [save, Card(FailedCard)], [TextSent]);
    assert [save] + [Card(FailedCard)] == [save, Card(FailedCard)];
    assert [save, Card(FailedCard)] + [TextSent] == [save, Card(FailedCard), TextSent];
  }

  lemma DeliveryIsTracked(s: Script)
    ensures Tracked(JobDownloading, DeliverRun(s).0).Some?
  {
    var up, save, done := Card(UploadingCard), Saved(Done, Some(s.markedAt)), Card(DoneCard);
    OneTracked(JobDownloading, up);
    OneTracked(JobDownloading, FileSent);
    OneTracked(JobSent, save);
    OneTracked(JobFinished, done);
    FailureIsTracked(s, JobDownloading);
    TrackedConcat(JobDownloading, [up], FailRun(s).0);
    TrackedConcat(JobDownloading, [up], [FileSent]);
    TrackedConcat(JobDownloading, [up, FileSent], [save]);
    TrackedConcat(JobDownloading, [up, FileSent, save], [done]);
    assert [up] + [FileSent] == [up, FileSent] && [up, FileSent] + [save] == [up, FileSent, save];
    assert [up, FileSent, save] + [done] == [up, FileSent, save, done];
  }

  // ----- the steps -----

  function EffectSteps(j: JobId, e: Effect, s: Script): seq<WorkerStep> {
    match e
    case ClaimedRow => [ClaimRow(j, s.claimedAt)]
    case DownloadStarted(_, _) => [StartDownload(j)]
    case FileSent => [SendFile(j)]
    case Saved(status, _) => [Settle(j, status, s.markedAt), SaveOutcome(j, s.savedAt)]
    case SavedById => [RecoverRow(j, s.savedAt)]
    case _ => []
  }

  function OwnSteps(j: JobId, t: seq<Effect>, s: Script): (own: seq<WorkerStep>)
    ensures forall i :: 0 <= i < |own| ==> own[i].j == j
  {
    if t == [] then [] else EffectSteps(j, t[0], s) + OwnSteps(j, t[1..], s)
  }

  function StepPc(pc: JobPc, w: WorkerStep): Option<JobPc> {
    match w
    case ClaimRow(_, _) => if pc.JobLoaded? then Some(JobClaimed) else None
    case StartDownload(_) => if pc.JobClaimed? then Some(JobDownloading) else None
    case SendFile(_) => if pc.JobDownloading? then Some(JobSent) else None
    case Settle(_, status, stamp) =>
      if ((pc.JobClaimed? || pc.JobDownloading?) && status == Failed) || (pc.JobSent? && status == Done)
      then Some(JobSettled(status, stamp)) else None
    case SaveOutcome(_, _) => if pc.JobSettled? then Some(JobFinished) else None
    case RecoverRow(_, _) => if pc.JobRecovering? then Some(JobFinished) else None
    case _ => None
  }

  function StepPcs(pc: JobPc, own: seq<WorkerStep>): Option<JobPc>
    decreases |own|
  {
    if own == [] then Some(pc)
    else match StepPc(pc, own[0])
      case None => None
      case Some(next) => StepPcs(next, own[1..])
  }

  lemma {:induction false} StepPcsConcat(pc: JobPc, a: seq<WorkerStep>, b: seq<WorkerStep>)
    ensures StepPcs(pc, a + b) == match StepPcs(pc, a) case None => None case Some(next) => StepPcs(next, b)
    decreases |a|
  {
    if a == [] {
      assert a + b == b;
    } else {
      assert (a + b)[1..] == a[1..] + b;
      match StepPc(pc, a[0])
      case None =>
      case Some(next) => StepPcsConcat(next, a[1..], b);
    }
  }

  lemma EffectMovesAlike(pc: JobPc, j: JobId, e: Effect, s: Script)
    requires Track(pc, e).Some?
    ensures StepPcs(pc, EffectSteps(j, e, s)) == Track(pc, e)
  {
    var own := EffectSteps(j, e, s);
    if e.Saved? {
      var mark, save := own[0], own[1];
      OneStepPc(pc, mark);
      OneStepPc(StepPc(pc, mark).value, save);
      StepPcsConcat(pc, [mark], [save]);
      assert own == [mark] + [save];
    } else if own != [] {
      OneStepPc(pc, own[0]);
      assert own == [own[0]];
    }
  }

  lemma OneStepPc(pc: JobPc, w: WorkerStep)
    ensures StepPcs(pc, [w]) == StepPc(pc, w)
  {
    assert [w][1..] == [];
  }

  lemma {:induction false} OwnStepsMoveAlike(pc: JobPc, j: JobId, t: seq<Effect>, s: Script)
    requires Tracked(pc, t).Some?
    ensures StepPcs(pc, OwnSteps(j, t, s)) == Tracked(pc, t)
    decreases |t|
  {
    if t != [] {
      EffectMovesAlike(pc, j, t[0], s);
      OwnStepsMoveAlike(Track(pc, t[0]).value, j, t[1..], s);
      StepPcsConcat(pc, EffectSteps(j, t[0], s), OwnSteps(j, t[1..], s));
    }
  }

  /** What a worker step writes. */
  function OwnWrite(rows: Table, id: Id, pc: JobPc, w: WorkerStep): Table {
    match w
    case ClaimRow(_, stamp) => Claimed(rows, id, stamp)
    case SaveOutcome(_, stamp) =>
      if id in rows && pc.JobSettled? then Updated(rows, id, pc.status, Some(pc.completedAt), stamp) else rows
    case RecoverRow(_, stamp) => MarkedFailed(rows, id, stamp)
    case _ => rows
  }

  /** The whole system after one of job j's steps. */
  function AfterOwn(st: State, j: JobId, w: WorkerStep): State
    requires j in st.arq.live
  {
    var job := st.arq.live[j];
    var pc := match StepPc(job.pc, w) case None => job.pc case Some(next) => next;
    st.(rows := OwnWrite(st.rows, job.request, job.pc, w),
        arq := st.arq.(live := st.arq.live[j := job.(pc := pc)],
                       downloads := st.arq.downloads + if w.StartDownload? then [job.request] else [],
                       sent := st.arq.sent + if w.SendFile? then {job.request} else {}))
  }

  /** The world lets job j take this step now: it still runs, its clock reading
      is legal, and a claim that is to succeed finds an active row. */
  predicate Fits(cfg: Config, st: State, j: JobId, w: WorkerStep) {
    && Running(cfg, st, j)
    && (match w
        case ClaimRow(_, stamp) => cfg.Reads(st.now, stamp) && Claimable(st.rows, st.arq.live[j].request)
        case RecoverRow(_, stamp) => cfg.Reads(st.now, stamp)
        case Settle(_, _, stamp) => cfg.Reads(st.now, stamp)
        case SaveOutcome(_, stamp) => cfg.Reads(st.now, stamp)
        case _ => true)
  }

  /** Where the program counter allows it, a step of the run is the lifecycle's own
      step: enabled, and leaving exactly what it writes, starts and sends. */
  lemma OwnStepIsEnabled(cfg: Config, st: State, j: JobId, w: WorkerStep)
    requires Fits(cfg, st, j, w) && w.j == j && StepPc(st.arq.live[j].pc, w).Some?
    requires st.arq.live[j].request in st.rows
    ensures WorkerEnabled(cfg, st, w) && WorkerApply(cfg, st, w) == AfterOwn(st, j, w)
  {
    assert st.arq.downloads + [] == st.arq.downloads && st.arq.sent + {} == st.arq.sent;
  }

  /** What an effect does to the table. */
  function TableAfter(rows: Table, id: Id, e: Effect, s: Script): Table {
    match e
    case ClaimedRow => Claimed(rows, id, s.claimedAt)
    case Saved(status, at) => if id in rows then Updated(rows, id, status, at, s.savedAt) else rows
    case SavedById => MarkedFailed(rows, id, s.savedAt)
    case _ => rows
  }

  function AfterOwnAll(st: State, j: JobId, own: seq<WorkerStep>): State
    requires j in st.arq.live
    decreases |own|
  {
    if own == [] then st else AfterOwnAll(AfterOwn(st, j, own[0]), j, own[1..])
  }

  /** The steps of an effect write exactly what the effect wrote. */
  lemma EffectWrites(st: State, j: JobId, e: Effect, s: Script)
    requires j in st.arq.live && Track(st.arq.live[j].pc, e).Some?
    requires e.Saved? ==> e.completedAt == Some(s.markedAt)
    ensures AfterOwnAll(st, j, EffectSteps(j, e, s)).rows == TableAfter(st.rows, st.arq.live[j].request, e, s)
  {
    var own := EffectSteps(j, e, s);
    if e.Saved? {
      var marked := AfterOwn(st, j, own[0]);
      assert own[1..] == [own[1]] && [own[1]][1..] == [];
      assert AfterOwnAll(marked, j, [own[1]]) == AfterOwn(marked, j, own[1]);
    } else if own != [] {
      assert own[1..] == [];
    }
  }

  // ----- the run among everyone else's steps -----

  /** What others do before the run's next step, and where that leads. Time passing
      is one of those steps. */
  datatype Turn = Turn(others: seq<Step>, at: State)

  predicate NotBy(steps: seq<Step>, j: JobId) {
    forall i :: 0 <= i < |steps| && steps[i].WorkerDoes? ==> steps[i].w.j != j
  }

  lemma OtherLeavesJob(cfg: Config, st: State, step: Step, j: JobId, id: Id)
    requires Enabled(cfg, st, step) && (step.WorkerDoes? ==> step.w.j != j)
    requires j in st.arq.live && id in st.rows
    ensures var st' := Apply(cfg, st, step); j in st'.arq.live && st'.arq.live[j] == st.arq.live[j] && id in st'.rows
  {
  }

  lemma {:induction false} OthersLeaveJob(cfg: Config, st: State, steps: seq<Step>, st': State, j: JobId, id: Id)
    requires Leads(cfg, st, steps, st') && NotBy(steps, j) && j in st.arq.live && id in st.rows
    ensures j in st'.arq.live && st'.arq.live[j] == st.arq.live[j] && id in st'.rows
    decreases |steps|
  {
    if steps != [] {
      OtherLeavesJob(cfg, st, steps[0], j, id);
      assert forall i :: 0 <= i < |steps[1..]| ==> steps[1..][i] == steps[i + 1];
      OthersLeaveJob(cfg, Apply(cfg, st, steps[0]), steps[1..], st', j, id);
    }
  }

  /** Before each own step others take any steps of the lifecycle they can, and
      the world then lets job j take its own. */
  ghost predicate Woven(cfg: Config, st: State, j: JobId, own: seq<WorkerStep>, turns: seq<Turn>, st': State)
    decreases |own|
  {
    && |turns| == |own|
    && if own == [] then st' == st
       else
         && Leads(cfg, st, turns[0].others, turns[0].at) && NotBy(turns[0].others, j)
         && Fits(cfg, turns[0].at, j, own[0])
         && Woven(cfg, AfterOwn(turns[0].at, j, own[0]), j, own[1..], turns[1..], st')
  }

  function Weave(own: seq<WorkerStep>, turns: seq<Turn>): seq<Step>
    requires |turns| == |own|
  {
    if own == [] then [] else turns[0].others + ([WorkerDoes(own[0])] + Weave(own[1..], turns[1..]))
  }

  lemma {:induction false} WovenIsARun(
      cfg: Config, st: State, j: JobId, own: seq<WorkerStep>, turns: seq<Turn>, st': State)
    requires Woven(cfg, st, j, own, turns, st') && (forall i :: 0 <= i < |own| ==> own[i].j == j)
    requires j in st.arq.live && StepPcs(st.arq.live[j].pc, own).Some?
    requires own != [] ==> st.arq.live[j].request in st.rows
    ensures Leads(cfg, st, Weave(own, turns), st')
    decreases |own|
  {
    if own != [] {
      var at, id := turns[0].at, st.arq.live[j].request;
      OthersLeaveJob(cfg, st, turns[0].others, at, j, id);
      OwnStepIsEnabled(cfg, at, j, own[0]);
      WovenIsARun(cfg, AfterOwn(at, j, own[0]), j, own[1..], turns[1..], st');
      LeadsMore(cfg, at, WorkerDoes(own[0]), Weave(own[1..], turns[1..]), st');
      LeadsOn(cfg, st, turns[0].others, at, [WorkerDoes(own[0])] + Weave(own[1..], turns[1..]), st');
    }
  }

  function Loaded(st: State, j: JobId): State
    requires j in st.arq.live
  {
    st.(arq := WithPc(st.arq, j, PcAfterLookup(Lookup(st.rows, st.arq.live[j].request))))
  }

  /** Every run of the worker, whole, cancelled or crashed, is part of a run of the
      lifecycle, whatever anyone else does before and between its steps: the
      request is loaded when its turn comes, and each effect that follows is the
      lifecycle's own steps, by the run's own clock readings, on the table the
      others left. So what is proved of the lifecycle covers it. */
  lemma RunIsALifecycleRun(
      cfg: Config, st: State, j: JobId, s: Script, first: Turn, claimable: bool, t: seq<Effect>, exit: Exit,
      turns: seq<Turn>, st': State)
    requires s.Valid() && j in st.arq.live && st.arq.live[j].pc.JobStarted?
    requires Leads(cfg, st, first.others, first.at) && NotBy(first.others, j) && Running(cfg, first.at, j)
    requires st.arq.live[j].request in st.rows
    requires Possible(s, Lookup(first.at.rows, st.arq.live[j].request), claimable, t, exit)
    requires Woven(cfg, Loaded(first.at, j), j, OwnSteps(j, t, s), turns, st')
    ensures Leads(cfg, st, first.others + ([WorkerDoes(LoadRequest(j))] + Weave(OwnSteps(j, t, s), turns)), st')
  {
    var id := st.arq.live[j].request;
    OthersLeaveJob(cfg, st, first.others, first.at, j, id);
    var found := Lookup(first.at.rows, id);
    var loaded := Loaded(first.at, j);
    LoadedIsAt(cfg, first.at, j);
    RunFollowsTheLifecycle(s, found, claimable, t, exit);
    OwnStepsMoveAlike(PcAfterLookup(found), j, t, s);
    WovenIsARun(cfg, loaded, j, OwnSteps(j, t, s), turns, st');
    LeadsMore(cfg, first.at, WorkerDoes(LoadRequest(j)), Weave(OwnSteps(j, t, s), turns), st');
    LeadsOn(cfg, st, first.others, first.at, [WorkerDoes(LoadRequest(j))] + Weave(OwnSteps(j, t, s), turns), st');
  }

  lemma LoadedIsAt(cfg: Config, st: State, j: JobId)
    requires WorkerEnabled(cfg, st, LoadRequest(j))
    ensures WorkerApply(cfg, st, LoadRequest(j)) == Loaded(st, j)
  {
    LookupIsExact(st.rows, st.arq.live[j].request);
  }

  /** Every save of a run carries the instant its entity was marked. */
  lemma SavesAreMarked(s: Script, found: Found, claimable: bool, t: seq<Effect>, exit: Exit)
    requires s.Valid() && Possible(s, found, claimable, t, exit)
    ensures forall e :: e in t && e.Saved? ==> e.completedAt == Some(s.markedAt)
  {
    if Claims(s, found, claimable) {
      OutcomeIsOrdered(s, found, claimable, t, exit);
      assert forall i :: 0 <= i < |t| && t[i].Saved? ==> t[i].completedAt == Some(s.markedAt);
    } else {
      UnclaimedRunLeavesNoTrace(s, found, claimable, t, exit);
      assert forall e :: e in t ==> e in [SavedById, Card(FailedCard), TextSent];
    }
  }
}
