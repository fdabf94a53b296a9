/** One run of the worker's use case: the order of its effects on every path,
    exceptions and cancellation included
    (src/application/use_cases/process_download.py). */
module ProcessDownload {
  import opened Wrappers
  import opened DownloadSpecs
  import opened Requests

  datatype CardPhase = DownloadingCard | ConvertingCard | UploadingCard | DoneCard | FailedCard {
    predicate Progress() {
      DownloadingCard? || ConvertingCard?
    }

    predicate Final() {
      DoneCard? || FailedCard?
    }

    /** The name it is published under. */
    function Name(): string {
      match this
      case DownloadingCard => "downloading"
      case ConvertingCard => "converting"
      case UploadingCard => "uploading"
      case DoneCard => "done"
      case FailedCard => "failed"
    }

    /** The orders a card's phases may come in. */
    predicate Precedes(next: CardPhase) {
      Progress() || (UploadingCard? && next.Final())
    }
  }

  /** An effect that happened. `Card` is an attempt to publish: a phase that
      cannot be published is logged and ignored. `ClaimedRow` is a claim that
      moved the row. */
  datatype Effect =
    | ClaimedRow
    | DirectoryMade
    | DownloadStarted(url: string, spec: DownloadSpec)
    | Card(phase: CardPhase)
    | FileSent
    | Saved(status: Status, completedAt: Option<int>)   // update
    | SavedById                                         // mark_failed_by_id
    | TextSent
    | Released
  {
    predicate TouchesStorage() {
      DirectoryMade? || DownloadStarted? || Released?
    }

    predicate Saves() {
      Saved? || SavedById?
    }

    /** Sending, saving, telling: what the end of a run is made of. */
    predicate Telling() {
      FileSent? || Saved? || TextSent? || (Card? && !phase.Progress())
    }

    /** Neither a save nor anything a save is ordered against. */
    predicate Quiet() {
      !Saves() && !FileSent? && !Released? && !(Card? && phase.Final())
    }
  }

  /** `Escaped`: an exception or a cancel leaves `execute`. `Crashed`: the worker
      died in the middle of it. */
  datatype Exit = Returned | Escaped | Crashed

  type Run = (seq<Effect>, Exit)

  /** `Categorized`: one of the exceptions `_process` catches. */
  datatype DownloadOutcome = Downloaded | Categorized | DownloadEscapes
  datatype SendOutcome = Sent | NotifierRaises | SendEscapes

  /** What the run's surroundings do: each port call returns or raises.
      `available` is None when asking for free space raises; `progress` are the
      snapshots published while the download ran. */
  datatype Script = Script(
    userReachable: bool,
    minFreeDisk: nat, available: Option<int>,
    mkdirWorks: bool,
    progress: seq<CardPhase>, download: DownloadOutcome,
    send: SendOutcome,
    updateWorks: bool, textWorks: bool,
    claimedAt: int, markedAt: int, savedAt: int)
  {
    ghost predicate Valid() {
      forall i :: 0 <= i < |progress| ==> progress[i].Progress()
    }

    predicate CheckRaises() {
      minFreeDisk != 0 && available.None?
    }

    predicate LowOnDisk() {
      minFreeDisk != 0 && available.Some? && available.value < minFreeDisk
    }

    predicate Downloads() {
      !CheckRaises() && !LowOnDisk() && mkdirWorks
    }
  }

  function Cards(phases: seq<CardPhase>): seq<Effect> {
    seq(|phases|, i requires 0 <= i < |phases| => Card(phases[i]))
  }

  // ----- the specification: effects and exit of each part -----

  function FailRun(s: Script): Run {
    if !s.updateWorks then ([], Escaped)
    else if !s.textWorks then ([Saved(Failed, Some(s.markedAt)), Card(FailedCard)], Escaped)
    else ([Saved(Failed, Some(s.markedAt)), Card(FailedCard), TextSent], Returned)
  }

  /** From a finished download on. */
  function DeliverRun(s: Script): Run {
    match s.send
    case SendEscapes => ([Card(UploadingCard)], Escaped)
    case NotifierRaises => ([Card(UploadingCard)] + FailRun(s).0, FailRun(s).1)
    case Sent =>
      if !s.updateWorks then ([Card(UploadingCard), FileSent], Escaped)
      else ([Card(UploadingCard), FileSent, Saved(Done, Some(s.markedAt)), Card(DoneCard)], Returned)
  }

  function DownloadEffects(s: Script, url: string, spec: DownloadSpec): seq<Effect> {
    if s.Downloads() then [DirectoryMade, DownloadStarted(url, spec)] + Cards(s.progress) else []
  }

  /** What follows the download, or replaces it. */
  function Ending(s: Script): Run {
    if s.CheckRaises() then ([], Escaped)
    else if s.LowOnDisk() then FailRun(s)
    else if !s.mkdirWorks then ([], Escaped)
    else match s.download
      case DownloadEscapes => ([], Escaped)
      case Categorized => FailRun(s)
      case Downloaded => DeliverRun(s)
  }

  function Body(s: Script, url: string, spec: DownloadSpec): seq<Effect> {
    DownloadEffects(s, url, spec) + Ending(s).0
  }

  function RecoveryRun(s: Script): Run {
    if !s.updateWorks then ([], Escaped)
    else if !s.userReachable then ([SavedById], Returned)
    else if !s.textWorks then ([SavedById, Card(FailedCard)], Escaped)
    else ([SavedById, Card(FailedCard), TextSent], Returned)
  }

  predicate AttemptsClaim(s: Script, found: Found) {
    found.Success? && found.value.Some? && s.userReachable
  }

  predicate Claims(s: Script, found: Found, claimable: bool) {
    AttemptsClaim(s, found) && claimable
  }

  /** `execute`, given what the read found and whether the row was still active
      when it was claimed. */
  function ExecuteRun(s: Script, found: Found, claimable: bool): Run {
    if found.Failure? then RecoveryRun(s)
    else if !Claims(s, found, claimable) then ([], Returned)
    else ([ClaimedRow] + Body(s, found.value.value.sourceUrl, found.value.value.spec) + [Released], Ending(s).1)
  }

  /** A cancelled run stops after any effect. Once past the claim it still
      releases; a cancel that lands in the claim's own call does not get there. */
  ghost predicate CancelledRun(s: Script, found: Found, claimable: bool, t: seq<Effect>) {
    if Claims(s, found, claimable) then
      || t <= [ClaimedRow]
      || exists done :: done <= Body(s, found.value.value.sourceUrl, found.value.value.spec)
           && t == [ClaimedRow] + done + [Released]
    else t <= ExecuteRun(s, found, claimable).0
  }

  /** Everything a run can be: whole, cancelled anywhere, or crashed anywhere. */
  ghost predicate Possible(s: Script, found: Found, claimable: bool, t: seq<Effect>, exit: Exit) {
    || (t, exit) == ExecuteRun(s, found, claimable)
    || (exit == Escaped && CancelledRun(s, found, claimable, t))
    || (exit == Crashed && t <= ExecuteRun(s, found, claimable).0)
  }

  type Write = (Table, Table)

  /** Every outcome among the effects is exactly what the run's last write wrote. */
  ghost predicate Persisted(effects: seq<Effect>, s: Script, writes: seq<Write>, id: Id) {
    forall status, at :: Saved(status, at) in effects ==>
      && writes != [] && id in writes[|writes| - 1].0
      && writes[|writes| - 1].1 == Updated(writes[|writes| - 1].0, id, status, at, s.savedAt)
  }

  // ----- the use case -----

  class ProcessDownloadUseCase {
    const repository: DownloadRequestRepository
    var trace: seq<Effect>
    /** This run's own writes to the table, each as the table before and after. */
    ghost var writes: seq<Write>

    constructor (repository: DownloadRequestRepository)
      ensures this.repository == repository && trace == [] && writes == []
    {
      this.repository := repository;
      trace, writes := [], [];
    }

    /** Anything other processes write between two calls; no row is deleted. */
    method OthersWrite()
      modifies repository
      ensures old(repository.rows).Keys <= repository.rows.Keys
    {
      var written: Table := *;
      repository.rows := repository.rows + written;
    }

    method Emit(e: Effect)
      modifies this`trace
      ensures trace == old(trace) + [e]
    {
      trace := trace + [e];
    }

    /** `update`, which may raise. */
    method Save(request: DownloadRequest, s: Script) returns (ok: bool)
      requires request.id in repository.rows
      modifies this, repository
      ensures ok == s.updateWorks
      ensures trace == old(trace) + if ok then [Saved(request.status, request.completedAt)] else []
      ensures repository.rows
              == if ok then Updated(old(repository.rows), request.id, request.status, request.completedAt, s.savedAt)
                 else old(repository.rows)
      ensures writes == old(writes) + if ok then [(old(repository.rows), repository.rows)] else []
    {
      ok := s.updateWorks;
      if ok {
        var found := repository.Update(request, s.savedAt);
        writes := writes + [(old(repository.rows), repository.rows)];
        Emit(Saved(request.status, request.completedAt));
      }
    }

    method SendText(s: Script) returns (ok: bool)
      modifies this`trace
      ensures ok == s.textWorks
      ensures trace == old(trace) + if ok then [TextSent] else []
    {
      ok := s.textWorks;
      if ok {
        Emit(TextSent);
      }
    }

    /** `_fail`. */
    method Fail(request: DownloadRequest, s: Script) returns (exit: Exit)
      requires request.id in repository.rows
      modifies this, repository, request
      ensures trace == old(trace) + FailRun(s).0 && exit == FailRun(s).1
      ensures Persisted(FailRun(s).0, s, writes, request.id)
      ensures old(writes) <= writes
    {
      request.MarkFailed(s.markedAt);
      OthersWrite();
      var saved := Save(request, s);
      if !saved {
        return Escaped;
      }
      OthersWrite();
      Emit(Card(FailedCard));
      var told := SendText(s);
      return if told then Returned else Escaped;
    }

    /** The downloader port: it starts, then calls back once per snapshot. */
    method Download(s: Script, url: string, spec: DownloadSpec) returns (outcome: DownloadOutcome)
      modifies this`trace
      ensures outcome == s.download
      ensures trace == old(trace) + [DownloadStarted(url, spec)] + Cards(s.progress)
    {
      Emit(DownloadStarted(url, spec));
      for i := 0 to |s.progress|
        invariant trace == old(trace) + [DownloadStarted(url, spec)] + Cards(s.progress[..i])
      {
        Emit(Card(s.progress[i]));
        assert Cards(s.progress[..i + 1]) == Cards(s.progress[..i]) + [Card(s.progress[i])];
      }
      assert s.progress[..|s.progress|] == s.progress;
      return s.download;
    }

    method Deliver(request: DownloadRequest, s: Script) returns (exit: Exit)
      requires request.id in repository.rows
      modifies this, repository, request
      ensures trace == old(trace) + DeliverRun(s).0 && exit == DeliverRun(s).1
      ensures Persisted(DeliverRun(s).0, s, writes, request.id)
      ensures old(writes) <= writes
    {
      Emit(Card(UploadingCard));
      match s.send {
        case SendEscapes =>
          return Escaped;
        case NotifierRaises =>
          exit := Fail(request, s);
          return;
        case Sent =>
      }
      Emit(FileSent);
      request.MarkDone(s.markedAt);
      OthersWrite();
      var saved := Save(request, s);
      if !saved {
        return Escaped;
      }
      OthersWrite();
      Emit(Card(DoneCard));
      return Returned;
    }

    /** `_process`. */
    method Process(request: DownloadRequest, s: Script) returns (exit: Exit)
      requires request.id in repository.rows
      modifies this, repository, request
      ensures trace == old(trace) + Body(s, request.sourceUrl, request.spec) && exit == Ending(s).1
      ensures Persisted(Ending(s).0, s, writes, request.id)
      ensures old(writes) <= writes
    {
      if s.minFreeDisk != 0 {
        if s.available.None? {
          return Escaped;
        }
        if s.available.value < s.minFreeDisk {
          exit := Fail(request, s);
          return;
        }
      }
      if !s.mkdirWorks {
        return Escaped;
      }
      Emit(DirectoryMade);
      var outcome := Download(s, request.sourceUrl, request.spec);
      assert trace == old(trace) + DownloadEffects(s, request.sourceUrl, request.spec);
      match outcome {
        case DownloadEscapes =>
          return Escaped;
        case Categorized =>
          exit := Fail(request, s);
          assert trace == old(trace) + Body(s, request.sourceUrl, request.spec);
          return;
        case Downloaded =>
          exit := Deliver(request, s);
          assert trace == old(trace) + Body(s, request.sourceUrl, request.spec);
      }
    }

    /** `_report_corrupted_record`. */
    method ReportCorruptedRecord(error: CorruptedRecord, s: Script) returns (exit: Exit)
      modifies this, repository
      ensures trace == old(trace) + RecoveryRun(s).0 && exit == RecoveryRun(s).1
      ensures writes == old(writes) + if s.updateWorks then
                                        var rows := old(repository.rows);
                                        [(rows, MarkedFailed(rows, error.requestId, s.savedAt))]
                                      else []
    {
      if !s.updateWorks {
        return Escaped;
      }
      repository.MarkFailedById(error.requestId, s.savedAt);
      writes := writes + [(old(repository.rows), repository.rows)];
      Emit(SavedById);
      OthersWrite();
      if !s.userReachable {
        return Returned;
      }
      Emit(Card(FailedCard));
      var told := SendText(s);
      return if told then Returned else Escaped;
    }

    /** What follows a successful claim, the `finally` included. */
    method ProcessAndRelease(request: DownloadRequest, s: Script) returns (exit: Exit)
      requires request.id in repository.rows
      modifies this, repository, request
      ensures trace == old(trace) + ([ClaimedRow] + Body(s, request.sourceUrl, request.spec) + [Released])
      ensures exit == Ending(s).1
      ensures Persisted(Ending(s).0, s, writes, request.id)
      ensures old(writes) <= writes
    {
      Emit(ClaimedRow);
      request.MarkProcessing();
      OthersWrite();
      exit := Process(request, s);
      OthersWrite();
      Emit(Released);
    }

    /** The claim of a row, one of this run's writes. */
    method Claim(id: Id, s: Script) returns (claimed: bool)
      modifies this`writes, repository
      ensures claimed <==> Claimable(old(repository.rows), id)
      ensures repository.rows == Claimed(old(repository.rows), id, s.claimedAt)
      ensures writes == old(writes) + [(old(repository.rows), repository.rows)]
    {
      claimed := repository.ClaimForProcessing(id, s.claimedAt);
      writes := writes + [(old(repository.rows), repository.rows)];
    }

    /** `execute`: `rows` is the table when the claim is made. Rows written by
        others since the read are in it, and the claim is this run's first write. */
    method Execute(id: Id, s: Script) returns (ghost rows: Table, exit: Exit)
      modifies this, repository
      ensures var run := ExecuteRun(s, Lookup(old(repository.rows), id), Claimable(rows, id));
              trace == old(trace) + run.0 && exit == run.1
      ensures old(repository.rows).Keys <= rows.Keys
      ensures AttemptsClaim(s, Lookup(old(repository.rows), id)) ==>
                |writes| > |old(writes)| && writes[|old(writes)|] == (rows, Claimed(rows, id, s.claimedAt))
      ensures Claims(s, Lookup(old(repository.rows), id), Claimable(rows, id)) ==>
                Persisted(Ending(s).0, s, writes, id)
    {
      rows := repository.rows;
      var found := repository.GetById(id);
      OthersWrite();
      if found.Failure? {
        exit := ReportCorruptedRecord(found.error, s);
        return;
      }
      if found.value.None? || !s.userReachable {
        return rows, Returned;
      }
      var request := new DownloadRequest(found.value.value);
      rows := repository.rows;
      var claimed := Claim(request.id, s);
      if !claimed {
        return rows, Returned;
      }
      exit := ProcessAndRelease(request, s);
    }
  }

  // ----- what every run keeps -----

  /** The claim and what follows it, up to the release. */
  function ClaimedPart(s: Script, e: Entity): seq<Effect> {
    [ClaimedRow] + Body(s, e.sourceUrl, e.spec)
  }

  function ReleaseIf(released: bool): seq<Effect> {
    if released then [Released] else []
  }

  /** Every run that may claim is part of its claim and body, all of it when
      nothing cut it short, and then the release unless it was cut before there
      was anything to release or crashed. */
  lemma ClaimedRunParts(s: Script, found: Found, claimable: bool, t: seq<Effect>, exit: Exit)
    returns (p: seq<Effect>, released: bool)
    requires Possible(s, found, claimable, t, exit) && Claims(s, found, claimable)
    ensures p <= ClaimedPart(s, found.value.value) && t == p + ReleaseIf(released)
    ensures released ==> p != []
    ensures exit == Returned ==> released && p == ClaimedPart(s, found.value.value) && Ending(s).1 == Returned
    ensures exit == Escaped ==> released || |p| <= 1
  {
    var whole := ClaimedPart(s, found.value.value);
    if (t, exit) == ExecuteRun(s, found, claimable) || t == whole + [Released] {
      return whole, true;
    }
    if exit == Crashed || t <= [ClaimedRow] {
      return t, false;
    }
    var done :| done <= Body(s, found.value.value.sourceUrl, found.value.value.spec)
                && t == [ClaimedRow] + done + [Released];
    return [ClaimedRow] + done, true;
  }

  /** Progress, then FAILED, or UPLOADING and then DONE or FAILED. */
  ghost predicate CardsInOrder(t: seq<Effect>) {
    && (forall i, j :: 0 <= i < j < |t| && t[i].Card? && t[j].Card? ==> t[i].phase.Precedes(t[j].phase))
    && (forall i :: 0 <= i < |t| && t[i] == Card(DoneCard) ==> Card(UploadingCard) in t[..i])
  }

  /** What a save and a final card have before them. */
  ghost predicate Disciplined(t: seq<Effect>, s: Script) {
    && (forall i :: 0 <= i < |t| && t[i].Card? && t[i].phase.Final() ==>
          i > 0 && t[i - 1] == Saved(if t[i].phase.DoneCard? then Done else Failed, Some(s.markedAt)))
    && (forall i :: 0 <= i < |t| && t[i].Saved? ==>
          && t[i].completedAt == Some(s.markedAt)
          && ((t[i].status == Done && FileSent in t[..i]) || (t[i].status == Failed && FileSent !in t)))
    && (forall i, j :: 0 <= i < j < |t| && t[i].Saves() ==> !t[j].Saves())
    && (forall i :: 0 <= i < |t| ==> !t[i].SavedById?)
  }

  ghost predicate IsQuiet(head: seq<Effect>) {
    forall i :: 0 <= i < |head| ==> head[i].Quiet()
  }

  /** Quiet effects whose cards are all progress. */
  ghost predicate IsPreamble(head: seq<Effect>) {
    IsQuiet(head) && forall i :: 0 <= i < |head| && head[i].Card? ==> head[i].phase.Progress()
  }

  lemma QuietHeadIsDisciplined(head: seq<Effect>, tail: seq<Effect>, s: Script)
    requires IsQuiet(head) && Disciplined(tail, s)
    ensures Disciplined(head + tail, s)
  {
    var t := head + tail;
    assert forall i :: 0 <= i < |head| ==> t[i] == head[i];
    assert forall i :: |head| <= i <= |t| ==> t[..i] == head + tail[..i - |head|];
  }

  lemma FailIsDisciplined(s: Script)
    ensures Disciplined(FailRun(s).0, s) && FileSent !in FailRun(s).0
  {
  }

  lemma SentIsDisciplined(s: Script)
    ensures Disciplined([FileSent], s)
    ensures Disciplined([FileSent, Saved(Done, Some(s.markedAt)), Card(DoneCard)], s)
  {
    var sent := [FileSent, Saved(Done, Some(s.markedAt)), Card(DoneCard)];
    assert sent[..1] == [FileSent];
  }

  lemma DeliveryIsDisciplined(s: Script)
    ensures Disciplined(DeliverRun(s).0, s)
  {
    FailIsDisciplined(s);
    SentIsDisciplined(s);
    var tail := match s.send
      case SendEscapes => []
      case NotifierRaises => FailRun(s).0
      case Sent => if s.updateWorks then [FileSent, Saved(Done, Some(s.markedAt)), Card(DoneCard)] else [FileSent];
    QuietHeadIsDisciplined([Card(UploadingCard)], tail, s);
    assert DeliverRun(s).0 == [Card(UploadingCard)] + tail;
  }

  lemma EndingIsDisciplined(s: Script)
    ensures Disciplined(Ending(s).0, s)
  {
    FailIsDisciplined(s);
    DeliveryIsDisciplined(s);
  }

  lemma EndingIsQuietOtherwise(s: Script)
    ensures forall i :: 0 <= i < |Ending(s).0| ==> !Ending(s).0[i].Released? && !Ending(s).0[i].DownloadStarted?
  {
  }

  lemma EndingCardsInOrder(s: Script)
    ensures CardsInOrder(Ending(s).0)
    ensures Ending(s).1 == Returned ==> exists p: CardPhase :: p.Final() && Card(p) in Ending(s).0
  {
    var sent := [Card(UploadingCard), FileSent, Saved(Done, Some(s.markedAt)), Card(DoneCard)];
    assert sent[..3][0] == Card(UploadingCard);
    if Ending(s).1 == Returned {
      var p := if s.Downloads() && s.download == Downloaded && s.send == Sent then DoneCard else FailedCard;
      assert p.Final() && Card(p) in Ending(s).0;
    }
  }

  lemma PreambleKeepsCardOrder(head: seq<Effect>, tail: seq<Effect>)
    requires IsPreamble(head) && CardsInOrder(tail)
    ensures CardsInOrder(head + tail)
  {
    var t := head + tail;
    assert forall i :: 0 <= i < |head| ==> t[i] == head[i];
    assert forall i :: |head| <= i <= |t| ==> t[..i] == head + tail[..i - |head|];
  }

  lemma PrefixIsDisciplined(t: seq<Effect>, p: seq<Effect>, s: Script)
    requires Disciplined(t, s) && p <= t
    ensures Disciplined(p, s) && Disciplined(p + [Released], s)
  {
    assert forall i :: 0 <= i <= |p| ==> (p + [Released])[..i] == t[..i] == p[..i];
    if FileSent !in t {
      assert FileSent !in p;
    }
  }

  lemma PrefixKeepsCardOrder(t: seq<Effect>, p: seq<Effect>)
    requires CardsInOrder(t) && p <= t
    ensures CardsInOrder(p) && CardsInOrder(p + [Released])
  {
    assert forall i :: 0 <= i <= |p| ==> (p + [Released])[..i] == t[..i] == p[..i];
  }

  lemma DownloadIsPreamble(s: Script, url: string, spec: DownloadSpec)
    requires s.Valid()
    ensures IsPreamble([ClaimedRow] + DownloadEffects(s, url, spec))
    ensures StartsOnly([ClaimedRow] + DownloadEffects(s, url, spec), url, spec)
  {
  }

  lemma ClaimedCardsInOrder(s: Script, e: Entity)
    requires s.Valid()
    ensures CardsInOrder(ClaimedPart(s, e))
    ensures Ending(s).1 == Returned ==> exists p: CardPhase :: p.Final() && Card(p) in ClaimedPart(s, e)
  {
    var head := [ClaimedRow] + DownloadEffects(s, e.sourceUrl, e.spec);
    assert ClaimedPart(s, e) == head + Ending(s).0;
    EndingCardsInOrder(s);
    DownloadIsPreamble(s, e.sourceUrl, e.spec);
    PreambleKeepsCardOrder(head, Ending(s).0);
  }

  /** The card of a claimed run only moves forward, and a run that returns
      leaves it in a final phase. */
  lemma CardMovesForward(s: Script, found: Found, claimable: bool, t: seq<Effect>, exit: Exit)
    requires s.Valid() && Possible(s, found, claimable, t, exit) && Claims(s, found, claimable)
    ensures CardsInOrder(t)
    ensures exit == Returned ==> exists p: CardPhase :: p.Final() && Card(p) in t
  {
    var p, released := ClaimedRunParts(s, found, claimable, t, exit);
    ClaimedCardsInOrder(s, found.value.value);
    PrefixKeepsCardOrder(ClaimedPart(s, found.value.value), p);
    assert p + [] == p;
  }

  /** The order of a claimed run's outcome: a final card comes right after its
      save; DONE is saved only after `send_file` returned and FAILED only when
      it never did; there is at most one save; what is downloaded is the stored
      link as the stored spec; and the release is last, at most once, and never
      missing past the claim unless the worker crashed. */
  lemma OutcomeIsOrdered(s: Script, found: Found, claimable: bool, t: seq<Effect>, exit: Exit)
    requires s.Valid() && Possible(s, found, claimable, t, exit) && Claims(s, found, claimable)
    ensures Disciplined(t, s)
    ensures StartsOnly(t, found.value.value.sourceUrl, found.value.value.spec)
    ensures forall i :: 0 <= i < |t| && t[i].Released? ==> i == |t| - 1
    ensures exit != Crashed && |t| > 1 ==> t[|t| - 1] == Released
    ensures exit == Returned ==> |t| > 1
  {
    var p, released := ClaimedRunParts(s, found, claimable, t, exit);
    ClaimedOutcome(s, found.value.value, p);
    assert p + [] == p;
    assert forall i :: 0 <= i < |p| ==> t[i] == p[i];
  }

  /** The claim and the body as a preamble and an ending. */
  lemma BodyParts(s: Script, url: string, spec: DownloadSpec) returns (head: seq<Effect>, tail: seq<Effect>)
    requires s.Valid()
    ensures [ClaimedRow] + Body(s, url, spec) == head + tail
    ensures IsPreamble(head) && StartsOnly(head, url, spec) && Disciplined(tail, s)
    ensures forall i :: 0 <= i < |tail| ==> !tail[i].Released? && !tail[i].DownloadStarted?
  {
    head, tail := [ClaimedRow] + DownloadEffects(s, url, spec), Ending(s).0;
    EndingIsDisciplined(s);
    EndingIsQuietOtherwise(s);
    DownloadIsPreamble(s, url, spec);
  }

  lemma ClaimedOutcome(s: Script, e: Entity, p: seq<Effect>)
    requires s.Valid() && p <= ClaimedPart(s, e)
    ensures Disciplined(p, s) && Disciplined(p + [Released], s)
    ensures StartsOnly(p, e.sourceUrl, e.spec) && StartsOnly(p + [Released], e.sourceUrl, e.spec)
    ensures forall i :: 0 <= i < |p| ==> !p[i].Released?
  {
    var head, tail := BodyParts(s, e.sourceUrl, e.spec);
    OutcomeOfParts(head, tail, p, s, e.sourceUrl, e.spec);
  }

  ghost predicate StartsOnly(t: seq<Effect>, url: string, spec: DownloadSpec) {
    forall i :: 0 <= i < |t| && t[i].DownloadStarted? ==> t[i] == DownloadStarted(url, spec)
  }

  lemma OutcomeOfParts(
      head: seq<Effect>, tail: seq<Effect>, done: seq<Effect>, s: Script, url: string, spec: DownloadSpec)
    requires IsPreamble(head) && StartsOnly(head, url, spec) && Disciplined(tail, s)
    requires forall i :: 0 <= i < |tail| ==> !tail[i].Released? && !tail[i].DownloadStarted?
    requires done <= head + tail
    ensures Disciplined(done, s) && Disciplined(done + [Released], s)
    ensures StartsOnly(done, url, spec) && StartsOnly(done + [Released], url, spec)
    ensures forall i :: 0 <= i < |done| ==> !done[i].Released?
  {
    QuietHeadIsDisciplined(head, tail, s);
    PrefixIsDisciplined(head + tail, done, s);
    assert forall i :: 0 <= i < |done| ==> done[i] == if i < |head| then head[i] else tail[i - |head|];
  }

  // ----- which outcome follows which script -----

  /** The check is off, or the free space is known and enough. */
  predicate SpaceSuffices(s: Script) {
    s.minFreeDisk == 0 || (s.available.Some? && s.available.value >= s.minFreeDisk)
  }

  predicate SpaceIsShort(s: Script) {
    s.minFreeDisk != 0 && s.available.Some? && s.available.value < s.minFreeDisk
  }

  predicate Delivers(s: Script) {
    SpaceSuffices(s) && s.mkdirWorks && s.download == Downloaded && s.send == Sent
  }

  /** The three failures that are reported: no space, a categorized download
      error, a notifier that could not deliver. */
  predicate Fails(s: Script) {
    || SpaceIsShort(s)
    || (SpaceSuffices(s) && s.mkdirWorks
        && (s.download == Categorized || (s.download == Downloaded && s.send == NotifierRaises)))
  }

  /** The effects and the exit are those the script calls for. A file is sent, and
      DONE saved, exactly after a download that returned and a send that did;
      FAILED is saved exactly for the reported failures; anything else escapes. */
  ghost predicate FollowsScript(t: seq<Effect>, exit: Exit, s: Script) {
    && (FileSent in t <==> Delivers(s))
    && (Card(UploadingCard) in t <==> SpaceSuffices(s) && s.mkdirWorks && s.download == Downloaded)
    && (forall at :: Saved(Done, at) in t <==> Delivers(s) && s.updateWorks && at == Some(s.markedAt))
    && (forall at :: Saved(Failed, at) in t <==> Fails(s) && s.updateWorks && at == Some(s.markedAt))
    && (Card(DoneCard) in t <==> Delivers(s) && s.updateWorks)
    && (Card(FailedCard) in t <==> Fails(s) && s.updateWorks)
    && (TextSent in t <==> Fails(s) && s.updateWorks && s.textWorks)
    && (exit == Returned <==> s.updateWorks && (Delivers(s) || (Fails(s) && s.textWorks)))
    && exit != Crashed
  }

  lemma EndingIsExact(s: Script)
    ensures FollowsScript(Ending(s).0, Ending(s).1, s)
  {
  }

  /** `FollowsScript` looks at nothing but what a run tells. */
  lemma SameTellings(t: seq<Effect>, t': seq<Effect>, exit: Exit, s: Script)
    requires FollowsScript(t, exit, s) && forall x: Effect :: x.Telling() ==> (x in t' <==> x in t)
    ensures FollowsScript(t', exit, s)
  {
  }

  lemma InBody(s: Script, url: string, spec: DownloadSpec, e: Effect)
    requires s.Valid() && e.Telling()
    ensures e in Body(s, url, spec) <==> e in Ending(s).0
  {
    assert forall i :: 0 <= i < |DownloadEffects(s, url, spec)| ==> DownloadEffects(s, url, spec)[i] != e;
  }

  lemma WholeRunTells(s: Script, e: Entity)
    requires s.Valid() && s.userReachable
    ensures forall x: Effect :: x.Telling() ==> (x in ExecuteRun(s, Success(Some(e)), true).0 <==> x in Ending(s).0)
  {
    forall x: Effect | x.Telling()
      ensures x in ExecuteRun(s, Success(Some(e)), true).0 <==> x in Ending(s).0
    {
      InBody(s, e.sourceUrl, e.spec, x);
      InMiddle(ClaimedRow, Body(s, e.sourceUrl, e.spec), Released, x);
    }
  }

  lemma InMiddle(first: Effect, middle: seq<Effect>, last: Effect, x: Effect)
    requires x != first && x != last
    ensures x in [first] + middle + [last] <==> x in middle
  {
  }

  /** A whole run over an active row claims it, does what its script calls for,
      and releases. */
  lemma OutcomeIsExact(s: Script, e: Entity)
    requires s.Valid() && s.userReachable
    ensures var (t, exit) := ExecuteRun(s, Success(Some(e)), true);
            FollowsScript(t, exit, s) && |t| >= 2 && t[0] == ClaimedRow && t[|t| - 1] == Released
  {
    EndingIsExact(s);
    WholeRunTells(s, e);
    SameTellings(Ending(s).0, ExecuteRun(s, Success(Some(e)), true).0, Ending(s).1, s);
  }

  /** The download starts exactly when space and directory allow, right after the
      claim, on the stored link and spec, and every snapshot it reports becomes a
      card, in order. */
  lemma DownloadIsExact(s: Script, e: Entity)
    requires s.Valid() && s.userReachable
    ensures var t := ExecuteRun(s, Success(Some(e)), true).0;
            && ((exists x: Effect :: x in t && x.DownloadStarted?) <==> SpaceSuffices(s) && s.mkdirWorks)
            && (DirectoryMade in t <==> SpaceSuffices(s) && s.mkdirWorks)
            && (SpaceSuffices(s) && s.mkdirWorks ==>
                  && |t| > 3 + |s.progress|
                  && t[..3] == [ClaimedRow, DirectoryMade, DownloadStarted(e.sourceUrl, e.spec)]
                  && forall i :: 0 <= i < |s.progress| ==> t[3 + i] == Card(s.progress[i]))
  {
    var t := ExecuteRun(s, Success(Some(e)), true).0;
    EndingIsQuietOtherwise(s);
    if SpaceSuffices(s) && s.mkdirWorks {
      assert t[1] == DirectoryMade && t[2] == DownloadStarted(e.sourceUrl, e.spec);
      assert t[2] in t;
    } else {
      assert t == [ClaimedRow] + Ending(s).0 + [Released];
    }
  }

  /** What a whole run does with a row it cannot read or may not claim. */
  lemma OtherwiseIsExact(s: Script, found: Found, claimable: bool)
    ensures found.Failure? ==>
              var (t, exit) := ExecuteRun(s, found, claimable);
              && (SavedById in t <==> s.updateWorks)
              && (Card(FailedCard) in t <==> s.updateWorks && s.userReachable)
              && (exit == Returned <==> s.updateWorks && (s.userReachable ==> s.textWorks))
    ensures found.Success? && (found.value.None? || !s.userReachable || !claimable) ==>
              ExecuteRun(s, found, claimable) == ([], Returned)
  {
  }

  /** A run that claims nothing touches no storage and delivers nothing; unless
      the row was unreadable it has no effect at all, and on an unreadable row it
      at most marks it failed, moves the card and sends one text. */
  lemma UnclaimedRunLeavesNoTrace(s: Script, found: Found, claimable: bool, t: seq<Effect>, exit: Exit)
    requires Possible(s, found, claimable, t, exit) && !Claims(s, found, claimable)
    ensures forall e :: e in t ==> !e.TouchesStorage() && !e.FileSent?
    ensures found.Success? ==> t == []
    ensures found.Failure? ==> t <= [SavedById, Card(FailedCard), TextSent]
  {
    var full := ExecuteRun(s, found, claimable).0;
    assert t <= full;
    assert forall e :: e in t ==> e in full;
  }

  /** An unclaimed run that nothing cuts short sends its one text exactly when
      the row was unreadable, could be marked, and its user can be told. */
  lemma UnclaimedTextIsExact(s: Script, found: Found, claimable: bool)
    requires !Claims(s, found, claimable)
    ensures TextSent in ExecuteRun(s, found, claimable).0
            <==> found.Failure? && s.updateWorks && s.userReachable && s.textWorks
  {
  }
}
