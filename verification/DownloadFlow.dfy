/** The bot's side: from a link to a preview card, and from a tap on the card to
    a committed row and a queued job
    (src/application/use_cases/request_download.py,
    src/presentation/telegram/handlers/download_flow.py). A handler runs here
    without interruption; its interleavings with everything else are Lifecycle's. */
module DownloadFlow {
  import opened Wrappers
  import opened DownloadSpecs
  import opened FormatPolicies
  import opened Keyboards
  import opened PreviewStores
  import opened Requests
  import opened UrlValidation
  import RateLimiter
  import Lifecycle

  // ----- the use case -----

  datatype QueuedJob = QueuedJob(requestId: Id, chatId: int, messageId: int)

  datatype RequestError = UnsupportedUrl(error: UrlError) | FormatNotAllowed | DownloadEnqueueError

  class TaskQueue {
    var jobs: seq<QueuedJob>

    constructor ()
      ensures jobs == []
    {
      jobs := [];
    }

    /** A worker may start the job at once, so its row must be committed. */
    method EnqueueDownload(ghost committed: Table, job: QueuedJob, works: bool) returns (ok: bool)
      requires job.requestId in committed
      modifies this
      ensures ok == works && jobs == if works then old(jobs) + [job] else old(jobs)
    {
      ok := works;
      if works {
        jobs := jobs + [job];
      }
    }
  }

  /** What a request for a download is about, and where its progress goes. */
  datatype Ask = Ask(telegramId: int, chatId: int, messageId: int)

  /** What the surroundings contribute: fresh ids, clock readings, and whether
      the queue accepts the job. */
  datatype World = World(freshId: Id, freshUser: nat, enqueueWorks: bool, createdAt: int, failedAt: int)

  /** Why nothing may be persisted, the link being checked first. */
  function Refusal(
      policy: FormatPolicy, parsed: ParsedUrl, spec: DownloadSpec, extractorKey: string): Option<RequestError>
  {
    match Validate(parsed)
    case Failure(error) => Some(UnsupportedUrl(error))
    case Success(_) => if policy.IsAllowed(extractorKey, spec) then None else Some(FormatNotAllowed)
  }

  function UserOf(users: map<int, nat>, telegramId: int, w: World): nat {
    if telegramId in users then users[telegramId] else w.freshUser
  }

  function NewRequest(userId: nat, url: string, spec: DownloadSpec, w: World): Entity {
    Entity(w.freshId, userId, url, Pending, spec, None)
  }

  class RequestDownloadUseCase {
    const repository: DownloadRequestRepository
    const queue: TaskQueue
    const policy: FormatPolicy
    var users: map<int, nat>

    constructor (repository: DownloadRequestRepository, queue: TaskQueue, policy: FormatPolicy, users: map<int, nat>)
      ensures this.repository == repository && this.queue == queue && this.policy == policy && this.users == users
    {
      this.repository, this.queue, this.policy, this.users := repository, queue, policy, users;
    }

    /** A refusal persists nothing. Otherwise the row is committed before the
        job is queued, and a job that could not be queued leaves its row FAILED. */
    method Execute(ask: Ask, parsed: ParsedUrl, spec: DownloadSpec, extractorKey: string, w: World)
      returns (result: Result<Id, RequestError>)
      requires w.freshId !in repository.rows
      modifies this, repository, queue
      ensures var refusal := Refusal(policy, parsed, spec, extractorKey);
              if refusal.Some? then
                && result == Failure(refusal.value)
                && repository.rows == old(repository.rows) && queue.jobs == old(queue.jobs) && users == old(users)
              else
                var user := UserOf(old(users), ask.telegramId, w);
                var created := Created(old(repository.rows), NewRequest(user, parsed.url, spec, w), w.createdAt);
                && users == old(users)[ask.telegramId := user]
                && (w.enqueueWorks ==>
                      && result == Success(w.freshId) && repository.rows == created
                      && queue.jobs == old(queue.jobs) + [QueuedJob(w.freshId, ask.chatId, ask.messageId)])
                && (!w.enqueueWorks ==>
                      && result == Failure(DownloadEnqueueError)
                      && repository.rows == MarkedFailed(created, w.freshId, w.failedAt)
                      && queue.jobs == old(queue.jobs))
    {
      var url := Validate(parsed);
      if url.Failure? {
        return Failure(UnsupportedUrl(url.error));
      }
      if !policy.IsAllowed(extractorKey, spec) {
        return Failure(FormatNotAllowed);
      }
      if ask.telegramId !in users {
        users := users[ask.telegramId := w.freshUser];
      }
      var request := new DownloadRequest(NewRequest(users[ask.telegramId], url.value, spec, w));
      repository.Create(request, w.createdAt);
      var queued := queue.EnqueueDownload(repository.rows,
        QueuedJob(request.id, ask.chatId, ask.messageId), w.enqueueWorks);
      if !queued {
        repository.MarkFailedById(request.id, w.failedAt);
        return Failure(DownloadEnqueueError);
      }
      return Success(request.id);
    }
  }

  // ----- the handlers -----

  function Signed(n: int): string {
    if n < 0 then "-" + Decimal(-n) else Decimal(n)
  }

  /** Where the limiter counts a user's previews. */
  function PreviewKey(telegramId: int): string {
    "preview:" + Signed(telegramId)
  }

  function DownloadKey(telegramId: int): string {
    "download:" + Signed(telegramId)
  }

  /** Every user has slots of their own, and previews and downloads are counted
      apart. */
  lemma SlotsAreSeparate(a: int, b: int)
    ensures PreviewKey(a) == PreviewKey(b) <==> a == b
    ensures DownloadKey(a) == DownloadKey(b) <==> a == b
    ensures PreviewKey(a) != DownloadKey(b)
  {
    SignedIsInjective(a, b);
    assert PreviewKey(a)[|"preview:"|..] == Signed(a) && PreviewKey(b)[|"preview:"|..] == Signed(b);
    assert DownloadKey(a)[|"download:"|..] == Signed(a) && DownloadKey(b)[|"download:"|..] == Signed(b);
    assert PreviewKey(a)[0] == 'p' && DownloadKey(b)[0] == 'd';
  }

  lemma SignedIsInjective(a: int, b: int)
    ensures Signed(a) == Signed(b) <==> a == b
  {
    var m, n := if a < 0 then -a else a, if b < 0 then -b else b;
    DecimalIsInjective(m, n);
    DecimalIsInjective(n, m);
    assert ("-" + Decimal(m))[1..] == Decimal(m) && ("-" + Decimal(n))[1..] == Decimal(n);
    assert ("-" + Decimal(m))[0] == '-' && ("-" + Decimal(n))[0] == '-' && '-' !in DIGITS;
  }

  datatype Reply =
    | BadLink(error: UrlError)
    | RateLimited(retryAfterSeconds: int)
    | PreviewFailed
    | Card(token: string, markup: seq<seq<string>>)
    | PreviewStale
    | Markup(rows: seq<seq<string>>)
    | Acknowledged
    | NotAllowed
    | EnqueueFailed
    | DownloadStarted(id: Id)

  /** When a handler runs, by both clocks; `uid` names the limiter's record. */
  datatype Call = Call(now: int, redisNow: int, uid: RateLimiter.Uid)

  /** A tap: its payload, whether the card is still accessible, who and when. */
  datatype Tap = Tap(data: string, accessible: bool, ask: Ask, when: Call)

  /** How a confirm ends, given what its token still held and whether the
      limiter admitted it. */
  datatype Decision = Stale | Limited | Refused(error: RequestError) | Accepted(url: string, spec: DownloadSpec)

  function Decide(
      policy: FormatPolicy, parse: string -> ParsedUrl, data: string,
      found: Option<PreviewContext>, accessible: bool, admitted: bool): Decision
  {
    if found.None? || !accessible then Stale
    else if !admitted then Limited
    else match Refusal(policy, parse(found.value.url), ParseConfirm(data).1, found.value.extractorKey)
      case Some(error) => Refused(error)
      case None => Accepted(parse(found.value.url).url, ParseConfirm(data).1)
  }

  function ReplyTo(error: RequestError): Reply {
    match error
    case UnsupportedUrl(reason) => BadLink(reason)
    case FormatNotAllowed => NotAllowed
    case DownloadEnqueueError => EnqueueFailed
  }

  function AfterPrefix(data: string, prefix: string): string
    requires prefix <= data
  {
    data[|prefix|..]
  }

  class DownloadFlowHandlers {
    const store: RedisPreviewContextStore
    const limiter: RateLimiter.RedisRateLimiter
    const useCase: RequestDownloadUseCase
    const parse: string -> ParsedUrl      // strip and urlparse
    const lower: string -> string
    const allowed: set<string>
    const blocked: set<string>
    const previewLimits: RateLimiter.Limits
    const downloadLimits: RateLimiter.Limits

    constructor (
        store: RedisPreviewContextStore, limiter: RateLimiter.RedisRateLimiter, useCase: RequestDownloadUseCase,
        parse: string -> ParsedUrl, lower: string -> string, allowed: set<string>, blocked: set<string>,
        previewLimits: RateLimiter.Limits, downloadLimits: RateLimiter.Limits)
      requires previewLimits.Valid() && downloadLimits.Valid()
      ensures this.store == store && this.limiter == limiter && this.useCase == useCase && this.parse == parse
      ensures this.lower == lower && this.allowed == allowed && this.blocked == blocked
      ensures this.previewLimits == previewLimits && this.downloadLimits == downloadLimits && Valid()
    {
      this.store, this.limiter, this.useCase, this.parse, this.lower := store, limiter, useCase, parse, lower;
      this.allowed, this.blocked := allowed, blocked;
      this.previewLimits, this.downloadLimits := previewLimits, downloadLimits;
    }

    predicate Valid() {
      previewLimits.Valid() && downloadLimits.Valid()
    }

    /** What the limiter holds under a key, and whether it admits a call there. */
    function Counted(key: string, limits: RateLimiter.Limits, when: Call): (RateLimiter.ZSet, bool)
      reads limiter
    {
      var pruned := RateLimiter.Pruned(limiter.At(key), when.now, when.redisNow, limits.window);
      (pruned, |pruned.members| < limits.limit)
    }

    /** `_show_preview`: a bad link burns no slot, a denied one fetches nothing,
        and a message without a sender is not counted; `preview` is what the
        downloader's preview returned, if it did. */
    method ShowPreview(link: string, sender: Option<int>, when: Call, preview: Option<PreviewContext>, uuid: string)
      returns (reply: Reply)
      requires Valid() && (sender.Some? ==> when.uid !in limiter.At(PreviewKey(sender.value)).members)
      modifies limiter, store
      ensures var checked := ValidateAgainstAllowlist(parse(link), allowed, blocked, lower);
              var counts := checked.Success? && sender.Some?;
              var limited := counts && !old(Counted(PreviewKey(sender.value), previewLimits, when)).1;
              && (reply.BadLink? <==> checked.Failure?)
              && (reply.BadLink? ==> reply.error == checked.error)
              && (reply.RateLimited? <==> limited)
              && (limited ==> RateLimiter.IsHint(old(Counted(PreviewKey(sender.value), previewLimits, when)).0.members,
                                                 when.now, previewLimits, reply.retryAfterSeconds))
              && (reply.PreviewFailed? <==> checked.Success? && !limited && preview.None?)
              && (reply.Card? <==> checked.Success? && !limited && preview.Some?)
              && (reply.Card? ==>
                    && reply.token == uuid
                    && reply.markup == PreviewKeyboard(uuid, useCase.policy.Choices(preview.value)))
              && store.entries == (if reply.Card? then
                                     old(store.entries)[Key(uuid) :=
                                       Entry(Encoded(preview.value), when.now + store.ttl)]
                                   else old(store.entries))
              && limiter.zsets == (if counts then
                                     var key := PreviewKey(sender.value);
                                     old(limiter.zsets)[key := RateLimiter.AfterAcquire(
                                       old(limiter.At(key)), previewLimits, when.now, when.redisNow, when.uid)]
                                   else old(limiter.zsets))
    {
      var checked := ValidateAgainstAllowlist(parse(link), allowed, blocked, lower);
      if checked.Failure? {
        return BadLink(checked.error);
      }
      if sender.Some? {
        var verdict := limiter.Acquire(PreviewKey(sender.value), previewLimits, when.now, when.redisNow, when.uid);
        if !verdict.allowed {
          return RateLimited(verdict.retryAfterSeconds);
        }
      }
      if preview.None? {
        return PreviewFailed;
      }
      var token := store.Save(preview.value, uuid, when.now);
      return Card(token, PreviewKeyboard(token, useCase.policy.Choices(preview.value)));
    }

    /** `handle_open_quality_picker`: reads the token, consumes nothing. */
    method OpenQualityPicker(tap: Tap) returns (reply: Reply)
      requires QUALITY_PREFIX <= tap.data
      ensures var token := AfterPrefix(tap.data, QUALITY_PREFIX);
              var found := Peek(store.entries, token, tap.when.now);
              reply == if found.None? then PreviewStale
                       else if tap.accessible then Markup(PickerMarkup(useCase.policy, found.value, token))
                       else Acknowledged
    {
      var token := AfterPrefix(tap.data, QUALITY_PREFIX);
      var context := store.Get(token, tap.when.now);
      if context.None? {
        return PreviewStale;
      }
      var choices := useCase.policy.Choices(context.value);
      if !tap.accessible {
        return Acknowledged;
      }
      if choices.HasQualityStep() {
        return Markup(QualityKeyboard(token, choices.videoTiers));
      }
      return Markup(PreviewKeyboard(token, choices));
    }

    /** `handle_back_to_format`: likewise only reads. */
    method BackToFormat(tap: Tap) returns (reply: Reply)
      requires BACK_PREFIX <= tap.data
      ensures var token := AfterPrefix(tap.data, BACK_PREFIX);
              var found := Peek(store.entries, token, tap.when.now);
              reply == if found.None? then PreviewStale
                       else if tap.accessible then Markup(PreviewKeyboard(token, useCase.policy.Choices(found.value)))
                       else Acknowledged
    {
      var token := AfterPrefix(tap.data, BACK_PREFIX);
      var context := store.Get(token, tap.when.now);
      if context.None? {
        return PreviewStale;
      }
      if !tap.accessible {
        return Acknowledged;
      }
      return Markup(PreviewKeyboard(token, useCase.policy.Choices(context.value)));
    }

    /** `handle_cancel_download`. */
    method CancelDownload(tap: Tap) returns (reply: Reply)
      requires CANCEL_PREFIX <= tap.data
      modifies store
      ensures reply == Acknowledged
      ensures store.entries == old(store.entries) - {Key(AfterPrefix(tap.data, CANCEL_PREFIX))}
    {
      store.Delete(AfterPrefix(tap.data, CANCEL_PREFIX));
      return Acknowledged;
    }

    /** How a decision shows: the reply, the rows, the jobs and the users. */
    twostate predicate Settled(tap: Tap, w: World, decision: Decision, reply: Reply)
      reads useCase, useCase.repository, useCase.queue
    {
      var rows, jobs, users := old(useCase.repository.rows), old(useCase.queue.jobs), old(useCase.users);
      match decision
      case Accepted(url, spec) =>
        var created := Created(rows, NewRequest(UserOf(users, tap.ask.telegramId, w), url, spec, w), w.createdAt);
        && useCase.users == users[tap.ask.telegramId := UserOf(users, tap.ask.telegramId, w)]
        && if w.enqueueWorks then
             && reply == DownloadStarted(w.freshId) && useCase.repository.rows == created
             && useCase.queue.jobs == jobs + [QueuedJob(w.freshId, tap.ask.chatId, tap.ask.messageId)]
           else
             && reply == EnqueueFailed && useCase.repository.rows == MarkedFailed(created, w.freshId, w.failedAt)
             && useCase.queue.jobs == jobs
      case _ =>
        && useCase.repository.rows == rows && useCase.queue.jobs == jobs && useCase.users == users
        && (decision.Stale? ==> reply == PreviewStale)
        && (decision.Limited? ==> reply.RateLimited?)
        && (decision.Refused? ==> reply == ReplyTo(decision.error))
    }

    /** The use case called, its exceptions turned into replies. */
    method Request(tap: Tap, context: PreviewContext, spec: DownloadSpec, w: World) returns (reply: Reply)
      requires w.freshId !in useCase.repository.rows
      modifies useCase, useCase.repository, useCase.queue
      ensures var parsed := parse(context.url);
              Settled(tap, w, match Refusal(useCase.policy, parsed, spec, context.extractorKey)
                              case Some(error) => Refused(error)
                              case None => Accepted(parsed.url, spec), reply)
    {
      var result := useCase.Execute(tap.ask, parse(context.url), spec, context.extractorKey, w);
      match result
      case Success(id) => return DownloadStarted(id);
      case Failure(error) => return ReplyTo(error);
    }

    /** `handle_confirm_download`: the token is spent whatever happens next; a
        stale tap burns no slot; rows and jobs change only for an accepted one. */
    method ConfirmDownload(tap: Tap, w: World) returns (reply: Reply)
      requires Valid() && tap.when.uid !in limiter.At(DownloadKey(tap.ask.telegramId)).members
      requires w.freshId !in useCase.repository.rows
      modifies store, limiter, useCase, useCase.repository, useCase.queue
      ensures store.entries == old(store.entries) - {Key(ParseConfirm(tap.data).0)}
      ensures var found := Peek(old(store.entries), ParseConfirm(tap.data).0, tap.when.now);
              var key := DownloadKey(tap.ask.telegramId);
              var counted := old(Counted(key, downloadLimits, tap.when));
              var decision := Decide(useCase.policy, parse, tap.data, found, tap.accessible, counted.1);
              && Settled(tap, w, decision, reply)
              && (decision.Limited? ==>
                    RateLimiter.IsHint(counted.0.members, tap.when.now, downloadLimits, reply.retryAfterSeconds))
              && limiter.zsets == (if decision.Stale? then old(limiter.zsets)
                                   else old(limiter.zsets)[key := RateLimiter.AfterAcquire(
                                     old(limiter.At(key)), downloadLimits,
                                     tap.when.now, tap.when.redisNow, tap.when.uid)])
    {
      var (token, spec) := ParseConfirm(tap.data);
      var context := store.Pop(token, tap.when.now);
      if context.None? || !tap.accessible {
        return PreviewStale;
      }
      var verdict := limiter.Acquire(DownloadKey(tap.ask.telegramId), downloadLimits,
        tap.when.now, tap.when.redisNow, tap.when.uid);
      if !verdict.allowed {
        return RateLimited(verdict.retryAfterSeconds);
      }
      reply := Request(tap, context.value, spec, w);
    }
  }

  // ----- what the contracts add up to -----

  /** Whatever payload is tapped, rendered or forged: a download it starts is
      one the policy allows for the stored source, of the stored link, and the
      row reads back as exactly the spec the payload stands for. */
  lemma AcceptedIsAllowedAndKept(
      policy: FormatPolicy, parse: string -> ParsedUrl, data: string, context: PreviewContext,
      rows: Table, user: nat, w: World, url: string, spec: DownloadSpec)
    requires Decide(policy, parse, data, Some(context), true, true) == Accepted(url, spec)
    ensures policy.IsAllowed(context.extractorKey, spec) && spec == ParseConfirm(data).1
    ensures Validate(parse(context.url)) == Success(url)
    ensures var e := NewRequest(user, url, spec, w);
            var row := Created(rows, e, w.createdAt)[w.freshId];
            && ToEntity(w.freshId, row) == Success(e)
            && TierMatchesKind(row.formatKind, row.videoTier) && row.Active() && row.Readable()
  {
    PartsInvertColumns(SpecKind(spec).Value(), TierColumn(spec), spec);
  }

  /** A confirm is accepted if and only if the token was still live, the card
      accessible, the limiter admitting, the stored link valid, and the spec the
      payload stands for not switched off for the stored source; then for that
      very link and spec. */
  lemma AcceptedExactly(
      policy: FormatPolicy, parse: string -> ParsedUrl, data: string,
      found: Option<PreviewContext>, accessible: bool, admitted: bool, url: string, spec: DownloadSpec)
    ensures Decide(policy, parse, data, found, accessible, admitted) == Accepted(url, spec)
            <==> && found.Some? && accessible && admitted
                 && Validate(parse(found.value.url)) == Success(url) && spec == ParseConfirm(data).1
                 && policy.IsAllowed(found.value.extractorKey, spec)
    ensures Decide(policy, parse, data, found, accessible, admitted) == Stale <==> found.None? || !accessible
    ensures Decide(policy, parse, data, found, accessible, admitted) == Limited
            <==> found.Some? && accessible && !admitted
  {
  }

  /** What a tap that got past the limiter is refused for, and how each refusal
      shows: the link first, then the format; a bad link by its own reason. */
  lemma RefusedExactly(
      policy: FormatPolicy, parse: string -> ParsedUrl, data: string, context: PreviewContext, error: RequestError)
    ensures var checked := Validate(parse(context.url));
            var decision := Decide(policy, parse, data, Some(context), true, true);
            decision == Refused(error)
            <==> || (checked.Failure? && error == UnsupportedUrl(checked.error))
                 || (checked.Success? && !policy.IsAllowed(context.extractorKey, ParseConfirm(data).1)
                     && error == FormatNotAllowed)
    ensures ReplyTo(error) == NotAllowed <==> error == FormatNotAllowed
    ensures ReplyTo(error) == EnqueueFailed <==> error == DownloadEnqueueError
    ensures forall reason :: ReplyTo(error) == BadLink(reason) <==> error == UnsupportedUrl(reason)
  {
  }

  /** A known Telegram id keeps its user, a new one gets the fresh one, and no
      other user is touched. */
  lemma UsersAreKept(users: map<int, nat>, telegramId: int, w: World)
    ensures var after := users[telegramId := UserOf(users, telegramId, w)];
            && (telegramId in users ==> after == users)
            && (telegramId !in users ==> after[telegramId] == w.freshUser)
            && forall other :: other in users ==> other in after && after[other] == users[other]
  {
  }

  /** A button the card shows is never refused by the policy at confirm time:
      the tap is accepted, as the very spec on the button, exactly when the
      stored link is still structurally valid. */
  lemma ShownButtonIsAccepted(
      policy: FormatPolicy, parse: string -> ParsedUrl, context: PreviewContext, token: string, spec: DownloadSpec)
    requires Offers(policy, context, token, spec)
    ensures var decision := Decide(policy, parse, ConfirmData(token, spec), Some(context), true, true);
            match Validate(parse(context.url))
            case Success(url) => decision == Accepted(url, spec)
            case Failure(error) => decision == Refused(UnsupportedUrl(error))
    ensures ParseConfirm(ConfirmData(token, spec)).0 == token
  {
    EveryButtonIsHonest(policy, context, token, spec);
    AllowedIsAccepted(policy, parse, ConfirmData(token, spec), context, spec);
  }

  lemma AllowedIsAccepted(
      policy: FormatPolicy, parse: string -> ParsedUrl, data: string, context: PreviewContext, spec: DownloadSpec)
    requires ParseConfirm(data).1 == spec && policy.IsAllowed(context.extractorKey, spec)
    ensures var decision := Decide(policy, parse, data, Some(context), true, true);
            match Validate(parse(context.url))
            case Success(url) => decision == Accepted(url, spec)
            case Failure(error) => decision == Refused(UnsupportedUrl(error))
  {
  }

  /** The contract of an accepted ConfirmDownload, on lifecycle states. */
  ghost predicate Confirmed(
      s: Lifecycle.State, s': Lifecycle.State, token: string, e: Entity, j: Lifecycle.JobId, w: World) {
    var created := Created(s.rows, e, w.createdAt);
    && s'.bot.store == s.bot.store - {token} && s'.bot.handlers == s.bot.handlers
    && (w.enqueueWorks ==>
          && s'.rows == created
          && s'.arq.queue == s.arq.queue + {j} && s'.arq.jobs == s.arq.jobs[j := e.id])
    && (!w.enqueueWorks ==> s'.rows == MarkedFailed(created, e.id, w.failedAt) && s'.arq == s.arq)
  }

  /** An accepted confirm's steps in the lifecycle: claim the token, commit the
      row, then queue the job or mark the row failed. */
  function ConfirmSteps(h: Lifecycle.HandlerId, j: Lifecycle.JobId, token: string, e: Entity, w: World)
    : seq<Lifecycle.BotStep> {
    [Lifecycle.ConfirmTap(h, token), Lifecycle.CommitRow(h, e, w.createdAt)]
    + if w.enqueueWorks then [Lifecycle.EnqueueOk(h, j)]
      else [Lifecycle.EnqueueRaises(h), Lifecycle.MarkEnqueueFailed(h, w.failedAt)]
  }

  function BotSteps(steps: seq<Lifecycle.BotStep>): seq<Lifecycle.Step> {
    seq(|steps|, i requires 0 <= i < |steps| => Lifecycle.BotDoes(steps[i]))
  }

  lemma ConfirmIsBotSteps(
      cfg: Lifecycle.Config, s: Lifecycle.State, h: Lifecycle.HandlerId, j: Lifecycle.JobId, token: string,
      e: Entity, w: World)
    requires h !in s.bot.handlers && j !in s.arq.jobs && token in s.bot.store
    requires e.id == w.freshId && e.id !in s.rows && e.status == Pending && e.completedAt == None
    requires cfg.Reads(s.now, w.createdAt) && cfg.Reads(s.now, w.failedAt)
    ensures exists s' ::
              && Lifecycle.Leads(cfg, s, BotSteps(ConfirmSteps(h, j, token, e, w)), s')
              && Confirmed(s, s', token, e, j, w)
  {
    var claim, commit := Lifecycle.BotDoes(Lifecycle.ConfirmTap(h, token)),
        Lifecycle.BotDoes(Lifecycle.CommitRow(h, e, w.createdAt));
    var s1 := Lifecycle.Apply(cfg, s, claim);
    var s2 := Lifecycle.Apply(cfg, s1, commit);
    var rest, s' := QueueOrFail(cfg, s, s2, h, j, token, e, w);
    Lifecycle.LeadsMore(cfg, s1, commit, rest, s');
    Lifecycle.LeadsMore(cfg, s, claim, [commit] + rest, s');
    assert BotSteps(ConfirmSteps(h, j, token, e, w)) == [claim] + ([commit] + rest);
  }

  lemma QueueOrFail(
      cfg: Lifecycle.Config, s: Lifecycle.State, s2: Lifecycle.State, h: Lifecycle.HandlerId, j: Lifecycle.JobId,
      token: string, e: Entity, w: World)
    returns (rest: seq<Lifecycle.Step>, s': Lifecycle.State)
    requires h !in s.bot.handlers && j !in s.arq.jobs
    requires s2.rows == Created(s.rows, e, w.createdAt) && s2.arq == s.arq && s2.now == s.now
    requires s2.bot.store == s.bot.store - {token}
    requires s2.bot.handlers == s.bot.handlers[h := Lifecycle.RowCommitted(e.id, s.now)] && cfg.Reads(s.now, w.failedAt)
    requires e.id == w.freshId
    ensures rest == BotSteps(ConfirmSteps(h, j, token, e, w)[2..])
    ensures Lifecycle.Leads(cfg, s2, rest, s') && Confirmed(s, s', token, e, j, w)
  {
    if w.enqueueWorks {
      var queue := Lifecycle.BotDoes(Lifecycle.EnqueueOk(h, j));
      rest, s' := [queue], Lifecycle.Apply(cfg, s2, queue);
      Lifecycle.LeadsOne(cfg, s2, queue);
    } else {
      var raise, mark := Lifecycle.BotDoes(Lifecycle.EnqueueRaises(h)),
          Lifecycle.BotDoes(Lifecycle.MarkEnqueueFailed(h, w.failedAt));
      var s3 := Lifecycle.Apply(cfg, s2, raise);
      rest, s' := [raise] + [mark], Lifecycle.Apply(cfg, s3, mark);
      Lifecycle.LeadsOne(cfg, s3, mark);
      Lifecycle.LeadsMore(cfg, s2, raise, [mark], s');
    }
    assert s'.bot.handlers == s.bot.handlers;
  }
}
