/** From the button on a card to the download in the worker, across every module
    between them. */
module EndToEnd {
  import opened Wrappers
  import opened DownloadSpecs
  import opened FormatPolicies
  import opened Keyboards
  import opened Requests
  import UrlValidation
  import Lifecycle
  import DownloadFlow
  import ProcessDownload
  import ProgressListener

  /** What a request is about never changes once its row exists. */
  ghost predicate SameAsk(before: Table, after: Table, id: Id) {
    && id in before && id in after
    && after[id].userId == before[id].userId && after[id].sourceUrl == before[id].sourceUrl
    && after[id].formatKind == before[id].formatKind && after[id].videoTier == before[id].videoTier
  }

  lemma StepKeepsAsk(cfg: Lifecycle.Config, s: Lifecycle.State, step: Lifecycle.Step, id: Id)
    requires Lifecycle.Enabled(cfg, s, step) && id in s.rows
    ensures SameAsk(s.rows, Lifecycle.Apply(cfg, s, step).rows, id)
  {
  }

  /** No step of any run touches the link, the spec or the user of a row. */
  lemma {:induction false} RunKeepsAsk(
      cfg: Lifecycle.Config, s: Lifecycle.State, steps: seq<Lifecycle.Step>, s': Lifecycle.State, id: Id)
    requires Lifecycle.Leads(cfg, s, steps, s') && id in s.rows
    ensures SameAsk(s.rows, s'.rows, id)
    decreases |steps|
  {
    if steps != [] {
      StepKeepsAsk(cfg, s, steps[0], id);
      RunKeepsAsk(cfg, Lifecycle.Apply(cfg, s, steps[0]), steps[1..], s', id);
    }
  }

  lemma LookupKeepsAsk(before: Table, after: Table, id: Id, e: Entity)
    requires SameAsk(before, after, id) && Lookup(before, id) == Success(Some(e))
    ensures Lookup(after, id).Success? ==>
              && Lookup(after, id).value.Some?
              && var later := Lookup(after, id).value.value;
                 later.userId == e.userId && later.sourceUrl == e.sourceUrl && later.spec == e.spec
  {
  }

  /** What the button said is what is downloaded: a tap on a shown button
      commits a row, and however the system runs on from there, whatever any
      run of the worker on that row downloads is the stored link as the very
      spec on the button. */
  lemma ButtonDecidesDownload(
      policy: FormatPolicy, parse: string -> UrlValidation.ParsedUrl, context: PreviewContext, token: string,
      spec: DownloadSpec, url: string, user: nat, w: DownloadFlow.World,
      cfg: Lifecycle.Config, s: Lifecycle.State, steps: seq<Lifecycle.Step>, s': Lifecycle.State, rows: Table,
      script: ProcessDownload.Script, claimable: bool, t: seq<ProcessDownload.Effect>, exit: ProcessDownload.Exit)
    requires Offers(policy, context, token, spec)
    requires UrlValidation.Validate(parse(context.url)) == Success(url)
    requires s.rows == Created(rows, DownloadFlow.NewRequest(user, url, spec, w), w.createdAt)
    requires Lifecycle.Leads(cfg, s, steps, s')
    requires script.Valid()
    requires ProcessDownload.Possible(script, Lookup(s'.rows, w.freshId), claimable, t, exit)
    ensures DownloadFlow.Decide(policy, parse, ConfirmData(token, spec), Some(context), true, true)
            == DownloadFlow.Accepted(url, spec)
    ensures ProcessDownload.StartsOnly(t, url, spec)
  {
    DownloadFlow.ShownButtonIsAccepted(policy, parse, context, token, spec);
    var found := Lookup(s'.rows, w.freshId);
    if ProcessDownload.Claims(script, found, claimable) {
      CreatedIsFound(rows, DownloadFlow.NewRequest(user, url, spec, w), w.createdAt);
      RunKeepsAsk(cfg, s, steps, s', w.freshId);
      LookupKeepsAsk(s.rows, s'.rows, w.freshId, DownloadFlow.NewRequest(user, url, spec, w));
      ProcessDownload.OutcomeIsOrdered(script, found, claimable, t, exit);
    } else {
      ProcessDownload.UnclaimedRunLeavesNoTrace(script, found, claimable, t, exit);
      assert forall i :: 0 <= i < |t| ==> t[i] in t;
    }
  }

  function Shown(phase: ProcessDownload.CardPhase): ProgressListener.Phase {
    match phase
    case DownloadingCard => ProgressListener.Downloading
    case ConvertingCard => ProgressListener.Converting
    case UploadingCard => ProgressListener.Uploading
    case DoneCard => ProgressListener.Done
    case FailedCard => ProgressListener.Failed
  }

  /** The phase the worker publishes is the phase the listener shows, and it is the
      card's last exactly when the worker published its last. */
  lemma PublishedPhaseIsShown(phase: ProcessDownload.CardPhase, payload: ProgressListener.Payload)
    requires payload.phase == Some(phase.Name())
    ensures ProgressListener.PhaseOf(payload) == Shown(phase)
    ensures ProgressListener.PhaseOf(payload).Terminal() <==> phase.Final()
  {
    ProgressListener.PhasesByName(payload);
    assert "downloading"[1] == 'o' && "done"[2] == 'n' && "downloading"[2] == 'w';
  }

  /** A created entity is read back as itself. */
  lemma CreatedIsFound(rows: Table, e: Entity, stamp: int)
    requires e.completedAt == None
    ensures Lookup(Created(rows, e, stamp), e.id) == Success(Some(e))
  {
    PartsInvertColumns(SpecKind(e.spec).Value(), TierColumn(e.spec), e.spec);
  }
}
