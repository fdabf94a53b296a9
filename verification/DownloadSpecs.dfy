/** What the user asked for, and the two columns it is stored as
    (src/domain/value_objects/download_spec.py). */
module DownloadSpecs {
  import opened Wrappers

  datatype FormatKind = Video | Audio {
    function Value(): string {
      match this
      case Video => "video"
      case Audio => "audio"
    }
  }

  datatype VideoTier = P720 | P1080 | Best {
    function Value(): string {
      match this
      case P720 => "p720"
      case P1080 => "p1080"
      case Best => "best"
    }

    /** Short side of the frame in pixels; None means no preference. */
    function ShortSide(): Option<nat> {
      match this
      case P720 => Some(720)
      case P1080 => Some(1080)
      case Best => None
    }
  }

  datatype AudioCodec = MP3

  datatype DownloadSpec = VideoSpec(tier: VideoTier) | AudioSpec(codec: AudioCodec)

  const DEFAULT_DOWNLOAD_SPEC := VideoSpec(P720)

  /** The reasons for which reading a stored pair raises ValueError. */
  datatype PartsError = UnknownKind | UnknownTier | VideoWithoutTier | AudioWithTier

  function SpecKind(spec: DownloadSpec): FormatKind {
    if spec.VideoSpec? then Video else Audio
  }

  function SpecVideoTier(spec: DownloadSpec): Option<VideoTier> {
    match spec
    case VideoSpec(tier) => Some(tier)
    case AudioSpec(_) => None
  }

  /** The `video_tier` column of a spec. */
  function TierColumn(spec: DownloadSpec): Option<string> {
    match SpecVideoTier(spec)
    case None => None
    case Some(tier) => Some(tier.Value())
  }

  function ParseTier(value: string): Result<VideoTier, PartsError> {
    if value == "p720" then Success(P720)
    else if value == "p1080" then Success(P1080)
    else if value == "best" then Success(Best)
    else Failure(UnknownTier)
  }

  function SpecFromParts(kind: string, tier: Option<string>): Result<DownloadSpec, PartsError> {
    if kind == "video" then
      match tier
      case None => Failure(VideoWithoutTier)
      case Some(value) =>
        var parsed :- ParseTier(value);
        Success(VideoSpec(parsed))
    else if kind == "audio" then
      if tier.Some? then Failure(AudioWithTier) else Success(AudioSpec(MP3))
    else
      Failure(UnknownKind)
  }

  /** The table's CHECK: a video row has a tier, any other row has none. */
  predicate TierMatchesKind(kind: string, tier: Option<string>) {
    (kind == "video") <==> tier.Some?
  }

  /** The strict parser is the exact inverse of the two column functions: it
      accepts a pair precisely when some spec is stored as that pair, and then
      returns that spec. Every accepted pair also satisfies the CHECK. */
  lemma PartsInvertColumns(kind: string, tierColumn: Option<string>, spec: DownloadSpec)
    ensures SpecFromParts(kind, tierColumn) == Success(spec)
            <==> kind == SpecKind(spec).Value() && tierColumn == TierColumn(spec)
    ensures SpecFromParts(kind, tierColumn) == Success(spec) ==> TierMatchesKind(kind, tierColumn)
  {
    assert "video"[0] != "audio"[0];
    match spec
    case VideoSpec(_) =>
      TierRoundTrip(spec);
      if SpecFromParts(kind, tierColumn) == Success(spec) {
        assert kind == "video";
      }
    case AudioSpec(codec) =>
      assert codec == MP3;
  }

  lemma TierRoundTrip(spec: DownloadSpec)
    ensures spec.VideoSpec? ==> ParseTier(spec.tier.Value()) == Success(spec.tier)
  {
    assert "p720"[1] != "p1080"[1] && "best"[0] != 'p';
  }
}
