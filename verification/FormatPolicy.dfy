/** Which formats a source may be downloaded as, and what the preview card
    offers for it (src/application/policies/format_policy.py). */
module FormatPolicies {
  import opened Wrappers
  import opened DownloadSpecs

  /** What a preview observed about a link; buttons act on this, never on what
      a callback claims. */
  datatype PreviewContext = PreviewContext(
    url: string,
    extractorKey: string,
    maxCompatibleShortSide: Option<int>)

  datatype OfferedChoices = OfferedChoices(video: bool, audio: bool, videoTiers: seq<VideoTier>) {
    predicate HasQualityStep() {
      videoTiers != []
    }
  }

  /** The spec the video button downloads when there is no quality step. */
  const DIRECT_VIDEO_SPEC := VideoSpec(Best)

  function TiersFor(shortSide: Option<int>): seq<VideoTier> {
    if shortSide.None? || shortSide.value <= P720.ShortSide().value then []
    else if shortSide.value >= P1080.ShortSide().value then [P720, P1080]
    else [P720, Best]
  }

  /** Which tiers a source gets: the two fixed ones below its own side, BEST in
      between, smallest first and none twice; none at all up to 720. */
  lemma TiersExactly(shortSide: Option<int>, tier: VideoTier)
    ensures tier in TiersFor(shortSide)
            <==> && shortSide.Some? && shortSide.value > 720
                 && match tier
                    case P720 => true
                    case P1080 => shortSide.value >= 1080
                    case Best => shortSide.value < 1080
    ensures |TiersFor(shortSide)| <= 2 && (TiersFor(shortSide) != [] ==> TiersFor(shortSide)[0] == P720)
    ensures |TiersFor(shortSide)| == 2 ==> TiersFor(shortSide)[1] != P720
  {
  }

  /** What a path without buttons asks for. */
  function DefaultVideoSpec(shortSide: Option<int>): DownloadSpec {
    if TiersFor(shortSide) == [] then DIRECT_VIDEO_SPEC else VideoSpec(P720)
  }

  /** The kill-switch: per lower-cased extractor key, the refused kinds. The
      lower-casing itself (Unicode) is a parameter. */
  datatype FormatPolicy = FormatPolicy(disabled: map<string, set<FormatKind>>, lower: string -> string) {
    function DisabledFor(extractorKey: string): set<FormatKind> {
      var key := lower(extractorKey);
      if key in disabled then disabled[key] else {}
    }

    predicate IsAllowed(extractorKey: string, spec: DownloadSpec) {
      SpecKind(spec) !in DisabledFor(extractorKey)
    }

    /** Keys that lower-case alike are one source, and a source nobody listed has
        every format. */
    lemma AllowedExactly(extractorKey: string, spec: DownloadSpec)
      ensures !IsAllowed(extractorKey, spec)
              <==> && lower(extractorKey) in disabled
                   && (if spec.VideoSpec? then Video else Audio) in disabled[lower(extractorKey)]
    {
    }

    function Choices(context: PreviewContext): OfferedChoices {
      var off := DisabledFor(context.extractorKey);
      if Video in off then OfferedChoices(false, Audio !in off, [])
      else OfferedChoices(true, Audio !in off, TiersFor(context.maxCompatibleShortSide))
    }
  }
}
