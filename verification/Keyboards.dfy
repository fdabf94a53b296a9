/** The inline buttons of a preview card and the payloads behind them
    (src/presentation/telegram/keyboards.py). Labels are not modelled. */
module Keyboards {
  import opened Wrappers
  import opened DownloadSpecs
  import opened FormatPolicies
  import opened Utf8

  const CONFIRM_PREFIX := "dl:"
  const CANCEL_PREFIX := "cancel:"
  const QUALITY_PREFIX := "q:"
  const BACK_PREFIX := "back:"

  /** Telegram's limit on callback data, in bytes. */
  const CALLBACK_DATA_BUDGET := 64

  const DIGITS := "0123456789"

  function Decimal(n: nat): (s: string)
    ensures ':' !in s
  {
    if n < 10 then [DIGITS[n]] else Decimal(n / 10) + [DIGITS[n % 10]]
  }

  /** Digits only, and no two numbers alike. */
  lemma {:induction false} DecimalIsInjective(m: nat, n: nat)
    ensures Decimal(m) == Decimal(n) <==> m == n
    ensures Decimal(m) != "" && Decimal(m)[0] in DIGITS
  {
    DigitsAreDistinct();
    if m >= 10 {
      DecimalIsInjective(m / 10, if n >= 10 then n / 10 else 0);
    }
    if m >= 10 && n >= 10 {
      LastApart(Decimal(m / 10), DIGITS[m % 10], Decimal(n / 10), DIGITS[n % 10]);
    } else {
      LongerThanOne(m);
      LongerThanOne(n);
    }
  }

  lemma DigitsAreDistinct()
    ensures forall i, j :: 0 <= i < j < 10 ==> DIGITS[i] != DIGITS[j]
  {
    assert forall i :: 0 <= i < 10 ==> DIGITS[i] == '0' + i as char;
  }

  lemma LastApart(a: string, c: char, b: string, d: char)
    ensures a + [c] == b + [d] <==> a == b && c == d
  {
    if a + [c] == b + [d] {
      assert (a + [c])[..|a|] == a && (b + [d])[..|b|] == b;
      assert (a + [c])[|a|] == c && (b + [d])[|b|] == d;
    }
  }

  lemma {:induction false} LongerThanOne(n: nat)
    ensures |Decimal(n)| > 1 <==> n >= 10
  {
    if n >= 10 {
      LongerThanOne(n / 10);
    }
  }

  /** "v720", "v1080" or "vbest": the tier's own short side, or "best". */
  function TierCode(tier: VideoTier): string {
    match tier.ShortSide()
    case Some(pixels) => "v" + Decimal(pixels)
    case None => "vbest"
  }

  function SpecCode(spec: DownloadSpec): string {
    match spec
    case AudioSpec(_) => "a"
    case VideoSpec(tier) => TierCode(tier)
  }

  /** Looks a code up in the table of tier codes. */
  function TierOfCode(code: string): Option<VideoTier> {
    if code == TierCode(P720) then Some(P720)
    else if code == TierCode(P1080) then Some(P1080)
    else if code == TierCode(Best) then Some(Best)
    else None
  }

  function ConfirmData(token: string, spec: DownloadSpec): string {
    CONFIRM_PREFIX + token + ":" + SpecCode(spec)
  }

  /** Position of the last colon, as `rpartition` looks for it. */
  function LastColon(s: string): (i: Option<nat>)
    ensures i.None? <==> ':' !in s
    ensures i.Some? ==> i.value < |s| && s[i.value] == ':' && ':' !in s[i.value + 1..]
  {
    if s == "" then None
    else if s[|s| - 1] == ':' then Some(|s| - 1)
    else
      assert s == s[..|s| - 1] + [s[|s| - 1]];
      LastColon(s[..|s| - 1])
  }

  /** The spec a payload's last field stands for; the tier-less "v" and
      anything unknown degrade to the default. */
  function SpecOfCode(code: string): DownloadSpec {
    if code == "a" then AudioSpec(MP3)
    else match TierOfCode(code)
      case Some(tier) => VideoSpec(tier)
      case None => DEFAULT_DOWNLOAD_SPEC
  }

  /** (token, spec) of a confirm payload; every historical or forged form is
      accepted. */
  function ParseConfirm(data: string): (string, DownloadSpec) {
    var body := if |data| < |CONFIRM_PREFIX| then "" else data[|CONFIRM_PREFIX|..];
    match LastColon(body)
    case None => (body, DEFAULT_DOWNLOAD_SPEC)
    case Some(i) => (body[..i], SpecOfCode(body[i + 1..]))
  }

  /** Step 1 of the card: video, audio, then cancel. */
  function PreviewKeyboard(token: string, choices: OfferedChoices): seq<seq<string>> {
    var video := if !choices.video then []
                 else if choices.HasQualityStep() then [QUALITY_PREFIX + token]
                 else [ConfirmData(token, DIRECT_VIDEO_SPEC)];
    var audio := if choices.audio then [ConfirmData(token, AudioSpec(MP3))] else [];
    var cancel := [CANCEL_PREFIX + token];
    if video + audio == [] then [cancel] else [video + audio, cancel]
  }

  function TierButtons(token: string, tiers: seq<VideoTier>): seq<string> {
    seq(|tiers|, i requires 0 <= i < |tiers| => ConfirmData(token, VideoSpec(tiers[i])))
  }

  /** Step 2 of the card: the tiers, then back. */
  function QualityKeyboard(token: string, tiers: seq<VideoTier>): seq<seq<string>> {
    [TierButtons(token, tiers), [BACK_PREFIX + token]]
  }

  /** The markup a `q:` tap puts on the card: the tiers the policy offers now,
      or step 1 again when there is no quality step. */
  function PickerMarkup(policy: FormatPolicy, context: PreviewContext, token: string): seq<seq<string>> {
    var choices := policy.Choices(context);
    if choices.HasQualityStep() then QualityKeyboard(token, choices.videoTiers)
    else PreviewKeyboard(token, choices)
  }

  predicate Shows(markup: seq<seq<string>>, data: string) {
    exists row <- markup :: data in row
  }

  /** Either markup a card can carry. */
  predicate OnCard(policy: FormatPolicy, context: PreviewContext, token: string, data: string) {
    || Shows(PreviewKeyboard(token, policy.Choices(context)), data)
    || Shows(PickerMarkup(policy, context, token), data)
  }

  lemma CodesAreDistinct()
    ensures TierCode(P720) == "v720" && TierCode(P1080) == "v1080" && TierCode(Best) == "vbest"
    ensures "v720" != "v1080" && "v720" != "vbest" && "v1080" != "vbest"
  {
    assert Decimal(72) == "72";
    assert Decimal(720) == "720";
    assert Decimal(10) == "10";
    assert Decimal(108) == "108";
    assert Decimal(1080) == "1080";
    assert "v720"[1] == '7' && "v1080"[1] == '1' && "vbest"[1] == 'b';
  }

  lemma CodeRoundTrip(spec: DownloadSpec)
    ensures ':' !in SpecCode(spec)
    ensures spec.AudioSpec? ==> spec == AudioSpec(MP3) && SpecCode(spec) == "a"
    ensures spec.VideoSpec? ==> SpecCode(spec) != "a" && TierOfCode(SpecCode(spec)) == Some(spec.tier)
    ensures 1 <= |SpecCode(spec)| <= 5
  {
    CodesAreDistinct();
    match spec
    case AudioSpec(codec) => assert codec == MP3;
    case VideoSpec(tier) => assert SpecCode(spec) == TierCode(tier);
  }

  lemma LastColonSplits(head: string, tail: string)
    requires ':' !in tail
    ensures LastColon(head + ":" + tail) == Some(|head|)
  {
    var s := head + ":" + tail;
    assert s[|head|] == ':';
    assert s[|head| + 1..] == tail;
  }

  lemma ParseOfFields(token: string, code: string)
    requires ':' !in code
    ensures ParseConfirm(CONFIRM_PREFIX + token + ":" + code) == (token, SpecOfCode(code))
  {
    var body := token + ":" + code;
    assert CONFIRM_PREFIX + token + ":" + code == CONFIRM_PREFIX + body;
    assert (CONFIRM_PREFIX + body)[|CONFIRM_PREFIX|..] == body;
    LastColonSplits(token, code);
    assert body[..|token|] == token && body[|token| + 1..] == code;
  }

  /** Whatever the token holds, colons included, a confirm payload parses back
      to exactly the token and the spec it was built from. */
  lemma ParseInvertsConfirm(token: string, spec: DownloadSpec)
    ensures ParseConfirm(ConfirmData(token, spec)) == (token, spec)
  {
    CodeRoundTrip(spec);
    ParseOfFields(token, SpecCode(spec));
  }

  /** The payloads of cards rendered by older versions: a bare token, or a
      token with the tier-less "v". Both still mean the default video. */
  lemma LegacyPayloads(token: string)
    requires ':' !in token
    ensures ParseConfirm(CONFIRM_PREFIX + token) == (token, DEFAULT_DOWNLOAD_SPEC)
    ensures ParseConfirm(CONFIRM_PREFIX + token + ":v") == (token, DEFAULT_DOWNLOAD_SPEC)
  {
    assert (CONFIRM_PREFIX + token)[|CONFIRM_PREFIX|..] == token;
    assert CONFIRM_PREFIX + token + ":v" == CONFIRM_PREFIX + token + ":" + "v";
    ParseOfFields(token, "v");
    CodesAreDistinct();
  }

  /** No router's `startswith` filter can take another router's payload: the
      four prefixes never agree as prefixes of one string. */
  lemma PrefixesAreExclusive(data: string)
    ensures CONFIRM_PREFIX <= data ==> !(CANCEL_PREFIX <= data) && !(QUALITY_PREFIX <= data) && !(BACK_PREFIX <= data)
    ensures CANCEL_PREFIX <= data ==> !(QUALITY_PREFIX <= data) && !(BACK_PREFIX <= data)
    ensures QUALITY_PREFIX <= data ==> !(BACK_PREFIX <= data)
  {
    if CONFIRM_PREFIX <= data { assert data[0] == 'd'; }
    if CANCEL_PREFIX <= data { assert data[0] == 'c'; }
    if QUALITY_PREFIX <= data { assert data[0] == 'q'; }
    if BACK_PREFIX <= data { assert data[0] == 'b'; }
  }

  /** The specs the buttons of one card stand for. */
  ghost predicate Offers(policy: FormatPolicy, context: PreviewContext, token: string, spec: DownloadSpec) {
    OnCard(policy, context, token, ConfirmData(token, spec))
  }

  lemma ConfirmIsInjective(token: string, a: DownloadSpec, b: DownloadSpec)
    requires ConfirmData(token, a) == ConfirmData(token, b)
    ensures a == b
  {
    ParseInvertsConfirm(token, a);
    ParseInvertsConfirm(token, b);
  }

  /** The exact list of specs a card offers, for any policy and any context. */
  lemma OfferedSpecs(policy: FormatPolicy, context: PreviewContext, token: string, spec: DownloadSpec)
    ensures Offers(policy, context, token, spec)
            <==> var choices := policy.Choices(context);
                 match spec
                 case AudioSpec(_) => choices.audio
                 case VideoSpec(tier) =>
                   choices.video && (if choices.HasQualityStep() then tier in choices.videoTiers else tier == Best)
  {
    var choices := policy.Choices(context);
    var data := ConfirmData(token, spec);
    PrefixesAreExclusive(data);
    assert CONFIRM_PREFIX <= data;
    assert CANCEL_PREFIX <= CANCEL_PREFIX + token && QUALITY_PREFIX <= QUALITY_PREFIX + token
      && BACK_PREFIX <= BACK_PREFIX + token;
    PreviewShows(token, choices, spec);
    if choices.HasQualityStep() {
      TierShows(token, choices.videoTiers, spec);
      var markup := QualityKeyboard(token, choices.videoTiers);
      assert markup[0] == TierButtons(token, choices.videoTiers) && markup[1] == [BACK_PREFIX + token];
      assert Shows(markup, data) <==> data in markup[0];
    }
  }

  lemma TierShows(token: string, tiers: seq<VideoTier>, spec: DownloadSpec)
    ensures ConfirmData(token, spec) in TierButtons(token, tiers) <==> spec.VideoSpec? && spec.tier in tiers
  {
    var row, data := TierButtons(token, tiers), ConfirmData(token, spec);
    if data in row {
      var i :| 0 <= i < |row| && row[i] == data;
      ConfirmIsInjective(token, spec, VideoSpec(tiers[i]));
    }
    if spec.VideoSpec? && spec.tier in tiers {
      var i :| 0 <= i < |tiers| && tiers[i] == spec.tier;
      assert row[i] == data;
    }
  }

  lemma PreviewShows(token: string, choices: OfferedChoices, spec: DownloadSpec)
    ensures Shows(PreviewKeyboard(token, choices), ConfirmData(token, spec))
            <==> || (spec.AudioSpec? && choices.audio)
                 || (spec == DIRECT_VIDEO_SPEC && choices.video && !choices.HasQualityStep())
  {
    var data := ConfirmData(token, spec);
    var audio, direct := ConfirmData(token, AudioSpec(MP3)), ConfirmData(token, DIRECT_VIDEO_SPEC);
    PrefixesAreExclusive(data);
    assert CONFIRM_PREFIX <= data;
    assert CANCEL_PREFIX <= CANCEL_PREFIX + token && QUALITY_PREFIX <= QUALITY_PREFIX + token;
    if data == audio { ConfirmIsInjective(token, spec, AudioSpec(MP3)); }
    if data == direct { ConfirmIsInjective(token, spec, DIRECT_VIDEO_SPEC); }
    if spec.AudioSpec? { assert spec.codec == MP3; }
    var markup := PreviewKeyboard(token, choices);
    assert markup[|markup| - 1] == [CANCEL_PREFIX + token];
    if |markup| == 2 {
      assert Shows(markup, data) <==> data in markup[0];
    } else {
      assert !Shows(markup, data);
    }
  }

  /** The card can always be dismissed from step one and always left from step two,
      and step two is one tap away exactly when the source has tiers to choose. */
  lemma NavigationIsOffered(policy: FormatPolicy, context: PreviewContext, token: string)
    ensures var choices := policy.Choices(context);
            && Shows(PreviewKeyboard(token, choices), CANCEL_PREFIX + token)
            && (Shows(PreviewKeyboard(token, choices), QUALITY_PREFIX + token) <==> choices.HasQualityStep())
            && (choices.HasQualityStep() ==> Shows(PickerMarkup(policy, context, token), BACK_PREFIX + token))
            && (!choices.HasQualityStep() ==> PickerMarkup(policy, context, token) == PreviewKeyboard(token, choices))
  {
    var choices := policy.Choices(context);
    var markup := PreviewKeyboard(token, choices);
    assert markup[|markup| - 1] == [CANCEL_PREFIX + token] && markup[|markup| - 1] in markup;
    PrefixesAreExclusive(QUALITY_PREFIX + token);
    assert QUALITY_PREFIX <= QUALITY_PREFIX + token && CANCEL_PREFIX <= CANCEL_PREFIX + token;
    assert forall spec :: CONFIRM_PREFIX <= ConfirmData(token, spec);
    if choices.HasQualityStep() {
      assert markup[0][0] == QUALITY_PREFIX + token && markup[0] in markup;
      var picker := QualityKeyboard(token, choices.videoTiers);
      assert picker[1] == [BACK_PREFIX + token] && picker[1] in picker;
    }
  }

  /** A last field that is none of the four known codes degrades to the default. */
  lemma UnknownCodesDegrade(token: string, code: string)
    requires ':' !in code && code !in {"a", "v720", "v1080", "vbest"}
    ensures ParseConfirm(CONFIRM_PREFIX + token + ":" + code) == (token, DEFAULT_DOWNLOAD_SPEC)
  {
    ParseOfFields(token, code);
    CodesAreDistinct();
  }

  /** Every download button on either keyboard parses back to its token and
      spec, the enforcement at confirm time agrees with it, and the spec then
      survives the stored pair (which satisfies the CHECK) unchanged. */
  lemma EveryButtonIsHonest(policy: FormatPolicy, context: PreviewContext, token: string, spec: DownloadSpec)
    requires Offers(policy, context, token, spec)
    ensures ParseConfirm(ConfirmData(token, spec)) == (token, spec)
    ensures policy.IsAllowed(context.extractorKey, spec)
    ensures TierMatchesKind(SpecKind(spec).Value(), TierColumn(spec))
    ensures SpecFromParts(SpecKind(spec).Value(), TierColumn(spec)) == Success(spec)
  {
    ParseInvertsConfirm(token, spec);
    OfferedSpecs(policy, context, token, spec);
    PartsInvertColumns(SpecKind(spec).Value(), TierColumn(spec), spec);
  }

  /** A format kind is allowed for the source exactly when the card has a
      download button of that kind, at most one `q:` tap away. */
  lemma AllowedKindsAreReachable(policy: FormatPolicy, context: PreviewContext, token: string, kind: FormatKind)
    ensures kind !in policy.DisabledFor(context.extractorKey)
            <==> exists spec :: SpecKind(spec) == kind && Offers(policy, context, token, spec)
    ensures kind == Video && kind !in policy.DisabledFor(context.extractorKey) ==>
              || Shows(PreviewKeyboard(token, policy.Choices(context)), ConfirmData(token, DIRECT_VIDEO_SPEC))
              || Shows(PreviewKeyboard(token, policy.Choices(context)), QUALITY_PREFIX + token)
  {
    var choices := policy.Choices(context);
    if kind !in policy.DisabledFor(context.extractorKey) {
      var spec := if kind == Audio then AudioSpec(MP3)
                  else if choices.HasQualityStep() then VideoSpec(choices.videoTiers[0])
                  else DIRECT_VIDEO_SPEC;
      OfferedSpecs(policy, context, token, spec);
      assert SpecKind(spec) == kind && Offers(policy, context, token, spec);
      if kind == Video {
        var markup := PreviewKeyboard(token, choices);
        assert markup[0][0] in markup[0] && markup[0] in markup;
      }
    } else {
      forall spec | SpecKind(spec) == kind
        ensures !Offers(policy, context, token, spec)
      {
        OfferedSpecs(policy, context, token, spec);
      }
    }
  }

  /** The spec of the button-less path is on the card of the same preview,
      whenever the policy allows it at all. */
  lemma DefaultIsOffered(policy: FormatPolicy, context: PreviewContext, token: string)
    ensures policy.IsAllowed(context.extractorKey, DefaultVideoSpec(context.maxCompatibleShortSide))
            <==> Offers(policy, context, token, DefaultVideoSpec(context.maxCompatibleShortSide))
  {
    OfferedSpecs(policy, context, token, DefaultVideoSpec(context.maxCompatibleShortSide));
  }

  predicate Ascii(s: string) {
    forall i :: 0 <= i < |s| ==> s[i] < 128 as char
  }

  function CodePoints(s: string): Text {
    seq(|s|, i requires 0 <= i < |s| => s[i] as int)
  }

  lemma {:induction false} AsciiIsOneByteEach(s: string)
    requires Ascii(s)
    ensures |Encode(CodePoints(s))| == |s|
  {
    if s != "" {
      AsciiIsOneByteEach(s[1..]);
      assert CodePoints(s)[1..] == CodePoints(s[1..]);
    }
  }

  lemma CodeIsAscii(spec: DownloadSpec)
    ensures Ascii(SpecCode(spec))
  {
    CodesAreDistinct();
  }

  /** A payload of the card: a prefix, the token, and for a download its code. */
  ghost predicate IsPayload(token: string, data: string) {
    || data == CANCEL_PREFIX + token || data == QUALITY_PREFIX + token || data == BACK_PREFIX + token
    || exists spec :: data == ConfirmData(token, spec)
  }

  lemma CardHoldsPayloads(policy: FormatPolicy, context: PreviewContext, token: string, data: string)
    requires OnCard(policy, context, token, data)
    ensures IsPayload(token, data)
  {
    var choices := policy.Choices(context);
    if Shows(PreviewKeyboard(token, choices), data) {
      var markup := PreviewKeyboard(token, choices);
      var row :| row in markup && data in row;
    } else if choices.HasQualityStep() {
      var markup := QualityKeyboard(token, choices.videoTiers);
      var row :| row in markup && data in row;
      assert row == markup[0] || row == markup[1];
    }
  }

  lemma AsciiConcat(a: string, b: string)
    requires Ascii(a) && Ascii(b)
    ensures Ascii(a + b)
  {
  }

  lemma ConfirmIsShort(token: string, spec: DownloadSpec)
    requires |token| <= 32 && Ascii(token)
    ensures Ascii(ConfirmData(token, spec)) && |ConfirmData(token, spec)| <= CALLBACK_DATA_BUDGET
  {
    CodeIsAscii(spec);
    CodeRoundTrip(spec);
    AsciiConcat(CONFIRM_PREFIX, token);
    AsciiConcat(CONFIRM_PREFIX + token, ":");
    AsciiConcat(CONFIRM_PREFIX + token + ":", SpecCode(spec));
  }

  lemma PayloadIsShort(token: string, data: string)
    requires |token| <= 32 && Ascii(token) && IsPayload(token, data)
    ensures Ascii(data) && |data| <= CALLBACK_DATA_BUDGET
  {
    AsciiConcat(CANCEL_PREFIX, token);
    AsciiConcat(QUALITY_PREFIX, token);
    AsciiConcat(BACK_PREFIX, token);
    if spec :| data == ConfirmData(token, spec) {
      ConfirmIsShort(token, spec);
    }
  }

  /** With a uuid4 hex token every payload of a card, encoded, fits Telegram's
      budget of bytes. */
  lemma PayloadsFit(policy: FormatPolicy, context: PreviewContext, token: string, data: string)
    requires |token| <= 32 && Ascii(token)
    requires OnCard(policy, context, token, data)
    ensures |Encode(CodePoints(data))| <= CALLBACK_DATA_BUDGET
  {
    CardHoldsPayloads(policy, context, token, data);
    PayloadIsShort(token, data);
    AsciiIsOneByteEach(data);
  }
}
