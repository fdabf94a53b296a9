/** The name a delivered file carries (src/domain/value_objects/delivery_filename.py).
    The Unicode tables and NFC are the library's; they enter as parameters. */
module DeliveryFilenames {
  import opened Wrappers
  import opened Utf8

  const MAX_FILENAME_BYTES := 180

  const TAB: CodePoint := 9
  const NEWLINE: CodePoint := 10
  const RETURN: CodePoint := 13
  const SPACE: CodePoint := 32
  const DOT: CodePoint := 46

  /** / \ : * ? " < > | */
  const FORBIDDEN: set<CodePoint> := {47, 92, 58, 42, 63, 34, 60, 62, 124}

  /** `dropped`: category Cc or Cf; `space`: what `str.split()` splits on. */
  datatype Unicode = Unicode(nfc: Text -> Text, dropped: CodePoint -> bool, space: CodePoint -> bool) {
    /** What the tables say about the characters the code names. */
    ghost predicate Sane() {
      && space(SPACE) && !dropped(SPACE)
      && space(TAB) && space(NEWLINE) && space(RETURN)
      && !space(DOT)
    }
  }

  datatype Path = Path(name: Text, suffix: Text)

  // ----- the source's steps -----

  predicate Kept(u: Unicode, c: CodePoint) {
    !u.dropped(c) || c == TAB || c == NEWLINE || c == RETURN
  }

  function FilterChars(u: Unicode, text: Text): Text {
    if text == [] then []
    else
      var rest := FilterChars(u, text[1..]);
      if !Kept(u, text[0]) then rest
      else [if text[0] in FORBIDDEN then SPACE else text[0]] + rest
  }

  function WordLength(u: Unicode, text: Text): (n: nat)
    ensures n <= |text|
    ensures forall i :: 0 <= i < n ==> !u.space(text[i])
    ensures n < |text| ==> u.space(text[n])
  {
    if text == [] || u.space(text[0]) then 0 else 1 + WordLength(u, text[1..])
  }

  /** `text.split()`: the maximal runs of non-space characters. */
  function Words(u: Unicode, text: Text): seq<Text>
    decreases |text|
  {
    if text == [] then []
    else if u.space(text[0]) then Words(u, text[1..])
    else
      var n := WordLength(u, text);
      [text[..n]] + Words(u, text[n..])
  }

  function JoinWords(words: seq<Text>): Text {
    if words == [] then []
    else if |words| == 1 then words[0]
    else words[0] + [SPACE] + JoinWords(words[1..])
  }

  predicate Trimmed(c: CodePoint) {
    c == SPACE || c == DOT
  }

  function TrimLeft(text: Text): Text {
    if text != [] && Trimmed(text[0]) then TrimLeft(text[1..]) else text
  }

  function TrimRight(text: Text): Text {
    if text != [] && Trimmed(text[|text| - 1]) then TrimRight(text[..|text| - 1]) else text
  }

  function Trim(text: Text): Text {
    TrimRight(TrimLeft(text))
  }

  function Sanitize(u: Unicode, title: Text): Text {
    Trim(JoinWords(Words(u, FilterChars(u, u.nfc(title)))))
  }

  function DeliveryStem(u: Unicode, title: Option<Text>, path: Path): Result<Text, EncodeError> {
    if !Encodable(path.suffix) then Failure(UnicodeEncodeError)
    else
      var budget := MAX_FILENAME_BYTES - |Encode(path.suffix)|;
      var cut :- TruncateUtf8(Sanitize(u, if title.Some? then title.value else []), budget);
      Success(Trim(cut))
  }

  function NameOf(stem: Text, path: Path): Text {
    if stem == [] then path.name else stem + path.suffix
  }

  function DeliveryFilename(u: Unicode, title: Option<Text>, path: Path): Result<Text, EncodeError> {
    var stem :- DeliveryStem(u, title, path);
    Success(NameOf(stem, path))
  }

  // ----- what a usable stem looks like -----

  ghost predicate CleanChars(u: Unicode, text: Text) {
    forall i :: 0 <= i < |text| ==>
      text[i] !in FORBIDDEN && !u.dropped(text[i]) && (u.space(text[i]) ==> text[i] == SPACE)
  }

  ghost predicate SingleSpaces(text: Text) {
    forall i {:trigger text[i]} :: 0 <= i < |text| - 1 ==> !(text[i] == SPACE && text[i + 1] == SPACE)
  }

  ghost predicate NoEdge(text: Text, edge: CodePoint -> bool) {
    text != [] ==> !edge(text[0]) && !edge(text[|text| - 1])
  }

  /** No forbidden, control or format character, only single interior spaces,
      and no space or dot at either end. */
  ghost predicate CleanStem(u: Unicode, stem: Text) {
    CleanChars(u, stem) && SingleSpaces(stem) && NoEdge(stem, Trimmed)
  }

  lemma {:induction false} FilteredChars(u: Unicode, text: Text)
    requires u.Sane()
    ensures forall c :: c in FilterChars(u, text) && !u.space(c) ==> c !in FORBIDDEN && !u.dropped(c)
  {
    if text != [] {
      FilteredChars(u, text[1..]);
    }
  }

  ghost predicate IsWord(u: Unicode, word: Text) {
    word != [] && forall i :: 0 <= i < |word| ==> word[i] !in FORBIDDEN && !u.dropped(word[i]) && !u.space(word[i])
  }

  lemma {:induction false} WordsAreWords(u: Unicode, text: Text)
    requires forall c :: c in text && !u.space(c) ==> c !in FORBIDDEN && !u.dropped(c)
    ensures forall w :: w in Words(u, text) ==> IsWord(u, w)
    decreases |text|
  {
    if text != [] {
      if u.space(text[0]) {
        WordsAreWords(u, text[1..]);
      } else {
        var n := WordLength(u, text);
        WordsAreWords(u, text[n..]);
        assert forall i :: 0 <= i < n ==> text[i] in text;
      }
    }
  }

  lemma {:induction false} JoinedIsClean(u: Unicode, words: seq<Text>)
    requires u.Sane()
    requires forall w :: w in words ==> IsWord(u, w)
    ensures var text := JoinWords(words);
            CleanChars(u, text) && SingleSpaces(text) && NoEdge(text, u.space)
    ensures words != [] ==> JoinWords(words) != []
  {
    if words != [] {
      assert IsWord(u, words[0]);
      if |words| > 1 {
        assert words[1..] != [];
        JoinedIsClean(u, words[1..]);
        SpacedIsClean(u, words[0], JoinWords(words[1..]));
      }
    }
  }

  lemma SpacedIsClean(u: Unicode, word: Text, rest: Text)
    requires u.Sane() && IsWord(u, word)
    requires rest != [] && CleanChars(u, rest) && SingleSpaces(rest) && NoEdge(rest, u.space)
    ensures var text := word + [SPACE] + rest;
            CleanChars(u, text) && SingleSpaces(text) && NoEdge(text, u.space)
  {
    var text := word + [SPACE] + rest;
    var n := |word| + 1;
    assert forall i :: n <= i < |text| ==> text[i] == rest[i - n];
    forall i | 0 <= i < |text| - 1
      ensures !(text[i] == SPACE && text[i + 1] == SPACE)
    {
      if i >= n {
        assert text[i] == rest[i - n] && text[i + 1] == rest[i - n + 1];
      } else if i + 1 == n {
        assert text[i + 1] == rest[0];
      }
    }
  }

  /** Trimming leaves a slice with no space or dot at an end; an untrimmed text
      stays as it is. */
  lemma TrimFacts(text: Text) returns (from: nat, upto: nat)
    ensures from <= upto <= |text| && Trim(text) == text[from..upto]
    ensures NoEdge(Trim(text), Trimmed)
    ensures NoEdge(text, Trimmed) ==> Trim(text) == text
    ensures forall i :: 0 <= i < |text| && !(from <= i < upto) ==> Trimmed(text[i])
  {
    from := TrimLeftFacts(text);
    var n := TrimRightFacts(TrimLeft(text));
    upto := from + n;
    assert forall i :: from <= i < |text| ==> text[i] == TrimLeft(text)[i - from];
  }

  lemma {:induction false} TrimLeftFacts(text: Text) returns (from: nat)
    ensures from <= |text| && TrimLeft(text) == text[from..]
    ensures from < |text| ==> !Trimmed(text[from])
    ensures forall i :: 0 <= i < from ==> Trimmed(text[i])
  {
    from := 0;
    if text != [] && Trimmed(text[0]) {
      from := TrimLeftFacts(text[1..]);
      assert forall i :: 1 <= i < |text| ==> text[i] == text[1..][i - 1];
      from := from + 1;
    }
  }

  lemma {:induction false} TrimRightFacts(text: Text) returns (n: nat)
    ensures n <= |text| && TrimRight(text) == text[..n]
    ensures n > 0 ==> !Trimmed(text[n - 1])
    ensures text != [] && !Trimmed(text[0]) ==> n > 0
    ensures forall i :: n <= i < |text| ==> Trimmed(text[i])
  {
    n := |text|;
    if text != [] && Trimmed(text[n - 1]) {
      n := TrimRightFacts(text[..n - 1]);
    }
  }

  lemma TrimmedSliceIsClean(u: Unicode, text: Text)
    requires CleanChars(u, text) && SingleSpaces(text)
    ensures CleanStem(u, Trim(text))
  {
    var from, upto := TrimFacts(text);
    var slice := text[from..upto];
    forall i | 0 <= i < |slice| - 1
      ensures !(slice[i] == SPACE && slice[i + 1] == SPACE)
    {
      assert slice[i] == text[from + i] && slice[i + 1] == text[from + i + 1];
    }
  }

  lemma SanitizedIsClean(u: Unicode, title: Text)
    requires u.Sane()
    ensures CleanStem(u, Sanitize(u, title))
  {
    var filtered := FilterChars(u, u.nfc(title));
    FilteredChars(u, u.nfc(title));
    WordsAreWords(u, filtered);
    JoinedIsClean(u, Words(u, filtered));
    TrimmedSliceIsClean(u, JoinWords(Words(u, filtered)));
  }

  lemma StemIsCleanPrefix(u: Unicode, title: Option<Text>, path: Path)
    requires u.Sane()
    requires DeliveryStem(u, title, path).Success?
    ensures var stem := DeliveryStem(u, title, path).value;
            && CleanStem(u, stem) && Encodable(stem)
            && (stem != [] ==> |Encode(stem)| + |Encode(path.suffix)| <= MAX_FILENAME_BYTES)
  {
    var text := Sanitize(u, if title.Some? then title.value else []);
    var budget := MAX_FILENAME_BYTES - |Encode(path.suffix)|;
    SanitizedIsClean(u, if title.Some? then title.value else []);
    TruncateIsLongestFit(text, budget);
    TrimmedCut(u, TruncateUtf8(text, budget).value);
  }

  lemma TrimmedCut(u: Unicode, cut: Text)
    requires u.Sane() && CleanChars(u, cut) && SingleSpaces(cut) && Encodable(cut)
    ensures CleanStem(u, Trim(cut)) && Encodable(Trim(cut)) && |Encode(Trim(cut))| <= |Encode(cut)|
  {
    TrimmedSliceIsClean(u, cut);
    var from, upto := TrimFacts(cut);
    SliceFits(cut, from, upto);
  }

  lemma EncodeCons(c: CodePoint, rest: Text)
    ensures Encode([c] + rest) == EncodeChar(c) + Encode(rest)
  {
    assert ([c] + rest)[1..] == rest;
  }

  lemma Regroup(a: seq<Byte>, b: seq<Byte>, c: seq<Byte>)
    ensures (a + b) + c == a + (b + c)
  {
  }

  lemma {:induction false} EncodeOfConcat(a: Text, b: Text)
    ensures Encode(a + b) == Encode(a) + Encode(b)
  {
    if a == [] {
      assert a + b == b;
    } else {
      var c, rest := a[0], a[1..];
      EncodeOfConcat(rest, b);
      EncodeCons(c, rest);
      EncodeCons(c, rest + b);
      Regroup(EncodeChar(c), Encode(rest), Encode(b));
      assert a == [c] + rest && a + b == [c] + (rest + b);
    }
  }

  lemma SliceFits(text: Text, from: nat, upto: nat)
    requires from <= upto <= |text|
    ensures |Encode(text[from..upto])| <= |Encode(text)|
  {
    assert text == text[..from] + (text[from..upto] + text[upto..]);
    EncodeOfConcat(text[..from], text[from..upto] + text[upto..]);
    EncodeOfConcat(text[from..upto], text[upto..]);
  }

  /** For every title and path: the result is the on-disk name, or a non-empty
      clean stem plus the suffix within the byte budget. It raises exactly when
      the suffix or the sanitized title holds a surrogate. */
  lemma FilenameIsSafe(u: Unicode, title: Option<Text>, path: Path)
    requires u.Sane()
    ensures DeliveryFilename(u, title, path).Failure?
            <==> !Encodable(path.suffix) || !Encodable(Sanitize(u, if title.Some? then title.value else []))
    ensures DeliveryFilename(u, title, path).Success? ==>
              var name, stem := DeliveryFilename(u, title, path).value, DeliveryStem(u, title, path).value;
              || name == path.name
              || (name == stem + path.suffix && stem != [] && CleanStem(u, stem)
                  && |Encode(name)| <= MAX_FILENAME_BYTES)
  {
    if DeliveryFilename(u, title, path).Success? {
      StemIsCleanPrefix(u, title, path);
      EncodeOfConcat(DeliveryStem(u, title, path).value, path.suffix);
    }
  }

  // ----- what becomes of any title -----

  lemma {:induction false} FilterConcat(u: Unicode, a: Text, b: Text)
    ensures FilterChars(u, a + b) == FilterChars(u, a) + FilterChars(u, b)
  {
    if a == [] {
      assert a + b == b;
    } else {
      FilterConcat(u, a[1..], b);
      assert (a + b)[1..] == a[1..] + b && (a + b)[0] == a[0];
    }
  }

  /** The fate of one character: / \ : * ? " < > | become a space, control and
      format characters other than tab and the line ends go, anything else stays. */
  lemma OneCharacter(u: Unicode, c: CodePoint)
    ensures u.dropped(c) && c !in {9, 10, 13} ==> FilterChars(u, [c]) == []
    ensures (!u.dropped(c) || c in {9, 10, 13}) && c in {47, 92, 58, 42, 63, 34, 60, 62, 124} ==>
              FilterChars(u, [c]) == [32]
    ensures (!u.dropped(c) || c in {9, 10, 13}) && c !in {47, 92, 58, 42, 63, 34, 60, 62, 124} ==>
              FilterChars(u, [c]) == [c]
  {
    assert FilterChars(u, [c][1..]) == [];
  }

  /** A space always separates words, wherever it stands; with OneWord this fixes
      the words of any text. */
  lemma {:induction false} SpaceSeparates(u: Unicode, a: Text, c: CodePoint, b: Text)
    requires u.space(c)
    ensures Words(u, a + [c] + b) == Words(u, a) + Words(u, b)
    decreases |a|
  {
    var text := a + [c] + b;
    if a == [] {
      assert text[1..] == b;
    } else if u.space(a[0]) {
      assert text[1..] == a[1..] + [c] + b;
      SpaceSeparates(u, a[1..], c, b);
    } else {
      var n := WordLength(u, a);
      FirstWordOfBoth(u, a, c, b);
      SpaceSeparates(u, a[n..], c, b);
      assert [a[..n]] + (Words(u, a[n..]) + Words(u, b)) == [a[..n]] + Words(u, a[n..]) + Words(u, b);
    }
  }

  lemma FirstWordOfBoth(u: Unicode, a: Text, c: CodePoint, b: Text)
    requires u.space(c) && a != [] && !u.space(a[0])
    ensures var n := WordLength(u, a);
            && Words(u, a) == [a[..n]] + Words(u, a[n..])
            && Words(u, a + [c] + b) == [a[..n]] + Words(u, a[n..] + [c] + b)
  {
    var text, n := a + [c] + b, WordLength(u, a);
    WordEndsAtSpace(u, a, c, b);
    assert text[..n] == a[..n] && text[n..] == a[n..] + [c] + b;
  }

  lemma {:induction false} WordEndsAtSpace(u: Unicode, a: Text, c: CodePoint, b: Text)
    requires u.space(c)
    ensures WordLength(u, a + [c] + b) == WordLength(u, a)
  {
    if a != [] && !u.space(a[0]) {
      assert (a + [c] + b)[1..] == a[1..] + [c] + b;
      WordEndsAtSpace(u, a[1..], c, b);
    }
  }

  lemma {:induction false} OneWord(u: Unicode, word: Text)
    requires word != [] && forall i :: 0 <= i < |word| ==> !u.space(word[i])
    ensures Words(u, word) == [word]
  {
    var n := WordLength(u, word);
    assert n == |word| && word[n..] == [] && word[..n] == word;
  }

  lemma {:induction false} JoinPutsOneSpace(a: seq<Text>, b: seq<Text>)
    requires a != [] && b != []
    ensures JoinWords(a + b) == JoinWords(a) + [32] + JoinWords(b)
  {
    assert (a + b)[1..] == a[1..] + b;
    if |a| > 1 {
      JoinPutsOneSpace(a[1..], b);
    }
  }

  /** In any title: a forbidden character separates words as a space does, and a
      control or format character might as well not be there. */
  lemma CharactersSeparateOrVanish(u: Unicode, a: Text, c: CodePoint, b: Text)
    requires u.Sane()
    ensures c in FORBIDDEN && !u.dropped(c) ==>
              Words(u, FilterChars(u, a + [c] + b)) == Words(u, FilterChars(u, a)) + Words(u, FilterChars(u, b))
    ensures u.dropped(c) && c !in {TAB, NEWLINE, RETURN} ==> FilterChars(u, a + [c] + b) == FilterChars(u, a + b)
  {
    FilterConcat(u, a + [c], b);
    FilterConcat(u, a, [c]);
    FilterConcat(u, a, b);
    OneCharacter(u, c);
    SpaceSeparates(u, FilterChars(u, a), SPACE, FilterChars(u, b));
  }

  /** "AC/DC" for any two words: they come out with one space between. */
  lemma ForbiddenBecomesSpace(u: Unicode, a: Text, c: CodePoint, b: Text)
    requires u.Sane() && IsWord(u, a) && IsWord(u, b) && c in FORBIDDEN && !u.dropped(c)
    requires !Trimmed(a[0]) && !Trimmed(b[|b| - 1]) && u.nfc(a + [c] + b) == a + [c] + b
    ensures Sanitize(u, a + [c] + b) == a + [SPACE] + b
  {
    CharactersSeparateOrVanish(u, a, c, b);
    FilterKeepsClean(u, a);
    FilterKeepsClean(u, b);
    OneWord(u, a);
    OneWord(u, b);
    JoinPutsOneSpace([a], [b]);
    assert [a] + [b] == [a, b];
    var _, _ := TrimFacts(a + [SPACE] + b);
  }

  /** A title that needs nothing done to it is the stem, whole. */
  lemma CleanTitleIsTheName(u: Unicode, title: Text, path: Path)
    requires u.Sane() && title != [] && CleanStem(u, title) && IsNormal(u, title)
    requires Encodable(title) && Encodable(path.suffix)
    requires |Encode(title)| + |Encode(path.suffix)| <= MAX_FILENAME_BYTES
    ensures DeliveryFilename(u, Some(title), path) == Success(title + path.suffix)
  {
    CleanIsKept(u, title);
    var _, _ := TrimFacts(title);
  }

  // ----- feeding a stem back -----

  lemma {:induction false} FilterKeepsClean(u: Unicode, text: Text)
    requires CleanChars(u, text)
    ensures FilterChars(u, text) == text
  {
    if text != [] {
      assert CleanChars(u, text[1..]);
      FilterKeepsClean(u, text[1..]);
    }
  }

  lemma RestIsClean(u: Unicode, text: Text, n: nat)
    requires u.Sane() && CleanChars(u, text) && SingleSpaces(text) && NoEdge(text, u.space)
    requires n < |text| && u.space(text[n])
    ensures text[n] == SPACE && n + 1 < |text|
    ensures CleanChars(u, text[n + 1..]) && SingleSpaces(text[n + 1..]) && NoEdge(text[n + 1..], u.space)
  {
    var rest := text[n + 1..];
    assert rest[0] == text[n + 1];
    forall i | 0 <= i < |rest| - 1
      ensures !(rest[i] == SPACE && rest[i + 1] == SPACE)
    {
      assert rest[i] == text[n + 1 + i] && rest[i + 1] == text[n + 2 + i];
    }
  }

  lemma FirstWordGoes(u: Unicode, text: Text)
    requires text != [] && !u.space(text[0]) && WordLength(u, text) < |text|
    ensures Words(u, text) == [text[..WordLength(u, text)]] + Words(u, text[WordLength(u, text) + 1..])
  {
    var n := WordLength(u, text);
    assert text[n..][1..] == text[n + 1..];
    assert Words(u, text[n..]) == Words(u, text[n + 1..]);
  }

  lemma {:induction false} JoinInvertsWords(u: Unicode, text: Text)
    requires u.Sane() && CleanChars(u, text) && SingleSpaces(text) && NoEdge(text, u.space)
    ensures JoinWords(Words(u, text)) == text
    ensures text != [] ==> Words(u, text) != []
    decreases |text|
  {
    if text != [] {
      var n := WordLength(u, text);
      if n == |text| {
        assert text[..n] == text && text[n..] == [];
      } else {
        var rest := text[n + 1..];
        RestIsClean(u, text, n);
        JoinInvertsWords(u, rest);
        FirstWordGoes(u, text);
        var words := Words(u, text);
        assert words[1..] == Words(u, rest);
        assert text == text[..n] + [SPACE] + rest;
      }
    }
  }

  /** Sanitizing only cuts and cleans: a clean text comes through every step
      after NFC. */
  lemma CleanIsKept(u: Unicode, text: Text)
    requires u.Sane() && CleanStem(u, text)
    ensures Trim(JoinWords(Words(u, FilterChars(u, text)))) == text
  {
    FilterKeepsClean(u, text);
    assert NoEdge(text, u.space);
    JoinInvertsWords(u, text);
    var _, _ := TrimFacts(text);
  }

  predicate IsNormal(u: Unicode, text: Text) {
    u.nfc(text) == text
  }

  lemma NormalStemReturns(u: Unicode, title: Option<Text>, path: Path)
    requires u.Sane() && DeliveryStem(u, title, path).Success?
    requires IsNormal(u, DeliveryStem(u, title, path).value)
    ensures DeliveryStem(u, Some(DeliveryStem(u, title, path).value), path) == DeliveryStem(u, title, path)
  {
    var stem := DeliveryStem(u, title, path).value;
    StemIsCleanPrefix(u, title, path);
    CleanIsKept(u, stem);
    var budget := MAX_FILENAME_BYTES - |Encode(path.suffix)|;
    if stem == [] {
      TruncateIsLongestFit([], budget);
    }
    var _, _ := TrimFacts(stem);
  }

  /** A delivered stem, fed back as a title, gives the same name again, for any
      NFC pass that leaves that stem alone. */
  lemma FilenameIsIdempotent(u: Unicode, title: Option<Text>, path: Path)
    requires u.Sane() && DeliveryStem(u, title, path).Success?
    requires IsNormal(u, DeliveryStem(u, title, path).value)
    ensures DeliveryFilename(u, Some(DeliveryStem(u, title, path).value), path) == DeliveryFilename(u, title, path)
  {
    NormalStemReturns(u, title, path);
  }

  /** What NFC promises of the texts it is used on here: every part of a
      normalized text is normalized, and a clean stem stays one. */
  ghost predicate Normalizes(u: Unicode) {
    && (forall text, i, j :: 0 <= i <= j <= |u.nfc(text)| ==> IsNormal(u, u.nfc(text)[i..j]))
    && (forall text :: CleanStem(u, text) ==> CleanStem(u, u.nfc(text)))
  }

  /** What comes back from a fed-back stem is a part of its normal form. */
  lemma FedBackIsPart(u: Unicode, stem: Text, path: Path) returns (from: nat, upto: nat)
    requires u.Sane() && Normalizes(u) && CleanStem(u, stem) && DeliveryStem(u, Some(stem), path).Success?
    ensures from <= upto <= |u.nfc(stem)|
    ensures DeliveryStem(u, Some(stem), path).value == u.nfc(stem)[from..upto]
  {
    var normal := u.nfc(stem);
    var budget := MAX_FILENAME_BYTES - |Encode(path.suffix)|;
    CleanIsKept(u, normal);
    TruncateIsLongestFit(normal, budget);
    var cut := TruncateUtf8(normal, budget).value;
    from, upto := TrimFacts(cut);
  }

  /** Feeding a delivered stem back gives that stem again if and only if NFC
      leaves it alone; so does the whole name, unless it was the on-disk name. */
  lemma StableExactlyWhenNormal(u: Unicode, title: Option<Text>, path: Path)
    requires u.Sane() && Normalizes(u) && DeliveryStem(u, title, path).Success?
    ensures var stem := DeliveryStem(u, title, path).value;
            DeliveryStem(u, Some(stem), path) == Success(stem) <==> IsNormal(u, stem)
    ensures var stem, name := DeliveryStem(u, title, path).value, DeliveryFilename(u, title, path);
            name != Success(path.name) ==> (DeliveryFilename(u, Some(stem), path) == name <==> IsNormal(u, stem))
  {
    var stem := DeliveryStem(u, title, path).value;
    StemIsCleanPrefix(u, title, path);
    if IsNormal(u, stem) {
      NormalStemReturns(u, title, path);
    }
    FedBackIsNormal(u, stem, path);
    SameName(DeliveryStem(u, Some(stem), path), stem, path);
  }

  lemma FedBackIsNormal(u: Unicode, stem: Text, path: Path)
    requires u.Sane() && Normalizes(u) && CleanStem(u, stem)
    ensures DeliveryStem(u, Some(stem), path) == Success(stem) ==> IsNormal(u, stem)
  {
    if DeliveryStem(u, Some(stem), path) == Success(stem) {
      var from, upto := FedBackIsPart(u, stem, path);
      assert IsNormal(u, u.nfc(stem)[from..upto]);
    }
  }

  /** A name other than the on-disk one tells its stem. */
  lemma SameName(again: Result<Text, EncodeError>, stem: Text, path: Path)
    ensures NameOf(stem, path) != path.name && again.Success? ==>
              (NameOf(again.value, path) == NameOf(stem, path) <==> again == Success(stem))
  {
    if again.Success? {
      var a, b := again.value + path.suffix, stem + path.suffix;
      assert a[..|again.value|] == again.value && b[..|stem|] == stem;
    }
  }

  // ----- where feeding back fails -----

  const I_CAPITAL: CodePoint := 0x418
  const BREVE: CodePoint := 0x306
  const SHORT_I: CodePoint := 0x419
  const ZERO_WIDTH_SPACE: CodePoint := 0x200B

  predicate StartsWithPair(text: Text) {
    |text| >= 2 && text[0] == I_CAPITAL && text[1] == BREVE
  }

  /** One of NFC's compositions, wherever the pair occurs. */
  function Compose(text: Text): (composed: Text)
    ensures composed == [] <==> text == []
    ensures text != [] && composed[0] != text[0] ==> composed[0] == SHORT_I
    ensures text != [] && composed[|composed| - 1] != text[|text| - 1] ==> composed[|composed| - 1] == SHORT_I
  {
    if text == [] then []
    else if StartsWithPair(text) then [SHORT_I] + Compose(text[2..])
    else [text[0]] + Compose(text[1..])
  }

  /** Tables that compose that pair and drop the zero-width space. */
  function ComposingTables(): (u: Unicode)
    ensures u.Sane()
  {
    Unicode(Compose, (c: CodePoint) => c == ZERO_WIDTH_SPACE,
            (c: CodePoint) => c == SPACE || c == TAB || c == NEWLINE || c == RETURN)
  }

  ghost predicate HasNoPair(text: Text) {
    forall i :: 0 <= i < |text| - 1 && text[i] == I_CAPITAL ==> text[i + 1] != BREVE
  }

  lemma {:induction false} ComposedHasNoPair(text: Text)
    ensures HasNoPair(Compose(text))
    decreases |text|
  {
    if text != [] {
      var rest := if StartsWithPair(text) then text[2..] else text[1..];
      ComposedHasNoPair(rest);
      HeadAddsNoPair(Compose(text)[0], Compose(rest));
    }
  }

  lemma HeadAddsNoPair(c: CodePoint, rest: Text)
    requires HasNoPair(rest) && (rest != [] && c == I_CAPITAL ==> rest[0] != BREVE)
    ensures HasNoPair([c] + rest)
  {
    var all := [c] + rest;
    assert forall i :: 1 <= i < |all| ==> all[i] == rest[i - 1];
  }

  lemma {:induction false} NoPairIsFixed(text: Text)
    requires HasNoPair(text)
    ensures Compose(text) == text
  {
    if text != [] {
      var rest := text[1..];
      assert forall i :: 0 <= i < |rest| ==> rest[i] == text[i + 1];
      NoPairIsFixed(rest);
    }
  }

  lemma {:induction false} ComposedStaysClean(u: Unicode, text: Text)
    requires u == ComposingTables() && CleanChars(u, text) && SingleSpaces(text)
    ensures CleanChars(u, Compose(text)) && SingleSpaces(Compose(text))
    decreases |text|
  {
    if text != [] {
      var k := if StartsWithPair(text) then 2 else 1;
      var rest, c := text[k..], Compose(text)[0];
      assert forall i :: 0 <= i < |rest| ==> rest[i] == text[i + k];
      TailKeepsSingleSpaces(text, k);
      ComposedStaysClean(u, rest);
      assert c in [text[0], SHORT_I] && (rest != [] && c == SPACE ==> rest[0] != SPACE);
      HeadStaysClean(u, c, Compose(rest));
    }
  }

  lemma TailKeepsSingleSpaces(text: Text, k: nat)
    requires SingleSpaces(text) && k <= |text|
    ensures SingleSpaces(text[k..])
  {
    var rest := text[k..];
    forall i | 0 <= i < |rest| - 1
      ensures !(rest[i] == SPACE && rest[i + 1] == SPACE)
    {
      assert rest[i] == text[i + k] && rest[i + 1] == text[i + k + 1];
    }
  }

  lemma HeadStaysClean(u: Unicode, c: CodePoint, rest: Text)
    requires CleanChars(u, [c]) && CleanChars(u, rest) && SingleSpaces(rest)
    requires rest != [] && c == SPACE ==> rest[0] != SPACE
    ensures CleanChars(u, [c] + rest) && SingleSpaces([c] + rest)
  {
    var all := [c] + rest;
    assert [c][0] == c;
    forall i | 0 <= i < |all| - 1
      ensures !(all[i] == SPACE && all[i + 1] == SPACE)
    {
      assert all[i + 1] == rest[i];
      if i > 0 {
        assert all[i] == rest[i - 1];
      }
    }
  }

  lemma ComposingTablesNormalize()
    ensures Normalizes(ComposingTables())
  {
    var u := ComposingTables();
    forall text, i, j | 0 <= i <= j <= |u.nfc(text)|
      ensures IsNormal(u, u.nfc(text)[i..j])
    {
      ComposedHasNoPair(text);
      var part := Compose(text)[i..j];
      assert forall k :: 0 <= k < |part| ==> part[k] == Compose(text)[k + i];
      NoPairIsFixed(part);
    }
    forall text | CleanStem(u, text)
      ensures CleanStem(u, u.nfc(text))
    {
      ComposedStaysClean(u, text);
    }
  }

  lemma HiddenSpaceGoes()
    ensures var title := [I_CAPITAL, ZERO_WIDTH_SPACE, BREVE];
            Compose(title) == title && FilterChars(ComposingTables(), title) == [I_CAPITAL, BREVE]
  {
    var u := ComposingTables();
    var title, tail: Text := [I_CAPITAL, ZERO_WIDTH_SPACE, BREVE], [BREVE];
    NoPairIsFixed(title);
    assert FilterChars(u, tail[1..]) == [];
    assert FilterChars(u, tail) == [BREVE];
    assert title[1..][1..] == tail;
    assert FilterChars(u, title[1..]) == FilterChars(u, tail);
  }

  /** NFC runs before the invisible characters go, so a title that hides a
      zero-width space between a letter and its combining mark keeps the pair
      apart, while its own stem, fed back, is composed: the stem is not normal,
      so it does not come back. */
  lemma NotIdempotentWithoutNfc(path: Path)
    requires Encodable(path.suffix) && |Encode(path.suffix)| + 8 <= MAX_FILENAME_BYTES
    ensures var u := ComposingTables();
            var stem := DeliveryStem(u, Some([I_CAPITAL, ZERO_WIDTH_SPACE, BREVE]), path);
            && u.Sane() && Normalizes(u)
            && stem == Success([I_CAPITAL, BREVE]) && !IsNormal(u, stem.value)
            && DeliveryStem(u, Some(stem.value), path) != stem
  {
    var u := ComposingTables();
    var title, stem: Text := [I_CAPITAL, ZERO_WIDTH_SPACE, BREVE], [I_CAPITAL, BREVE];
    ComposingTablesNormalize();
    HiddenSpaceGoes();
    assert CleanStem(u, stem);
    CleanIsKept(u, stem);
    ShortTitleIsKept(u, title, path, stem);
    assert Compose(stem)[0] == SHORT_I;
    StableExactlyWhenNormal(u, Some(title), path);
  }

  lemma {:induction false} EncodeAtMostFour(text: Text)
    ensures |Encode(text)| <= 4 * |text|
  {
    if text != [] {
      EncodeAtMostFour(text[1..]);
    }
  }

  lemma ShortTitleIsKept(u: Unicode, title: Text, path: Path, stem: Text)
    requires Encodable(path.suffix) && |Encode(path.suffix)| + 8 <= MAX_FILENAME_BYTES && |stem| <= 2
    requires Encodable(stem) && NoEdge(stem, Trimmed) && Sanitize(u, title) == stem
    ensures DeliveryStem(u, Some(title), path) == Success(stem)
  {
    EncodeAtMostFour(stem);
    var _, _ := TrimFacts(stem);
  }
}
