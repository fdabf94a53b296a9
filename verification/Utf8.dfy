/** UTF-8 as `str.encode` and `bytes.decode(errors="ignore")` use it: the
    encoding of RFC 3629, section 3, and a decoder for arbitrary bytes that
    drops every ill-formed stretch. */
module Utf8 {
  import opened Wrappers

  type Byte = b: int | 0 <= b < 256
  type CodePoint = c: int | 0 <= c <= 0x10FFFF
  type Text = seq<CodePoint>

  /** A surrogate has no UTF-8 encoding; Python raises UnicodeEncodeError. */
  predicate IsScalar(c: CodePoint) {
    !(0xD800 <= c <= 0xDFFF)
  }

  predicate Encodable(text: Text) {
    forall i :: 0 <= i < |text| ==> IsScalar(text[i])
  }

  function EncodeChar(c: CodePoint): (bytes: seq<Byte>)
    ensures 1 <= |bytes| <= 4
  {
    if c < 0x80 then [c]
    else if c < 0x800 then [0xC0 + c / 0x40, 0x80 + c % 0x40]
    else if c < 0x1_0000 then [0xE0 + c / 0x1000, 0x80 + c / 0x40 % 0x40, 0x80 + c % 0x40]
    else [0xF0 + c / 0x4_0000, 0x80 + c / 0x1000 % 0x40, 0x80 + c / 0x40 % 0x40, 0x80 + c % 0x40]
  }

  function Encode(text: Text): seq<Byte> {
    if text == [] then [] else EncodeChar(text[0]) + Encode(text[1..])
  }

  /** Length announced by a lead byte; 0 for a byte that cannot start one. */
  function LeadLength(b: Byte): nat {
    if b < 0x80 then 1
    else if 0xC2 <= b < 0xE0 then 2
    else if 0xE0 <= b < 0xF0 then 3
    else if 0xF0 <= b < 0xF5 then 4
    else 0
  }

  /** The second byte excludes overlong forms, surrogates and values past
      U+10FFFF; later bytes are plain continuation bytes. */
  predicate Continues(lead: Byte, position: nat, b: Byte) {
    && 0x80 <= b < 0xC0
    && (position == 1 ==>
          && (lead == 0xE0 ==> b >= 0xA0)
          && (lead == 0xED ==> b < 0xA0)
          && (lead == 0xF0 ==> b >= 0x90)
          && (lead == 0xF4 ==> b < 0x90))
  }

  /** How many bytes from the front form a well-formed start of a sequence of
      `length` bytes; `from` of them are known to. */
  function WellFormedFrom(bytes: seq<Byte>, length: nat, from: nat): (k: nat)
    requires 1 <= from <= length && from <= |bytes|
    ensures from <= k <= length && k <= |bytes|
    decreases length - from
  {
    if from < length && from < |bytes| && Continues(bytes[0], from, bytes[from])
    then WellFormedFrom(bytes, length, from + 1)
    else from
  }

  function Value(bytes: seq<Byte>): int
    requires 1 <= |bytes| <= 4
  {
    var b := seq(|bytes|, i requires 0 <= i < |bytes| => bytes[i] as int);
    match |bytes|
    case 1 => b[0]
    case 2 => (b[0] - 0xC0) * 0x40 + (b[1] - 0x80)
    case 3 => (b[0] - 0xE0) * 0x1000 + (b[1] - 0x80) * 0x40 + (b[2] - 0x80)
    case _ => (b[0] - 0xF0) * 0x4_0000 + (b[1] - 0x80) * 0x1000 + (b[2] - 0x80) * 0x40 + (b[3] - 0x80)
  }

  /** A complete sequence yields its character; anything else is dropped, the
      longest well-formed start of it at once. */
  function DecodeIgnore(bytes: seq<Byte>): Text {
    if bytes == [] then []
    else
      var length := LeadLength(bytes[0]);
      if length == 0 then DecodeIgnore(bytes[1..])
      else
        var k := WellFormedFrom(bytes, length, 1);
        if k < length then DecodeIgnore(bytes[k..])
        else
          CompleteValue(bytes, length);
          [Value(bytes[..length])] + DecodeIgnore(bytes[length..])
  }

  lemma WellFormedAll(bytes: seq<Byte>, length: nat, from: nat)
    requires 1 <= from <= length && from <= |bytes|
    requires WellFormedFrom(bytes, length, from) == length
    ensures forall i :: from <= i < length ==> Continues(bytes[0], i, bytes[i])
    decreases length - from
  {
    if from < length {
      WellFormedAll(bytes, length, from + 1);
    }
  }

  /** The decoder only ever produces code points. */
  lemma CompleteValue(bytes: seq<Byte>, length: nat)
    requires |bytes| >= 1 && length == LeadLength(bytes[0]) > 0
    requires WellFormedFrom(bytes, length, 1) == length
    ensures 0 <= Value(bytes[..length]) <= 0x10FFFF
  {
    WellFormedAll(bytes, length, 1);
  }

  lemma WellFormedWhen(bytes: seq<Byte>, length: nat, from: nat, upto: nat)
    requires 1 <= from <= upto <= length && upto <= |bytes|
    requires forall i :: from <= i < upto ==> Continues(bytes[0], i, bytes[i])
    requires upto == length || upto == |bytes|
    ensures WellFormedFrom(bytes, length, from) == upto
    decreases length - from
  {
    if from < upto {
      WellFormedWhen(bytes, length, from + 1, upto);
    }
  }

  /** Six-bit digits of a value: what the encoder writes and `Value` adds up. */
  lemma SixBitDigits(c: nat)
    ensures c == c / 0x40 * 0x40 + c % 0x40
    ensures c == c / 0x1000 * 0x1000 + c / 0x40 % 0x40 * 0x40 + c % 0x40
    ensures c == c / 0x4_0000 * 0x4_0000 + c / 0x1000 % 0x40 * 0x1000 + c / 0x40 % 0x40 * 0x40 + c % 0x40
  {
    assert c / 0x40 / 0x40 == c / 0x1000;
    assert c / 0x1000 / 0x40 == c / 0x4_0000;
  }

  ghost predicate EncodesWell(c: CodePoint, bytes: seq<Byte>) {
    && 1 <= |bytes| <= 4
    && LeadLength(bytes[0]) == |bytes|
    && (forall i :: 1 <= i < |bytes| ==> Continues(bytes[0], i, bytes[i]))
    && Value(bytes) == c
  }

  /** The bytes of one scalar: announced length, legal continuations, and a
      value that gives the scalar back. */
  lemma EncodedCharFacts(c: CodePoint)
    requires IsScalar(c)
    ensures EncodesWell(c, EncodeChar(c))
  {
    if c < 0x80 {
    } else if c < 0x800 {
      TwoByteFacts(c);
    } else if c < 0x1_0000 {
      ThreeByteFacts(c);
    } else {
      FourByteFacts(c);
    }
  }

  lemma TwoByteFacts(c: CodePoint)
    requires 0x80 <= c < 0x800
    ensures EncodesWell(c, EncodeChar(c))
  {
    SixBitDigits(c);
  }

  lemma ThreeByteFacts(c: CodePoint)
    requires 0x800 <= c < 0x1_0000 && IsScalar(c)
    ensures EncodesWell(c, EncodeChar(c))
  {
    SixBitDigits(c);
  }

  lemma FourByteFacts(c: CodePoint)
    requires 0x1_0000 <= c
    ensures EncodesWell(c, EncodeChar(c))
  {
    SixBitDigits(c);
  }

  lemma DecodeWholeChar(c: CodePoint, rest: seq<Byte>)
    requires IsScalar(c)
    ensures DecodeIgnore(EncodeChar(c) + rest) == [c] + DecodeIgnore(rest)
  {
    var head := EncodeChar(c);
    var bytes := head + rest;
    EncodedCharFacts(c);
    WellFormedWhen(bytes, |head|, 1, |head|);
    assert bytes[..|head|] == head && bytes[|head|..] == rest;
  }

  lemma DecodeCutChar(c: CodePoint, k: nat)
    requires IsScalar(c) && k < |EncodeChar(c)|
    ensures DecodeIgnore(EncodeChar(c)[..k]) == []
  {
    var bytes := EncodeChar(c)[..k];
    if k > 0 {
      EncodedCharFacts(c);
      WellFormedWhen(bytes, |EncodeChar(c)|, 1, k);
      assert bytes[k..] == [];
    }
  }

  /** Decoding undoes encoding for every text of scalar values. */
  lemma {:induction false} DecodeInvertsEncode(text: Text)
    requires Encodable(text)
    ensures DecodeIgnore(Encode(text)) == text
  {
    if text != [] {
      DecodeWholeChar(text[0], Encode(text[1..]));
      DecodeInvertsEncode(text[1..]);
    }
  }

  /** How many whole characters fit into a byte budget. */
  function FitCount(text: Text, budget: nat): (m: nat)
    ensures m <= |text|
  {
    if text == [] || |EncodeChar(text[0])| > budget then 0
    else 1 + FitCount(text[1..], budget - |EncodeChar(text[0])|)
  }

  lemma {:induction false} FitCountIsGreatest(text: Text, budget: nat, m: nat)
    requires m <= |text|
    ensures |Encode(text[..m])| <= budget <==> m <= FitCount(text, budget)
  {
    if m > 0 {
      var size := |EncodeChar(text[0])|;
      assert text[..m] == [text[0]] + text[1..][..m - 1];
      if size <= budget {
        FitCountIsGreatest(text[1..], budget - size, m - 1);
      }
    }
  }

  lemma CutPastHead(head: seq<Byte>, rest: seq<Byte>, budget: nat)
    requires |head| <= budget <= |head| + |rest|
    ensures (head + rest)[..budget] == head + rest[..budget - |head|]
  {
  }

  lemma {:induction false} DecodeCutText(text: Text, budget: nat)
    requires Encodable(text) && budget <= |Encode(text)|
    ensures DecodeIgnore(Encode(text)[..budget]) == text[..FitCount(text, budget)]
  {
    if text != [] {
      var head, rest := EncodeChar(text[0]), Encode(text[1..]);
      if |head| > budget {
        DecodeCutChar(text[0], budget);
        assert (head + rest)[..budget] == head[..budget];
      } else {
        var left := budget - |head|;
        DecodeCutText(text[1..], left);
        CutPastHead(head, rest, budget);
        DecodeWholeChar(text[0], rest[..left]);
        assert text[..1 + FitCount(text[1..], left)] == [text[0]] + text[1..][..FitCount(text[1..], left)];
      }
    }
  }

  // ----- truncation (src/domain/value_objects/delivery_filename.py:62-67) -----

  datatype EncodeError = UnicodeEncodeError

  function TruncateUtf8(text: Text, maxBytes: int): Result<Text, EncodeError> {
    if !Encodable(text) then Failure(UnicodeEncodeError)
    else
      var encoded := Encode(text);
      if |encoded| <= maxBytes then Success(text)
      else Success(DecodeIgnore(encoded[..if maxBytes > 0 then maxBytes else 0]))
  }

  /** Truncation returns the longest whole-character prefix that fits: it is a
      prefix, it fits the budget, and every longer prefix does not. A negative
      budget leaves nothing, and only a surrogate makes it raise. */
  lemma TruncateIsLongestFit(text: Text, maxBytes: int)
    ensures TruncateUtf8(text, maxBytes).Failure? <==> exists i :: 0 <= i < |text| && !IsScalar(text[i])
    ensures Encodable(text) ==>
              var kept := TruncateUtf8(text, maxBytes).value;
              && kept <= text
              && (maxBytes < 0 ==> kept == [])
              && (maxBytes >= 0 ==> |Encode(kept)| <= maxBytes)
              && forall m :: |kept| < m <= |text| ==> |Encode(text[..m])| > maxBytes
  {
    if Encodable(text) {
      var budget := if maxBytes > 0 then maxBytes else 0;
      var kept := TruncateUtf8(text, maxBytes).value;
      if |Encode(text)| > maxBytes {
        DecodeCutText(text, budget);
        FitCountIsGreatest(text, budget, FitCount(text, budget));
        forall m | |kept| < m <= |text|
          ensures |Encode(text[..m])| > maxBytes
        {
          FitCountIsGreatest(text, budget, m);
        }
      } else {
        assert text[..|text|] == text;
      }
      if maxBytes < 0 {
        FitCountIsGreatest(text, 0, |kept|);
      }
    }
  }
}
