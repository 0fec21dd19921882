/** The size guard of the channel push: bodies are cut to a byte budget without ever
    splitting a character. UTF-8 is as in section 3 of RFC 3629. */
module ChannelGuard {
  import opened Common

  type Byte = b: int | 0 <= b < 0x100

  const MAX_CONTENT_BYTES: int := 262144

  function EncodeChar(c: char): (bytes: seq<Byte>)
    ensures 1 <= |bytes| <= 4
  {
    var n := c as int;
    if n < 0x80 then [n]
    else if n < 0x800 then [0xC0 + n / 0x40, 0x80 + n % 0x40]
    else if n < 0x1_0000 then [0xE0 + n / 0x1000, 0x80 + n / 0x40 % 0x40, 0x80 + n % 0x40]
    else [0xF0 + n / 0x4_0000, 0x80 + n / 0x1000 % 0x40, 0x80 + n / 0x40 % 0x40, 0x80 + n % 0x40]
  }

  function Encode(text: string): seq<Byte>
  {
    if text == "" then [] else EncodeChar(text[0]) + Encode(text[1..])
  }

  predicate Continuation(b: Byte)
  {
    0x80 <= b < 0xC0
  }

  /** A code point that UTF-8 can carry: no surrogates. */
  predicate Scalar(n: int)
  {
    0 <= n < 0xD800 || 0xE000 <= n < 0x11_0000
  }

  /** A code point from its base-64 digits. */
  function CodePoint(d3: int, d2: int, d1: int, d0: int): int
  {
    0x4_0000 * d3 + 0x1000 * d2 + 0x40 * d1 + d0
  }

  /** The character whose encoding starts the bytes, and its length; overlong forms,
      surrogates, stray continuation bytes and cut sequences are not characters. */
  function Front(bytes: seq<Byte>): (r: Option<(char, nat)>)
    ensures r.Some? ==> 1 <= r.value.1 <= |bytes|
  {
    if bytes == [] then None
    else if bytes[0] < 0x80 then Some((bytes[0] as char, 1))
    else if 0xC0 <= bytes[0] < 0xE0 && |bytes| >= 2 && Continuation(bytes[1]) then
      var n := CodePoint(0, 0, bytes[0] - 0xC0, bytes[1] - 0x80);
      if n >= 0x80 then Some((n as char, 2)) else None
    else if 0xE0 <= bytes[0] < 0xF0 && |bytes| >= 3 && Continuation(bytes[1]) && Continuation(bytes[2]) then
      var n := CodePoint(0, bytes[0] - 0xE0, bytes[1] - 0x80, bytes[2] - 0x80);
      if n >= 0x800 && Scalar(n) then Some((n as char, 3)) else None
    else if 0xF0 <= bytes[0] < 0xF8 && |bytes| >= 4
            && Continuation(bytes[1]) && Continuation(bytes[2]) && Continuation(bytes[3]) then
      var n := CodePoint(bytes[0] - 0xF0, bytes[1] - 0x80, bytes[2] - 0x80, bytes[3] - 0x80);
      if n >= 0x1_0000 && Scalar(n) then Some((n as char, 4)) else None
    else None
  }

  /** Decoding that drops whatever is not a character. */
  function DecodeIgnoring(bytes: seq<Byte>): string
    decreases |bytes|
  {
    if bytes == [] then ""
    else match Front(bytes)
      case Some((c, n)) => [c] + DecodeIgnoring(bytes[n..])
      case None => DecodeIgnoring(bytes[1..])
  }

  function TruncateUtf8(text: string, maxBytes: int): string
  {
    if maxBytes <= 0 then ""
    else
      var encoded := Encode(text);
      if |encoded| <= maxBytes then text else DecodeIgnoring(encoded[..maxBytes])
  }

  function Suffix(cardId: Option<string>): string
  {
    if cardId.Some? && cardId.value != "" then "\n\n[truncated \U{2014} see card " + cardId.value + " on the board]"
    else "\n\n[truncated \U{2014} see the board]"
  }

  function Body(body: Option<string>): string
  {
    if body.Some? then body.value else ""
  }

  function BoundedContent(body: Option<string>, cardId: Option<string>): string
  {
    if |Encode(Body(body))| <= MAX_CONTENT_BYTES then Body(body)
    else TruncateUtf8(Body(body), MAX_CONTENT_BYTES - |Encode(Suffix(cardId))|) + Suffix(cardId)
  }

  // --- the encoding -------------------------------------------------------

  /** The base-64 digits of a code point put it back together. */
  lemma {:induction false} Digits(n: nat)
    ensures n == CodePoint(0, 0, n / 0x40, n % 0x40)
    ensures n == CodePoint(0, n / 0x1000, n / 0x40 % 0x40, n % 0x40)
    ensures n == CodePoint(n / 0x4_0000, n / 0x1000 % 0x40, n / 0x40 % 0x40, n % 0x40)
  {
    assert n / 0x40 / 0x40 == n / 0x1000;
    assert n / 0x1000 / 0x40 == n / 0x4_0000;
  }

  /** The octets of a character, by the table of section 3 of RFC 3629: one below 0x80;
      else a leading octet whose range gives the number of octets, then continuation
      octets of six bits each, most significant first. */
  lemma {:induction false} OctetsOf(c: char)
    ensures
      var n, e := c as int, EncodeChar(c);
      var o := seq(|e|, i requires 0 <= i < |e| => e[i] as int);
      && (forall i :: 1 <= i < |o| ==> 0x80 <= o[i] <= 0xBF)
      && (|o| == 1 <==> n <= 0x7F)
      && (|o| == 2 <==> 0x80 <= n <= 0x7FF)
      && (|o| == 3 <==> 0x800 <= n <= 0xFFFF)
      && (|o| == 4 <==> 0x1_0000 <= n <= 0x10_FFFF)
      && (|o| == 1 ==> n == o[0])
      && (|o| == 2 ==> 0xC0 <= o[0] <= 0xDF && n == (o[0] - 0xC0) * 64 + (o[1] - 0x80))
      && (|o| == 3 ==> 0xE0 <= o[0] <= 0xEF && n == (o[0] - 0xE0) * 4096 + (o[1] - 0x80) * 64 + (o[2] - 0x80))
      && (|o| == 4 ==>
            && 0xF0 <= o[0] <= 0xF7
            && n == (o[0] - 0xF0) * 262_144 + (o[1] - 0x80) * 4096 + (o[2] - 0x80) * 64 + (o[3] - 0x80))
  {
    Digits(c as int);
  }

  /** Two of the examples of section 7 of RFC 3629: "A", a not-identical sign, an Alpha
      and a full stop; a byte order mark and a character of four octets. */
  lemma {:induction false} StandardExamples()
    ensures Encode(['A', '\U{2262}', '\U{0391}', '.']) == [0x41, 0xE2, 0x89, 0xA2, 0xCE, 0x91, 0x2E]
    ensures Encode(['\U{FEFF}', '\U{233B4}']) == [0xEF, 0xBB, 0xBF, 0xF0, 0xA3, 0x8E, 0xB4]
  {
    EncodeFour('A', '\U{2262}', '\U{0391}', '.');
    EncodeTwo('\U{FEFF}', '\U{233B4}');
  }

  lemma {:induction false} EncodeTwo(a: char, b: char)
    ensures Encode([a, b]) == EncodeChar(a) + EncodeChar(b)
  {
    assert [a, b][1..] == [b] && [b][1..] == "";
    assert Encode([b]) == EncodeChar(b);
  }

  lemma {:induction false} EncodeThree(a: char, b: char, c: char)
    ensures Encode([a, b, c]) == EncodeChar(a) + EncodeChar(b) + EncodeChar(c)
  {
    assert [a, b, c][1..] == [b, c];
    EncodeTwo(b, c);
  }

  lemma {:induction false} EncodeFour(a: char, b: char, c: char, d: char)
    ensures Encode([a, b, c, d]) == EncodeChar(a) + EncodeChar(b) + EncodeChar(c) + EncodeChar(d)
  {
    assert [a, b, c, d][1..] == [b, c, d];
    EncodeThree(b, c, d);
  }

  lemma {:induction false} FrontOfEncoding(c: char, rest: seq<Byte>)
    ensures Front(EncodeChar(c) + rest) == Some((c, |EncodeChar(c)|))
  {
    var n, e := c as int, EncodeChar(c);
    var bytes := e + rest;
    Digits(n);
    assert bytes[0] == e[0];
    if n >= 0x80 {
      assert bytes[1] == e[1];
      if n >= 0x800 {
        assert bytes[2] == e[2];
        if n >= 0x1_0000 {
          assert bytes[3] == e[3];
        }
      }
    }
  }

  /** The converse: nothing is read as a character but its encoding. */
  lemma {:induction false} OnlyEncodingsAreRead(bytes: seq<Byte>)
    requires Front(bytes).Some?
    ensures
      var (c, n) := Front(bytes).value;
      bytes[..n] == EncodeChar(c)
  {
    var (c, n) := Front(bytes).value;
    var e := EncodeChar(c);
    if n == 2 {
      Quotient(0, bytes[0] - 0xC0, bytes[1] - 0x80);
    } else if n == 3 {
      Quotient(bytes[0] - 0xE0, bytes[1] - 0x80, bytes[2] - 0x80);
    } else if n == 4 {
      var top: nat := bytes[0] - 0xF0;
      Quotient(64 * top + (bytes[1] - 0x80), bytes[2] - 0x80, bytes[3] - 0x80);
      Quotient(bytes[0] - 0xF0, bytes[1] - 0x80, bytes[2] - 0x80);
    }
    assert bytes[..n] == e;
  }

  lemma {:induction false} Quotient(a: nat, b: nat, c: nat)
    requires b < 64 && c < 64
    ensures
      var n := (64 * a + b) * 64 + c;
      n / 0x1000 == a && n / 0x40 == 64 * a + b && n % 0x40 == c && n / 0x40 % 0x40 == b
  {
  }

  /** A character cut short leaves nothing behind. */
  lemma {:induction false} CutCharVanishes(c: char, m: nat)
    requires m < |EncodeChar(c)|
    ensures DecodeIgnoring(EncodeChar(c)[..m]) == ""
  {
    var cut := EncodeChar(c)[..m];
    if m > 0 {
      assert cut[0] >= 0xC0 && forall i :: 1 <= i < m ==> Continuation(cut[i]);
      assert Front(cut) == None;
      ContinuationsVanish(cut[1..]);
    }
  }

  lemma {:induction false} ContinuationsVanish(bytes: seq<Byte>)
    requires forall b :: b in bytes ==> Continuation(b)
    ensures DecodeIgnoring(bytes) == ""
  {
    if bytes != [] {
      assert bytes[0] in bytes;
      ContinuationsVanish(bytes[1..]);
    }
  }

  /** How many characters of the text fit the budget. */
  ghost function FitLength(text: string, m: nat): (k: nat)
    ensures k <= |text|
  {
    if text == "" || m < |EncodeChar(text[0])| then 0
    else 1 + FitLength(text[1..], m - |EncodeChar(text[0])|)
  }

  lemma {:induction false} FitLengthIsLongest(text: string, m: nat, k: nat)
    requires k <= |text|
    ensures |Encode(text[..k])| <= m <==> k <= FitLength(text, m)
  {
    if k > 0 {
      assert text[..k][1..] == text[1..][..k - 1];
      if m >= |EncodeChar(text[0])| {
        FitLengthIsLongest(text[1..], m - |EncodeChar(text[0])|, k - 1);
      }
    }
  }

  lemma {:induction false} FirstDecodes(c: char, tail: seq<Byte>)
    ensures DecodeIgnoring(EncodeChar(c) + tail) == [c] + DecodeIgnoring(tail)
  {
    FrontOfEncoding(c, tail);
    assert (EncodeChar(c) + tail)[|EncodeChar(c)|..] == tail;
  }

  /** A cut behind the first character leaves it whole. */
  lemma {:induction false} FirstSurvives(text: string, m: nat)
    requires text != "" && |EncodeChar(text[0])| <= m <= |Encode(text)|
    ensures DecodeIgnoring(Encode(text)[..m])
         == [text[0]] + DecodeIgnoring(Encode(text[1..])[..m - |EncodeChar(text[0])|])
  {
    var first, rest := EncodeChar(text[0]), Encode(text[1..]);
    assert Encode(text)[..m] == first + rest[..m - |first|];
    FirstDecodes(text[0], rest[..m - |first|]);
  }

  lemma {:induction false} CutDecodesToPrefix(text: string, m: nat)
    requires m <= |Encode(text)|
    ensures DecodeIgnoring(Encode(text)[..m]) == text[..FitLength(text, m)]
  {
    if text != "" {
      var first := EncodeChar(text[0]);
      if m < |first| {
        assert Encode(text)[..m] == first[..m];
        CutCharVanishes(text[0], m);
      } else {
        FirstSurvives(text, m);
        CutDecodesToPrefix(text[1..], m - |first|);
        assert text[..FitLength(text, m)] == [text[0]] + text[1..][..FitLength(text, m) - 1];
      }
    }
  }

  /** Encoding then decoding gives the text back. */
  lemma {:induction false} RoundTrip(text: string)
    ensures DecodeIgnoring(Encode(text)) == text
  {
    assert Encode(text)[..|Encode(text)|] == Encode(text);
    assert text[..|text|] == text;
    CutDecodesToPrefix(text, |Encode(text)|);
    FitLengthIsLongest(text, |Encode(text)|, |text|);
  }

  lemma {:induction false} EncodeConcat(a: string, b: string)
    ensures Encode(a + b) == Encode(a) + Encode(b)
  {
    if a == "" {
      assert a + b == b;
    } else {
      assert (a + b)[1..] == a[1..] + b;
      EncodeConcat(a[1..], b);
    }
  }

  // --- the guard ----------------------------------------------------------

  /** Truncation returns the longest prefix of whole characters whose encoding fits: a
      prefix fits the budget exactly when it is no longer than the result. */
  lemma {:induction false} TruncateIsLongestPrefix(text: string, maxBytes: nat)
    ensures
      var r := TruncateUtf8(text, maxBytes);
      && r <= text
      && forall k :: 0 <= k <= |text| ==> (|Encode(text[..k])| <= maxBytes <==> k <= |r|)
  {
    var r := TruncateUtf8(text, maxBytes);
    assert text[..|text|] == text;
    if maxBytes > 0 && |Encode(text)| > maxBytes {
      CutDecodesToPrefix(text, maxBytes);
    } else {
      FitLengthIsLongest(text, maxBytes, |text|);
    }
    forall k | 0 <= k <= |text| ensures |Encode(text[..k])| <= maxBytes <==> k <= |r| {
      FitLengthIsLongest(text, maxBytes, k);
      if maxBytes == 0 && text != "" {
        assert FitLength(text, 0) == 0;
      }
    }
  }

  lemma {:induction false} TruncateFits(text: string, maxBytes: nat)
    ensures |Encode(TruncateUtf8(text, maxBytes))| <= maxBytes
    ensures TruncateUtf8(text, maxBytes) != text ==> |Encode(TruncateUtf8(text, maxBytes))| >= maxBytes - 3
  {
    var r := TruncateUtf8(text, maxBytes);
    TruncateIsLongestPrefix(text, maxBytes);
    assert text[..|r|] == r;
    if r != text {
      assert text[..|r| + 1] == r + [text[|r|]];
      EncodeConcat(r, [text[|r|]]);
      assert [text[|r|]][1..] == "";
    }
  }

  /** A pushed body is unchanged when it fits; otherwise it is a prefix of the body and
      the pointer, and wastes at most three bytes of the cap. The cap holds if and only
      if the body fits or the pointer alone does: a card id too long for the cap breaks
      it, because the pointer is never cut. */
  lemma {:induction false} ContentCappedIff(body: Option<string>, cardId: Option<string>)
    ensures |Encode(BoundedContent(body, cardId))| <= 262_144
      <==> |Encode(Body(body))| <= 262_144 || |Encode(Suffix(cardId))| <= 262_144
    ensures |Encode(Body(body))| <= 262_144 ==> BoundedContent(body, cardId) == Body(body)
    ensures |Encode(Body(body))| > 262_144 ==>
      && |Encode(BoundedContent(body, cardId))| >= 262_144 - 3
      && exists k :: 0 <= k < |Body(body)| && BoundedContent(body, cardId) == Body(body)[..k] + Suffix(cardId)
  {
    var text, suffix := Body(body), Suffix(cardId);
    if |Encode(text)| > MAX_CONTENT_BYTES {
      var budget := MAX_CONTENT_BYTES - |Encode(suffix)|;
      var prefix := TruncateUtf8(text, budget);
      EncodeConcat(prefix, suffix);
      if budget >= 0 {
        TruncateIsLongestPrefix(text, budget);
        TruncateFits(text, budget);
        assert text[..|text|] == text;
      }
      assert |prefix| < |text| && prefix == text[..|prefix|];
    }
  }

  /** A body that was cut ends by naming the card it belongs to, or the board when it
      belongs to none. */
  lemma {:induction false} CutBodyPointsToTheCard(body: string, cardId: string)
    requires |Encode(body)| > 262_144
    ensures
      var pushed, pointer := BoundedContent(Some(body), Some(cardId)), "\n\n[truncated \U{2014} see card ";
      cardId != "" ==> exists k :: 0 <= k < |body| && pushed == body[..k] + (pointer + cardId + " on the board]")
    ensures
      var pushed, pointer := BoundedContent(Some(body), None), "\n\n[truncated \U{2014} see the board]";
      exists k :: 0 <= k < |body| && pushed == body[..k] + pointer
  {
    ContentCappedIff(Some(body), Some(cardId));
    ContentCappedIff(Some(body), None);
  }

  /** A card id for which the promised cap fails: long enough, any over-long body is
      pushed over the cap. */
  lemma {:induction false} LongCardIdBreaksTheCap(body: string, cardId: string)
    requires |Encode(body)| > 262_144 && |cardId| >= 262_144
    ensures |Encode(BoundedContent(Some(body), Some(cardId)))| > 262_144
  {
    ContentCappedIff(Some(body), Some(cardId));
    EncodingIsNoShorter(Suffix(Some(cardId)));
    assert |Suffix(Some(cardId))| > |cardId|;
  }

  lemma {:induction false} EncodingIsNoShorter(text: string)
    ensures |Encode(text)| >= |text|
  {
    if text != "" {
      EncodingIsNoShorter(text[1..]);
    }
  }
}
