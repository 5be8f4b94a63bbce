/**
 STOMP frames: the encoder, the byte-by-byte reader, and exactly when the one
 undoes the other (STOMP 1.2, sections "STOMP Frames" and "Augmented BNF").
 Strings are UTF-8 bytes; the lossy decoding of a head is a parameter.
 */
module StompFrame {
  import opened Collections
  import opened Wrappers
  import opened Utf8
  import opened Decimal
  import opened Splitting

  const LF: byte := 10
  const COLON: byte := 58
  const NUL: byte := 0
  const PLUS: byte := 43
  const HEAD_LIMIT: nat := 64 * 1024
  const CONTENT_LENGTH: seq<byte> := [99, 111, 110, 116, 101, 110, 116, 45, 108, 101, 110, 103, 116, 104]

  datatype Header = Header(name: seq<byte>, value: seq<byte>)

  datatype Frame = Frame(command: seq<byte>, headers: seq<Header>, body: seq<byte>)

  datatype ReadError = Eof | TooLarge

  datatype Received = Received(frame: Frame, rest: seq<byte>)

  // --- Encoding -----------------------------------------------------------------

  function EncodeHeaders(hs: seq<Header>): seq<byte> {
    if hs == [] then [] else Line(hs[0]) + [LF] + EncodeHeaders(hs[1..])
  }

  function Line(h: Header): seq<byte> {
    h.name + [COLON] + h.value
  }

  function EncodeHead(f: Frame): seq<byte> {
    f.command + [LF] + EncodeHeaders(f.headers) + [LF]
  }

  function Encode(f: Frame): seq<byte> {
    EncodeHead(f) + (f.body + [NUL])
  }

  method EncodeFrame(command: seq<byte>, headers: seq<Header>, body: seq<byte>) returns (frame: seq<byte>)
    ensures frame == Encode(Frame(command, headers, body))
  {
    frame := command + [LF];
    var k := 0;
    while k < |headers|
      invariant 0 <= k <= |headers|
      invariant frame + EncodeHeaders(headers[k..]) == command + [LF] + EncodeHeaders(headers)
    {
      assert headers[k..][1..] == headers[k + 1..];
      frame := frame + headers[k].name;
      frame := frame + [COLON];
      frame := frame + headers[k].value;
      frame := frame + [LF];
      k := k + 1;
    }
    frame := frame + [LF];
    frame := frame + body;
    frame := frame + [NUL];
  }

  // --- Reading ------------------------------------------------------------------

  predicate EndsHead(data: seq<byte>, n: nat) {
    2 <= n <= |data| && data[n - 2] == LF && data[n - 1] == LF
  }

  /** Where the head ends, once n bytes have been read without meeting a blank line. */
  function HeadEnd(data: seq<byte>, n: nat): (r: Result<nat, ReadError>)
    requires n <= |data|
    ensures r.Ok? ==> n < r.value <= |data| && r.value >= 2 && EndsHead(data, r.value)
    ensures r == Err(TooLarge) ==> |data| > HEAD_LIMIT && n <= |data|
    decreases |data| - n
  {
    if n == |data| then Err(Eof)
    else if EndsHead(data, n + 1) then Ok(n + 1)
    else if n + 1 > HEAD_LIMIT then Err(TooLarge)
    else HeadEnd(data, n + 1)
  }

  function IndexOf(s: seq<byte>, b: byte): (k: nat)
    ensures k <= |s| && b !in s[..k] && (k < |s| ==> s[k] == b)
    ensures k == |s| <==> b !in s
  {
    if s == [] || s[0] == b then 0
    else
      var k := 1 + IndexOf(s[1..], b);
      assert s[..k] == [s[0]] + s[1..][..k - 1];
      k
  }

  lemma {:induction false} IndexIs(s: seq<byte>, before: seq<byte>, after: seq<byte>, b: byte)
    requires s == before + [b] + after && b !in before
    ensures IndexOf(s, b) == |before|
  {
    if before != [] {
      assert before[0] != b;
      assert s[1..] == before[1..] + [b] + after;
      IndexIs(s[1..], before[1..], after, b);
    }
  }

  lemma EndsHeadOf(buffer: seq<byte>, rest: seq<byte>, data: seq<byte>)
    requires buffer + rest == data
    ensures EndsHead(data, |buffer|) <==> |buffer| >= 2 && buffer[|buffer| - 2..] == [LF, LF]
  {
    var n := |buffer|;
    if n >= 2 {
      assert data[n - 2] == buffer[n - 2..][0] && data[n - 1] == buffer[n - 2..][1];
    }
  }

  /** The headers of a head's lines; empty lines and lines without a colon are skipped. */
  function ParseLines(lines: seq<seq<byte>>): seq<Header> {
    if lines == [] then []
    else ParseLine(lines[0]) + ParseLines(lines[1..])
  }

  function ParseLine(line: seq<byte>): seq<Header> {
    var k := IndexOf(line, COLON);
    if k == |line| then [] else [Header(line[..k], line[k + 1..])]
  }

  function FindHeader(hs: seq<Header>, name: seq<byte>): Option<seq<byte>> {
    if hs == [] then None
    else if hs[0].name == name then Some(hs[0].value)
    else FindHeader(hs[1..], name)
  }

  /** Text to a 64-bit usize: an optional plus, then digits. */
  function ParseUsize(text: seq<byte>): Option<nat> {
    var digits := if text != [] && text[0] == PLUS then text[1..] else text;
    if digits == [] || !AllDigits(digits) then None else ParseU64(digits)
  }

  /** The length texts: digits with at most one plus before them, below 2^64. */
  lemma ParseUsizeIff(text: seq<byte>, n: nat)
    ensures ParseUsize(text) == Some(n) <==>
      exists digits :: (text == digits || text == [43] + digits) && IsNumeral(digits, n)
  {
    hide Val;
    if ParseUsize(text) == Some(n) {
      var digits := if text != [] && text[0] == PLUS then text[1..] else text;
      ValBounds(digits);
      assert text == digits || text == [PLUS] + digits;
      assert IsNumeral(digits, n);
    }
    forall digits | (text == digits || text == [PLUS] + digits) && IsNumeral(digits, n)
      ensures ParseUsize(text) == Some(n)
    {
      assert IsDigit(digits[0]);
      assert ([PLUS] + digits)[1..] == digits;
    }
  }

  ghost predicate IsNumeral(digits: seq<byte>, n: nat) {
    digits != [] && AllDigits(digits) && Val(digits) == n < 0x1_0000_0000_0000_0000
  }

  /** Of several headers of one name the first counts. */
  lemma {:induction false} FirstHeaderCounts(hs: seq<Header>, name: seq<byte>, value: seq<byte>)
    ensures FindHeader(hs, name) == Some(value) <==> exists k: nat :: IsFirstHeader(hs, k, name, value)
  {
    if hs != [] {
      FirstHeaderCounts(hs[1..], name, value);
      if hs[0].name == name {
        assert FindHeader(hs, name) == Some(value) ==> IsFirstHeader(hs, 0, name, value);
      } else {
        forall k: nat | IsFirstHeader(hs[1..], k, name, value) ensures IsFirstHeader(hs, k + 1, name, value) {
        }
        forall k: nat | IsFirstHeader(hs, k, name, value) ensures k > 0 && IsFirstHeader(hs[1..], k - 1, name, value) {
        }
      }
    }
  }

  ghost predicate IsFirstHeader(hs: seq<Header>, k: nat, name: seq<byte>, value: seq<byte>) {
    k < |hs| && hs[k] == Header(name, value) && forall j | 0 <= j < k :: hs[j].name != name
  }

  function ContentLength(hs: seq<Header>): Option<nat> {
    match FindHeader(hs, CONTENT_LENGTH)
    case None => None
    case Some(text) => ParseUsize(text)
  }

  /** The body and what follows the one byte after it; that byte is not looked at when the length is known. */
  function ReadBody(length: Option<nat>, data: seq<byte>): (r: Result<(seq<byte>, seq<byte>), ReadError>)
    ensures r.Ok? ==> |r.value.1| < |data|
    ensures r.Err? ==> r.error == Eof
  {
    var end := match length case Some(n) => n case None => IndexOf(data, NUL);
    if end < |data| then Ok((data[..end], data[end + 1..])) else Err(Eof)
  }

  function Read(lossy: seq<byte> -> seq<byte>, data: seq<byte>): (r: Result<Received, ReadError>)
    ensures r.Ok? ==> |r.value.rest| < |data|
  {
    match HeadEnd(data, 0)
    case Err(e) => Err(e)
    case Ok(n) =>
      var lines := Split(lossy(data[..n - 2]), LF);
      var headers := ParseLines(lines[1..]);
      match ReadBody(ContentLength(headers), data[n..])
      case Err(e) => Err(e)
      case Ok(b) => Ok(Received(Frame(lines[0], headers, b.0), b.1))
  }

  /** What every frame gives that was read: clean pieces, and a body its headers account for. */
  ghost predicate Clean(f: Frame) {
    && LF !in f.command
    && forall k | 0 <= k < |f.headers| :: CleanHeader(f.headers[k])
  }

  ghost predicate CleanHeader(h: Header) {
    LF !in h.name && COLON !in h.name && LF !in h.value
  }

  ghost predicate BodyMatches(f: Frame) {
    match ContentLength(f.headers)
    case Some(n) => n == |f.body|
    case None => NUL !in f.body
  }

  /** The frames that survive the wire. */
  ghost predicate Framed(f: Frame) {
    Clean(f) && |EncodeHead(f)| <= 65_537 && BodyMatches(f)
  }

  lemma {:induction false} LinesAreClean(lines: seq<seq<byte>>)
    requires forall k | 0 <= k < |lines| :: LF !in lines[k]
    ensures forall k | 0 <= k < |ParseLines(lines)| :: CleanHeader(ParseLines(lines)[k])
  {
    if lines != [] {
      LinesAreClean(lines[1..]);
      assert LF !in lines[0];
    }
  }

  /** Whatever the bytes, a frame that was read has clean pieces and a body its headers account for. */
  lemma ReadIsClean(lossy: seq<byte> -> seq<byte>, data: seq<byte>)
    requires Read(lossy, data).Ok?
    ensures Clean(Read(lossy, data).value.frame) && BodyMatches(Read(lossy, data).value.frame)
  {
    var n := HeadEnd(data, 0).value;
    var lines := Split(lossy(data[..n - 2]), LF);
    assert forall k | 0 <= k < |lines| :: lines[k] in lines;
    LinesAreClean(lines[1..]);
  }

  // --- Round trips --------------------------------------------------------------

  /** Decoding text that is UTF-8 already changes nothing. */
  ghost predicate Faithful(lossy: seq<byte> -> seq<byte>) {
    forall s :: IsUtf8(s) ==> lossy(s) == s
  }

  ghost predicate IsText(f: Frame) {
    && IsUtf8(f.command)
    && forall k | 0 <= k < |f.headers| :: IsUtf8(f.headers[k].name) && IsUtf8(f.headers[k].value)
  }

  function Lines(hs: seq<Header>): (lines: seq<seq<byte>>)
    ensures |lines| == |hs| && forall k | 0 <= k < |hs| :: lines[k] == Line(hs[k])
  {
    seq(|hs|, k requires 0 <= k < |hs| => Line(hs[k]))
  }

  lemma {:induction false} HeadersAreLines(first: seq<byte>, hs: seq<Header>)
    ensures first + [LF] + EncodeHeaders(hs) == Join([first] + Lines(hs), LF) + [LF]
    decreases |hs|
  {
    var parts := [first] + Lines(hs);
    if hs == [] {
      assert parts == [first];
    } else {
      var next := Line(hs[0]);
      HeadersAreLines(next, hs[1..]);
      assert parts[1..] == [next] + Lines(hs[1..]);
      assert Join(parts, LF) == first + [LF] + Join(parts[1..], LF);
    }
  }

  /** Lines that can be told apart again: none holds a line feed, and only the first may be empty. */
  ghost predicate Separable(parts: seq<seq<byte>>) {
    && |parts| >= 1
    && (forall k | 0 <= k < |parts| :: LF !in parts[k])
    && forall k | 1 <= k < |parts| :: parts[k] != []
  }

  ghost predicate NoBlank(s: seq<byte>) {
    forall k | 0 <= k < |s| - 1 :: s[k] == LF ==> s[k + 1] != LF
  }

  lemma {:induction false} JoinHasNoBlank(parts: seq<seq<byte>>)
    requires Separable(parts)
    ensures NoBlank(Join(parts, LF) + [LF])
  {
    if |parts| > 1 {
      var rest := Join(parts[1..], LF) + [LF];
      assert parts[1] != [] && LF !in parts[1];
      JoinHasNoBlank(parts[1..]);
      assert rest[0] == parts[1][0];
      assert Join(parts, LF) + [LF] == parts[0] + [LF] + rest;
    }
  }

  lemma {:induction false} HeadEndIs(data: seq<byte>, n: nat, end: nat)
    requires n < end <= |data| && n <= HEAD_LIMIT && EndsHead(data, end)
    requires forall m | n < m < end :: !EndsHead(data, m)
    ensures HeadEnd(data, n) == if end <= HEAD_LIMIT + 1 then Ok(end) else Err(TooLarge)
    decreases end - n
  {
    if n + 1 < end && n + 1 <= HEAD_LIMIT {
      HeadEndIs(data, n + 1, end);
    }
  }

  /** The head made of these lines ends exactly after them, unless it is too large. */
  lemma HeadOfLines(parts: seq<seq<byte>>, tail: seq<byte>)
    requires Separable(parts)
    ensures var head := Join(parts, LF) + [LF] + [LF];
            HeadEnd(head + tail, 0) == if |head| <= HEAD_LIMIT + 1 then Ok(|head|) else Err(TooLarge)
  {
    hide HeadEnd;
    var lines := Join(parts, LF) + [LF];
    var data := lines + [LF] + tail;
    var end := |lines| + 1;
    JoinHasNoBlank(parts);
    forall m | 0 < m < end ensures !EndsHead(data, m) {
      if m >= 2 {
        assert data[m - 2] == lines[m - 2] && data[m - 1] == lines[m - 1];
        assert lines[m - 2] == LF ==> lines[m - 2 + 1] != LF;
      }
    }
    HeadEndIs(data, 0, end);
  }

  lemma {:induction false} JoinIsUtf8(parts: seq<seq<byte>>)
    requires |parts| >= 1 && forall k | 0 <= k < |parts| :: IsUtf8(parts[k])
    ensures IsUtf8(Join(parts, LF))
  {
    hide IsUtf8;
    if |parts| > 1 {
      JoinIsUtf8(parts[1..]);
      AsciiIsUtf8(LF);
      ConcatIsUtf8(parts[0], [LF]);
      ConcatIsUtf8(parts[0] + [LF], Join(parts[1..], LF));
    }
  }

  /** A head written line by line is read as those lines. */
  lemma ReadLines(lossy: seq<byte> -> seq<byte>, parts: seq<seq<byte>>, tail: seq<byte>)
    requires Faithful(lossy) && Separable(parts)
    requires forall k | 0 <= k < |parts| :: IsUtf8(parts[k])
    requires |Join(parts, LF)| + 2 <= HEAD_LIMIT + 1
    ensures Read(lossy, Join(parts, LF) + [LF] + [LF] + tail) ==
      match ReadBody(ContentLength(ParseLines(parts[1..])), tail)
      case Err(e) => Err(e)
      case Ok(b) => Ok(Received(Frame(parts[0], ParseLines(parts[1..]), b.0), b.1))
  {
    hide HeadEnd, ReadBody, ParseLines, ContentLength, Split, Join, IsUtf8;
    var block := Join(parts, LF);
    var data := block + [LF] + [LF] + tail;
    HeadOfLines(parts, tail);
    JoinIsUtf8(parts);
    assert data[..|block|] == block && data[|block| + 2..] == tail;
    assert forall p | p in parts :: LF !in p;
    SplitJoin(parts, LF);
  }

  lemma ParseLineOf(h: Header)
    requires CleanHeader(h)
    ensures ParseLine(Line(h)) == [h]
  {
    var line := Line(h);
    IndexIs(line, h.name, h.value, COLON);
    assert line[..|h.name|] == h.name && line[|h.name| + 1..] == h.value;
  }

  lemma {:induction false} ParseLinesOf(hs: seq<Header>)
    requires forall k | 0 <= k < |hs| :: CleanHeader(hs[k])
    ensures ParseLines(Lines(hs)) == hs
  {
    hide ParseLine;
    if hs != [] {
      ParseLineOf(hs[0]);
      assert Lines(hs)[1..] == Lines(hs[1..]);
      ParseLinesOf(hs[1..]);
    }
  }

  lemma LinesAreText(f: Frame)
    requires IsText(f)
    ensures forall k | 0 <= k < |f.headers| :: IsUtf8(Lines(f.headers)[k])
  {
    hide IsUtf8;
    AsciiIsUtf8(COLON);
    forall k | 0 <= k < |f.headers| ensures IsUtf8(Lines(f.headers)[k]) {
      ConcatIsUtf8(f.headers[k].name, [COLON]);
      ConcatIsUtf8(f.headers[k].name + [COLON], f.headers[k].value);
    }
  }

  lemma CleanIsSeparable(f: Frame)
    requires Clean(f)
    ensures Separable([f.command] + Lines(f.headers))
  {
    var parts := [f.command] + Lines(f.headers);
    forall k | 1 <= k < |parts| ensures parts[k] != [] && LF !in parts[k] {
      assert CleanHeader(f.headers[k - 1]) && parts[k] == Line(f.headers[k - 1]);
    }
  }

  lemma EncodeIsLines(f: Frame, rest: seq<byte>)
    ensures EncodeHead(f) == Join([f.command] + Lines(f.headers), LF) + [LF] + [LF]
    ensures Encode(f) + rest == EncodeHead(f) + (f.body + [NUL] + rest)
  {
    HeadersAreLines(f.command, f.headers);
  }

  lemma ReadBodyBack(length: Option<nat>, body: seq<byte>, rest: seq<byte>)
    requires match length case Some(n) => n == |body| case None => NUL !in body
    ensures ReadBody(length, body + [NUL] + rest) == Ok((body, rest))
  {
    var data := body + [NUL] + rest;
    if length.None? {
      IndexIs(data, body, rest, NUL);
    }
    assert data[..|body|] == body && data[|body| + 1..] == rest;
  }

  lemma RoundTrip(lossy: seq<byte> -> seq<byte>, f: Frame, rest: seq<byte>)
    requires Faithful(lossy) && IsText(f) && Framed(f)
    ensures Read(lossy, Encode(f) + rest) == Ok(Received(f, rest))
  {
    hide Read, ReadBody, ParseLines, ContentLength, Join, EncodeHead, Encode, IsUtf8;
    var parts, tail := [f.command] + Lines(f.headers), f.body + [NUL] + rest;
    EncodeIsLines(f, rest);
    CleanIsSeparable(f);
    LinesAreText(f);
    ReadLines(lossy, parts, tail);
    assert parts[1..] == Lines(f.headers);
    ParseLinesOf(f.headers);
    ReadBodyBack(ContentLength(f.headers), f.body, rest);
  }

  lemma TooLargeIsRefused(lossy: seq<byte> -> seq<byte>, f: Frame, rest: seq<byte>)
    requires Clean(f) && |EncodeHead(f)| > HEAD_LIMIT + 1
    ensures Read(lossy, Encode(f) + rest) == Err(TooLarge)
  {
    hide HeadEnd, Encode, EncodeHead, ReadBody, ParseLines, ContentLength, Split, Join;
    EncodeIsLines(f, rest);
    CleanIsSeparable(f);
    HeadOfLines([f.command] + Lines(f.headers), f.body + [NUL] + rest);
  }

  /**
   Reading undoes encoding, consuming exactly the frame, for the framed frames and no
   others: an encoded frame that is not framed is never read back as itself.
   */
  lemma RoundTripIff(lossy: seq<byte> -> seq<byte>, f: Frame, rest: seq<byte>)
    requires Faithful(lossy) && IsText(f)
    ensures Read(lossy, Encode(f) + rest) == Ok(Received(f, rest)) <==> Framed(f)
    ensures forall other | Read(lossy, Encode(f) + rest) == Ok(Received(f, other)) :: Framed(f)
  {
    hide Read, Encode, EncodeHead, IsText, Clean, BodyMatches;
    if Framed(f) {
      RoundTrip(lossy, f, rest);
    } else if Clean(f) && |EncodeHead(f)| > HEAD_LIMIT + 1 {
      TooLargeIsRefused(lossy, f, rest);
    } else if Read(lossy, Encode(f) + rest).Ok? {
      ReadIsClean(lossy, Encode(f) + rest);
    }
  }

  function EncodeAll(fs: seq<Frame>): seq<byte> {
    if fs == [] then [] else Encode(fs[0]) + EncodeAll(fs[1..])
  }

  /** Frame after frame until the stream is empty. */
  function ReadAll(lossy: seq<byte> -> seq<byte>, data: seq<byte>): Result<seq<Frame>, ReadError>
    decreases |data|
  {
    if data == [] then Ok([])
    else
      match Read(lossy, data)
      case Err(e) => Err(e)
      case Ok(got) =>
        match ReadAll(lossy, got.rest)
        case Err(e) => Err(e)
        case Ok(fs) => Ok([got.frame] + fs)
  }

  /** Frames sent one after another arrive as the same sequence, exactly when every one of them is framed. */
  lemma {:induction false} SequenceIff(lossy: seq<byte> -> seq<byte>, fs: seq<Frame>)
    requires Faithful(lossy) && forall k | 0 <= k < |fs| :: IsText(fs[k])
    ensures ReadAll(lossy, EncodeAll(fs)) == Ok(fs) <==> forall k | 0 <= k < |fs| :: Framed(fs[k])
  {
    hide Read, Framed, IsText, Faithful;
    if fs != [] {
      var rest := EncodeAll(fs[1..]);
      var data := Encode(fs[0]) + rest;
      RoundTripIff(lossy, fs[0], rest);
      SequenceIff(lossy, fs[1..]);
      assert fs == [fs[0]] + fs[1..];
      assert data == EncodeAll(fs) != [] by { assert |Encode(fs[0])| > 0; }
      assert ReadAll(lossy, data) == Ok(fs) ==> Read(lossy, data) == Ok(Received(fs[0], Read(lossy, data).value.rest));
      assert (forall k | 0 <= k < |fs| :: Framed(fs[k])) <==>
             Framed(fs[0]) && forall k | 0 <= k < |fs[1..]| :: Framed(fs[1..][k]);
    }
  }

  // --- SEND frames --------------------------------------------------------------

  const SEND: seq<byte> := [83, 69, 78, 68]
  const DESTINATION: seq<byte> := [100, 101, 115, 116, 105, 110, 97, 116, 105, 111, 110]
  const TOPIC_PREFIX: seq<byte> := [47, 116, 111, 112, 105, 99, 47]

  /** The frame that publishes a payload on a topic. */
  function SendFrame(topic: seq<byte>, payload: seq<byte>): Frame {
    Frame(SEND, [Header(DESTINATION, TOPIC_PREFIX + topic), Header(CONTENT_LENGTH, ToDecimal(|payload|))], payload)
  }

  lemma {:induction false} AsciiTextIsUtf8(s: seq<byte>)
    requires forall k | 0 <= k < |s| :: s[k] < 0x80
    ensures IsUtf8(s)
  {
    hide IsUtf8;
    if s == [] {
      EmptyIsUtf8();
    } else {
      AsciiIsUtf8(s[0]);
      AsciiTextIsUtf8(s[1..]);
      ConcatIsUtf8([s[0]], s[1..]);
      assert s == [s[0]] + s[1..];
    }
  }

  lemma EmptyIsUtf8()
    ensures IsUtf8([])
  {
  }

  lemma SendFrameIsText(topic: seq<byte>, payload: seq<byte>)
    requires IsUtf8(topic)
    ensures IsText(SendFrame(topic, payload))
  {
    hide IsUtf8, ToDecimal;
    AsciiTextIsUtf8(SEND);
    AsciiTextIsUtf8(DESTINATION);
    AsciiTextIsUtf8(TOPIC_PREFIX);
    AsciiTextIsUtf8(CONTENT_LENGTH);
    AsciiTextIsUtf8(ToDecimal(|payload|));
    ConcatIsUtf8(TOPIC_PREFIX, topic);
  }

  lemma SendLength(topic: seq<byte>, payload: seq<byte>)
    requires |payload| < U64
    ensures ContentLength(SendFrame(topic, payload).headers) == Some(|payload|)
  {
    hide Val;
    var digits := ToDecimal(|payload|);
    var hs := SendFrame(topic, payload).headers;
    ValOfDecimal(|payload|);
    assert IsDigit(digits[0]);
    assert DESTINATION[0] != CONTENT_LENGTH[0];
    assert hs[1..][0] == Header(CONTENT_LENGTH, digits);
    assert FindHeader(hs, CONTENT_LENGTH) == FindHeader(hs[1..], CONTENT_LENGTH) == Some(digits);
  }

  lemma SendHeadLength(topic: seq<byte>, payload: seq<byte>)
    ensures |EncodeHead(SendFrame(topic, payload))| == 42 + |topic| + |ToDecimal(|payload|)|
  {
    var hs := SendFrame(topic, payload).headers;
    assert hs[1..][1..] == [];
    assert EncodeHeaders(hs[1..]) == Line(hs[1]) + [LF] + EncodeHeaders([]);
    assert EncodeHeaders(hs) == Line(hs[0]) + [LF] + EncodeHeaders(hs[1..]);
  }

  /**
   Publishing is binary-safe: whatever the payload's bytes, the frame is read back
   with it, exactly when the topic holds no line feed and the head fits.
   */
  lemma SendRoundTripIff(lossy: seq<byte> -> seq<byte>, topic: seq<byte>, payload: seq<byte>, rest: seq<byte>)
    requires Faithful(lossy) && IsUtf8(topic) && |payload| < U64
    ensures Read(lossy, Encode(SendFrame(topic, payload)) + rest) == Ok(Received(SendFrame(topic, payload), rest))
      <==> LF !in topic && 42 + |topic| + |ToDecimal(|payload|)| <= 65_537
  {
    hide Read, Encode, EncodeHead, ToDecimal, IsUtf8, ContentLength, IsText;
    var f := SendFrame(topic, payload);
    SendFrameIsText(topic, payload);
    SendLength(topic, payload);
    SendHeadLength(topic, payload);
    RoundTripIff(lossy, f, rest);
    SendIsCleanIff(topic, payload);
  }

  lemma SendIsCleanIff(topic: seq<byte>, payload: seq<byte>)
    ensures Clean(SendFrame(topic, payload)) <==> LF !in topic
  {
    hide ToDecimal, CleanHeader;
    var f := SendFrame(topic, payload);
    LengthIsClean(ToDecimal(|payload|));
    DestinationIsCleanIff(topic);
    assert f.headers[0] == Header(DESTINATION, TOPIC_PREFIX + topic);
    assert f.headers[1] == Header(CONTENT_LENGTH, ToDecimal(|payload|));
  }

  lemma LengthIsClean(digits: seq<byte>)
    requires AllDigits(digits)
    ensures CleanHeader(Header(CONTENT_LENGTH, digits))
  {
    assert forall k | 0 <= k < |digits| :: IsDigit(digits[k]);
  }

  lemma DestinationIsCleanIff(topic: seq<byte>)
    ensures CleanHeader(Header(DESTINATION, TOPIC_PREFIX + topic)) <==> LF !in topic
  {
    assert LF !in TOPIC_PREFIX;
    assert LF in TOPIC_PREFIX + topic <==> LF in topic;
  }

  // --- The bytes on the wire ----------------------------------------------------

  lemma OneHeaderWire(command: seq<byte>, h: Header, body: seq<byte>)
    ensures Encode(Frame(command, [h], body)) == command + [10] + Line(h) + [10, 10] + body + [0]
  {
    hide Line;
    assert [h][1..] == [];
    assert EncodeHeaders([h]) == Line(h) + [LF] + EncodeHeaders([]) == Line(h) + [10];
  }

  lemma TwoHeadersWire(command: seq<byte>, h: Header, g: Header, body: seq<byte>)
    ensures Encode(Frame(command, [h, g], body)) == command + [10] + Line(h) + [10] + Line(g) + [10, 10] + body + [0]
  {
    hide Line;
    assert [h, g][1..] == [g] && [g][1..] == [];
    assert EncodeHeaders([g]) == Line(g) + [LF] + EncodeHeaders([]) == Line(g) + [10];
    assert EncodeHeaders([h, g]) == Line(h) + [10] + EncodeHeaders([g]);
  }

  /** The texts of the protocol, in ASCII. */
  lemma TextsAreAscii()
    ensures SEND == Ascii("SEND") && CONTENT_LENGTH == Ascii("content-length")
    ensures DESTINATION + [COLON] + TOPIC_PREFIX == Ascii("destination:/topic/")
    ensures CONTENT_LENGTH + [COLON] == Ascii("content-length:")
  {
  }

  lemma TopicLine(a: seq<byte>, b: seq<byte>, c: seq<byte>, d: seq<byte>)
    ensures a + b + (c + d) == a + b + c + d
  {
  }

  lemma SendLines(topic: seq<byte>, payload: seq<byte>)
    ensures Line(Header(DESTINATION, TOPIC_PREFIX + topic)) == Ascii("destination:/topic/") + topic
    ensures Line(Header(CONTENT_LENGTH, ToDecimal(|payload|))) == Ascii("content-length:") + ToDecimal(|payload|)
  {
    TextsAreAscii();
    hide ToDecimal, Ascii;
    TopicLine(DESTINATION, [COLON], TOPIC_PREFIX, topic);
  }

  /** What publishing puts on the wire, byte for byte. */
  lemma SendWire(topic: seq<byte>, payload: seq<byte>)
    ensures Encode(SendFrame(topic, payload)) ==
      Ascii("SEND") + [10] + (Ascii("destination:/topic/") + topic) + [10]
      + (Ascii("content-length:") + ToDecimal(|payload|)) + [10, 10] + payload + [0]
  {
    TextsAreAscii();
    SendLines(topic, payload);
    hide ToDecimal, Encode, Ascii, Line;
    TwoHeadersWire(SEND, Header(DESTINATION, TOPIC_PREFIX + topic),
                   Header(CONTENT_LENGTH, ToDecimal(|payload|)), payload);
  }

  lemma OneHeaderLength(command: seq<byte>, h: Header, body: seq<byte>)
    ensures |EncodeHead(Frame(command, [h], body))| == |command| + |h.name| + |h.value| + 4
  {
    assert [h][1..] == [];
    assert EncodeHeaders([h]) == Line(h) + [LF] + EncodeHeaders([]);
  }

  lemma FoundFirst(h: Header, name: seq<byte>)
    ensures FindHeader([h], name) == if h.name == name then Some(h.value) else None
  {
    assert [h][1..] == [];
  }

  /**
   A frame another party wrote by the standard (STOMP 1.2, section "Augmented BNF"): command,
   one header to a line with a colon, a blank line, the body and a NUL. It is read as those pieces,
   and the stream left behind it, if it states no length and its body holds no NUL.
   */
  lemma PeerFrameIsRead(lossy: seq<byte> -> seq<byte>, command: seq<byte>, name: seq<byte>, value: seq<byte>,
                        body: seq<byte>, rest: seq<byte>)
    requires Faithful(lossy) && IsUtf8(command) && IsUtf8(name) && IsUtf8(value)
    requires 10 !in command && 10 !in name && 10 !in value && 58 !in name
    requires name != Ascii("content-length") && 0 !in body && |command| + |name| + |value| + 4 <= 65_537
    ensures Read(lossy, command + [10] + (name + [58] + value) + [10, 10] + body + [0] + rest)
         == Ok(Received(Frame(command, [Header(name, value)], body), rest))
  {
    TextsAreAscii();
    hide Read, IsUtf8, Faithful, Encode, EncodeHead, Ascii, FindHeader;
    var h := Header(name, value);
    OneHeaderWire(command, h, body);
    OneHeaderLength(command, h, body);
    FoundFirst(h, CONTENT_LENGTH);
    RoundTrip(lossy, Frame(command, [h], body), rest);
  }

  lemma LengthHeader(n: nat)
    requires n < U64
    ensures var h := Header(CONTENT_LENGTH, ToDecimal(n));
            CleanHeader(h) && IsUtf8(h.name) && IsUtf8(h.value) && ContentLength([h]) == Some(n)
  {
    hide ToDecimal, Val, IsUtf8, FindHeader;
    var digits := ToDecimal(n);
    AsciiTextIsUtf8(CONTENT_LENGTH);
    AsciiTextIsUtf8(digits);
    LengthIsClean(digits);
    ValOfDecimal(n);
    assert IsDigit(digits[0]);
    FoundFirst(Header(CONTENT_LENGTH, digits), CONTENT_LENGTH);
  }

  /** With its length stated, decimal, the body may hold anything. */
  lemma PeerLengthIsRead(lossy: seq<byte> -> seq<byte>, command: seq<byte>, body: seq<byte>, rest: seq<byte>)
    requires Faithful(lossy) && IsUtf8(command) && 10 !in command && |body| < U64
    requires |command| + |ToDecimal(|body|)| + 18 <= 65_537
    ensures Read(lossy, command + [10] + (Ascii("content-length:") + ToDecimal(|body|)) + [10, 10] + body + [0] + rest)
         == Ok(Received(Frame(command, [Header(Ascii("content-length"), ToDecimal(|body|))], body), rest))
  {
    TextsAreAscii();
    hide Read, IsUtf8, Faithful, ToDecimal, Encode, EncodeHead, Ascii, ContentLength, CleanHeader;
    var h := Header(CONTENT_LENGTH, ToDecimal(|body|));
    assert |CONTENT_LENGTH| == 14;
    LengthHeader(|body|);
    OneHeaderWire(command, h, body);
    OneHeaderLength(command, h, body);
    RoundTrip(lossy, Frame(command, [h], body), rest);
  }

  // --- The byte after a body ----------------------------------------------------

  lemma {:induction false} HeadEndPrefix(a: seq<byte>, b: seq<byte>, n: nat)
    requires n <= |a| && n <= |b| && HeadEnd(a, n).Ok?
    requires HeadEnd(a, n).value <= |b| && a[..HeadEnd(a, n).value] == b[..HeadEnd(a, n).value]
    ensures HeadEnd(b, n) == HeadEnd(a, n)
    decreases |a| - n
  {
    var end := HeadEnd(a, n).value;
    assert forall k | 0 <= k < end :: a[k] == a[..end][k] == b[k];
    assert EndsHead(a, n + 1) <==> EndsHead(b, n + 1);
    if !EndsHead(a, n + 1) {
      HeadEndPrefix(a, b, n + 1);
    }
  }

  lemma ReadBodyPatched(length: Option<nat>, data: seq<byte>, b: byte)
    requires ReadBody(length, data).Ok?
    ensures var end := |ReadBody(length, data).value.0|;
            end < |data| && (ReadBody(length, data[end := b]) == ReadBody(length, data) <==> length.Some? || b == NUL)
  {
    var end := |ReadBody(length, data).value.0|;
    assert data[end := b][..end] == data[..end] && data[end := b][end + 1..] == data[end + 1..];
    if b == NUL {
      assert length.None? ==> data[end := b] == data;
    }
  }

  /**
   Whatever the stream: another byte in the place right behind a body that was read changes
   nothing exactly when the body's length was known, or that byte is the NUL it should be.
   */
  lemma TerminatorIgnoredIff(lossy: seq<byte> -> seq<byte>, data: seq<byte>, b: byte)
    requires Read(lossy, data).Ok?
    ensures var got := Read(lossy, data).value;
            var place := |data| - |got.rest| - 1;
            Read(lossy, data[place := b]) == Read(lossy, data) <==>
              ContentLength(got.frame.headers).Some? || b == NUL
  {
    hide HeadEnd, EndsHead, ReadBody, ParseLines, ContentLength, Split;
    var n, got := HeadEnd(data, 0).value, Read(lossy, data).value;
    var length, tail := ContentLength(got.frame.headers), data[n..];
    ReadBodyEnds(length, tail);
    var place := |data| - |got.rest| - 1;
    var end := place - n;
    var patched := data[place := b];
    ReadBodyPatched(length, tail, b);
    assert patched[..n] == data[..n] && patched[n..] == tail[end := b];
    HeadEndPrefix(data, patched, 0);
    assert patched[..n - 2] == data[..n - 2];
  }

  lemma ReadBodyEnds(length: Option<nat>, data: seq<byte>)
    requires ReadBody(length, data).Ok?
    ensures var (body, rest) := ReadBody(length, data).value; |body| + 1 + |rest| == |data|
  {
  }

  /** Sent with any byte for its NUL, a framed frame comes back exactly when it states its length or the byte is NUL. */
  lemma WrongTerminatorIff(lossy: seq<byte> -> seq<byte>, f: Frame, b: byte, rest: seq<byte>)
    requires Faithful(lossy) && IsText(f)
    ensures Read(lossy, EncodeHead(f) + (f.body + [b] + rest)) == Ok(Received(f, rest))
      <==> Framed(f) && (ContentLength(f.headers).Some? || b == NUL)
  {
    hide Read, EncodeHead, Framed, IsText, Faithful, ContentLength;
    var sent, data := EncodeHead(f) + (f.body + [b] + rest), Encode(f) + rest;
    var place := |EncodeHead(f)| + |f.body|;
    EncodeIsLines(f, rest);
    assert sent[place := NUL] == data && data[place := b] == sent;
    RoundTripIff(lossy, f, rest);
    if Read(lossy, sent) == Ok(Received(f, rest)) {
      TerminatorIgnoredIff(lossy, sent, NUL);
    }
    if Framed(f) {
      TerminatorIgnoredIff(lossy, data, b);
    }
  }

  // --- Line feeds between frames ------------------------------------------------

  /** Decoding keeps a leading ASCII byte. */
  ghost predicate KeepsFirst(lossy: seq<byte> -> seq<byte>) {
    forall s | s != [] && s[0] < 0x80 :: lossy(s) != [] && lossy(s)[0] == s[0]
  }

  /** Whatever follows a line feed, the frame read from there has an empty command. */
  lemma LineFeedEmptiesCommand(lossy: seq<byte> -> seq<byte>, data: seq<byte>)
    requires Faithful(lossy) && KeepsFirst(lossy) && Read(lossy, [LF] + data).Ok?
    ensures Read(lossy, [LF] + data).value.frame.command == []
  {
    hide HeadEnd, ReadBody, ParseLines, ContentLength;
    var stream := [LF] + data;
    var n := HeadEnd(stream, 0).value;
    var head := stream[..n - 2];
    if n == 2 {
      EmptyIsUtf8();
      assert head == [];
    } else {
      assert head[0] == LF;
    }
  }

  lemma TwoLineFeedsAreAHead(lossy: seq<byte> -> seq<byte>, tail: seq<byte>)
    requires Faithful(lossy)
    ensures Read(lossy, [LF, LF] + tail) ==
      match ReadBody(None, tail)
      case Err(e) => Err(e)
      case Ok(b) => Ok(Received(Frame([], [], b.0), b.1))
  {
    hide ReadBody, HeadEnd;
    var data := [LF, LF] + tail;
    HeadEndIs(data, 0, 2);
    EmptyIsUtf8();
    assert data[..0] == [] && data[2..] == tail;
    var lines := Split(data[..0], LF);
    assert lines == [[]] && lines[1..] == [];
  }

  /**
   The standard lets a line feed follow a frame's NUL. The reader does not skip it: no
   frame at all comes back behind one, whatever follows it and wherever reading ends.
   */
  lemma NoFrameSurvivesLineFeed(lossy: seq<byte> -> seq<byte>, f: Frame, rest: seq<byte>, other: seq<byte>)
    requires Faithful(lossy) && KeepsFirst(lossy)
    ensures Read(lossy, [LF] + (Encode(f) + rest)) != Ok(Received(f, other))
  {
    hide Read, KeepsFirst, Faithful;
    var data := Encode(f) + rest;
    if Read(lossy, [LF] + data) == Ok(Received(f, other)) {
      LineFeedEmptiesCommand(lossy, data);
      assert Encode(f)[0] == LF;
      var tail := data[1..];
      assert [LF] + data == [LF, LF] + tail;
      TwoLineFeedsAreAHead(lossy, tail);
    }
  }

  lemma CommandIsALine(f: Frame)
    requires Clean(f)
    ensures ParseLines([f.command] + Lines(f.headers)) == ParseLine(f.command) + f.headers
    ensures COLON !in f.command ==> ParseLine(f.command) == []
  {
    hide IndexOf, Lines;
    var lines := [f.command] + Lines(f.headers);
    assert lines[1..] == Lines(f.headers);
    ParseLinesOf(f.headers);
  }

  lemma ShiftedLines(f: Frame, rest: seq<byte>)
    requires IsText(f) && Framed(f) && f.command != []
    ensures var parts := [[]] + ([f.command] + Lines(f.headers));
            && Separable(parts)
            && (forall k | 0 <= k < |parts| :: IsUtf8(parts[k]))
            && |Join(parts, LF)| + 1 == |EncodeHead(f)|
            && [LF] + Encode(f) + rest == Join(parts, LF) + [LF] + [LF] + (f.body + [NUL] + rest)
  {
    hide Encode, EncodeHead, IsUtf8, Lines;
    var lines, tail := [f.command] + Lines(f.headers), f.body + [NUL] + rest;
    EncodeIsLines(f, rest);
    CleanIsSeparable(f);
    LinesAreText(f);
    EmptyIsUtf8();
    assert ([[]] + lines)[1..] == lines;
    Shifted(Encode(f), EncodeHead(f), Join(lines, LF), rest, tail);
  }

  lemma Shifted(encoded: seq<byte>, head: seq<byte>, block: seq<byte>, rest: seq<byte>, tail: seq<byte>)
    requires encoded + rest == head + tail && head == block + [LF] + [LF]
    ensures [LF] + encoded + rest == [] + [LF] + block + [LF] + [LF] + tail
  {
    assert [LF] + encoded + rest == [LF] + (encoded + rest);
  }

  /**
   What comes out instead: the frame's command is one more line of the head, dropped unless
   it reads as a header, and a head that was just short enough is now too large.
   */
  lemma LineFeedBetweenFrames(lossy: seq<byte> -> seq<byte>, f: Frame, rest: seq<byte>)
    requires Faithful(lossy) && IsText(f) && Framed(f) && f.command != []
    ensures var headers := ParseLine(f.command) + f.headers;
            Read(lossy, [LF] + Encode(f) + rest) ==
              if |EncodeHead(f)| > HEAD_LIMIT then Err(TooLarge)
              else match ReadBody(ContentLength(headers), f.body + [NUL] + rest)
                   case Err(e) => Err(e)
                   case Ok(b) => Ok(Received(Frame([], headers, b.0), b.1))
    ensures COLON !in f.command && |EncodeHead(f)| <= HEAD_LIMIT ==>
              Read(lossy, [LF] + Encode(f) + rest) == Ok(Received(f.(command := []), rest))
  {
    hide HeadEnd, ReadBody, ContentLength, Encode, EncodeHead, IsUtf8, Separable, ParseLines, ParseLine;
    hide Lines, Join, IsText, Clean, Faithful, Split;
    var lines, tail := [f.command] + Lines(f.headers), f.body + [NUL] + rest;
    ShiftedLines(f, rest);
    HeadOfLines([[]] + lines, tail);
    if |EncodeHead(f)| <= HEAD_LIMIT {
      ReadLines(lossy, [[]] + lines, tail);
      assert ([[]] + lines)[1..] == lines;
    }
    CommandIsALine(f);
    if COLON !in f.command {
      assert [] + f.headers == f.headers;
      ReadBodyBack(ContentLength(f.headers), f.body, rest);
    }
  }

  // --- The reader's loops -------------------------------------------------------

  class Reader {
    var data: seq<byte>

    constructor (input: seq<byte>)
      ensures data == input
    {
      data := input;
    }

    method ReadByte() returns (b: Option<byte>)
      modifies this
      ensures b == if old(data) == [] then None else Some(old(data)[0])
      ensures data == if old(data) == [] then [] else old(data)[1..]
    {
      if data == [] {
        return None;
      }
      b := Some(data[0]);
      data := data[1..];
    }

    /** Fills a buffer of n bytes, or fails with the stream drained. */
    method ReadExact(n: nat) returns (bytes: Option<seq<byte>>)
      modifies this
      ensures bytes == if n <= |old(data)| then Some(old(data)[..n]) else None
      ensures data == if n <= |old(data)| then old(data)[n..] else []
    {
      if n <= |data| {
        bytes := Some(data[..n]);
        data := data[n..];
      } else {
        bytes := None;
        data := [];
      }
    }

    method ReadHead() returns (r: Result<seq<byte>, ReadError>)
      modifies this
      ensures match HeadEnd(old(data), 0)
              case Ok(n) => r == Ok(old(data)[..n]) && data == old(data)[n..]
              case Err(Eof) => r == Err(Eof) && data == []
              case Err(TooLarge) => r == Err(TooLarge) && data == old(data)[HEAD_LIMIT + 1..]
    {
      hide EndsHead;
      var buffer: seq<byte> := [];
      while true
        invariant buffer + data == old(data) && |buffer| <= HEAD_LIMIT
        invariant HeadEnd(old(data), |buffer|) == HeadEnd(old(data), 0)
        decreases |data|
      {
        var b := ReadByte();
        if b.None? {
          return Err(Eof);
        }
        buffer := buffer + [b.value];
        EndsHeadOf(buffer, data, old(data));
        if |buffer| >= 2 && buffer[|buffer| - 2..] == [LF, LF] {
          return Ok(buffer);
        }
        if |buffer| > HEAD_LIMIT {
          return Err(TooLarge);
        }
      }
    }

    method ReadToNul() returns (r: Option<seq<byte>>)
      modifies this
      ensures match ReadBody(None, old(data))
              case Ok(b) => r == Some(b.0) && data == b.1
              case Err(_) => r == None && data == []
    {
      hide IndexOf;
      var body: seq<byte> := [];
      while true
        invariant body + data == old(data) && NUL !in body
        decreases |data|
      {
        var b := ReadByte();
        if b.None? {
          return None;
        }
        if b.value == NUL {
          IndexIs(old(data), body, data, NUL);
          return Some(body);
        }
        body := body + [b.value];
      }
    }

    /** The body: by its length and the byte after it, or up to the terminating NUL. */
    method ReadBodyBytes(length: Option<nat>) returns (body: Option<seq<byte>>)
      modifies this
      ensures match ReadBody(length, old(data))
              case Ok(b) => body == Some(b.0) && data == b.1
              case Err(_) => body == None && data == []
    {
      match length {
        case Some(n) =>
          body := ReadExact(n);
          if body.None? {
            return None;
          }
          var terminator := ReadByte();
          if terminator.None? {
            return None;
          }
        case None =>
          body := ReadToNul();
      }
    }

    /** Reads one frame, and leaves the stream right after it. */
    method ReadFrame(lossy: seq<byte> -> seq<byte>) returns (r: Result<Frame, ReadError>)
      modifies this
      ensures match Read(lossy, old(data))
              case Ok(got) => r == Ok(got.frame) && data == got.rest
              case Err(Eof) => r == Err(Eof) && data == []
              case Err(TooLarge) => r == Err(TooLarge) && data == old(data)[HEAD_LIMIT + 1..]
    {
      hide HeadEnd, EndsHead, ReadBody, ParseLines, ContentLength, Split;
      var head := ReadHead();
      if head.Err? {
        return Err(head.error);
      }
      var buffer := head.value;
      var lines := Split(lossy(buffer[..|buffer| - 2]), LF);
      assert buffer[..|buffer| - 2] == old(data)[..|buffer| - 2];
      var headers := ReadHeaders(lines[1..]);
      var body := ReadBodyBytes(ContentLength(headers));
      if body.None? {
        return Err(Eof);
      }
      r := Ok(Frame(lines[0], headers, body.value));
    }
  }

  lemma ParsedLine(line: seq<byte>)
    ensures ParseLine(line) ==
      if IndexOf(line, COLON) == |line| then []
      else [Header(line[..IndexOf(line, COLON)], line[IndexOf(line, COLON) + 1..])]
  {
    hide IndexOf;
  }

  method ReadHeaders(lines: seq<seq<byte>>) returns (headers: seq<Header>)
    ensures headers == ParseLines(lines)
  {
    hide IndexOf, ParseLine;
    headers := [];
    var k := 0;
    while k < |lines|
      invariant 0 <= k <= |lines|
      invariant headers + ParseLines(lines[k..]) == ParseLines(lines)
    {
      var line := lines[k];
      assert lines[k..][1..] == lines[k + 1..];
      k := k + 1;
      assert ParseLines(lines[k - 1..]) == ParseLine(line) + ParseLines(lines[k..]);
      Assoc(headers, ParseLine(line), ParseLines(lines[k..]));
      ParsedLine(line);
      if line == [] {
        assert headers + [] == headers;
        continue;
      }
      var colon := IndexOf(line, COLON);
      if colon < |line| {
        headers := headers + [Header(line[..colon], line[colon + 1..])];
      } else {
        assert headers + [] == headers;
      }
    }
  }
}
