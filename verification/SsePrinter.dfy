// The public SSE printer, and printing followed by decoding.

module SsePrinter {
  import opened Domain
  import opened Json
  import opened SseFraming
  import opened SseDecoder

  /** One line of UTF-8 that begins with an opening brace. */
  predicate ObjectLine(b: Bytes) {
    Utf8(b) && b != [] && b[0] == OPEN_BRACE && LF !in b && CR !in b
  }

  /** The body of every public failure: its code matches none of the classified ones. */
  const FAILED_JSON := JObject(map[
    "error" := JObject(map[
      "message" := JString("The configured upstream provider could not complete the stream"),
      "type" := JString("upstream_error"),
      "code" := JString("upstream_error")])])

  /** What the JSON library guarantees of one object: it prints on one line and parses back to itself. */
  predicate PrintsBack(codec: Codec, j: Json) {
    j.JObject? && ObjectLine(codec.print_(j)) && codec.parse(codec.print_(j)) == Some(j)
  }

  /** The fixed body of a public failure is the text of its JSON. */
  predicate Lawful(codec: Codec) {
    ObjectLine(codec.failedBody) && codec.parse(codec.failedBody) == Some(FAILED_JSON)
  }

  /** A chunk as it crosses the port: the library prints it back, and reading it keeps every field. */
  predicate Canonical(codec: Codec, chunk: Json) {
    PrintsBack(codec, chunk) && "error" !in chunk.fields && codec.toChunk(chunk) == Some(chunk)
  }

  function DataFrame(body: Bytes): Bytes {
    DATA + [SPACE] + body + [LF, LF]
  }

  function BodyOf(codec: Codec, event: Event): Bytes {
    match event
    case Frame(chunk) => codec.print_(chunk)
    case Completed => DONE
    case Failed(_) => codec.failedBody
  }

  function PublicBytes(codec: Codec, event: Event): Bytes {
    DataFrame(BodyOf(codec, event))
  }

  function PublicStream(codec: Codec, events: seq<Event>): Bytes {
    if events == [] then [] else PublicBytes(codec, events[0]) + PublicStream(codec, events[1..])
  }

  /** The bytes of one event: `data: `, the body, and two newlines. */
  lemma PublicFrameBytes(codec: Codec, event: Event)
    ensures PublicBytes(codec, event) ==
              [100, 97, 116, 97, 58, 32]
              + (match event
                 case Frame(chunk) => codec.print_(chunk)
                 case Completed => [91, 68, 79, 78, 69, 93]
                 case Failed(_) => codec.failedBody)
              + [10, 10]
  {
    assert DATA + [SPACE] == [100, 97, 116, 97, 58, 32];
  }

  // ---------- One printed frame ----------

  predicate OneLine(body: Bytes) {
    Utf8(body) && body != [] && LF !in body && CR !in body
  }

  lemma {:induction false} NoLFIndex(a: Bytes, b: Bytes)
    requires LF !in a
    ensures IndexOfLF(a + [LF] + b) == |a|
  {
    if a == [] {
      assert a + [LF] + b == [LF] + b;
    } else {
      assert a[0] in a;
      assert (a + [LF] + b)[1..] == a[1..] + [LF] + b;
      NoLFIndex(a[1..], b);
    }
  }

  lemma PrefixIsUtf8()
    ensures Utf8(DATA + [SPACE]) && Utf8([LF]) && Utf8([])
  {
    AsciiUtf8(DATA + [SPACE]);
    AsciiUtf8([LF]);
  }

  lemma {:induction false} AsciiUtf8(b: Bytes)
    requires forall i :: 0 <= i < |b| ==> b[i] <= 0x7F
    ensures Utf8(b)
  {
    if b != [] {
      AsciiUtf8(b[1..]);
    }
  }

  /** A printed frame is cut out whole, whatever follows it. */
  lemma PrintedFrameCut(body: Bytes, more: Bytes)
    requires OneLine(body)
    ensures var frame := DATA + [SPACE] + body + [LF];
            FrameCut(DataFrame(body) + more) == Some(Cut(|frame|, |frame| + 1))
    ensures (DataFrame(body) + more)[..|DATA + [SPACE] + body + [LF]|] == DATA + [SPACE] + body + [LF]
    ensures (DataFrame(body) + more)[|DataFrame(body)|..] == more
  {
    var frame := DATA + [SPACE] + body + [LF];
    var b := DataFrame(body) + more;
    var n := |frame|;
    assert b == frame + [LF] + more;
    assert b[n] == LF && b[n - 1] == LF;
    assert body[|body| - 1] in body && b[n - 2] == body[|body| - 1];
    forall i | 0 <= i < n
      ensures !BlankLineAt(b, i)
    {
      if i < n - 1 {
        assert b[i] != LF by {
          if i >= 6 {
            assert b[i] == body[i - 6] && body[i - 6] in body;
          }
        }
      }
    }
    assert BlankLineAt(b, n);
    assert FirstBlank(b, 0) == Some(n);
  }

  lemma FrameIsUtf8(body: Bytes)
    requires OneLine(body)
    ensures Utf8(DATA + [SPACE] + body + [LF])
  {
    PrefixIsUtf8();
    Utf8Concat(DATA + [SPACE], body);
    Utf8Concat(DATA + [SPACE] + body, [LF]);
  }

  lemma OneLineOf(line: Bytes)
    requires LF !in line && line != [] && line[|line| - 1] != CR
    ensures Lines(line + [LF]) == [line]
  {
    var frame := line + [LF];
    NoLFIndex(line, []);
    assert frame == line + [LF] + [];
    assert frame[..|line|] == line && frame[|line| + 1..] == [];
    assert Lines(frame) == [line] + Lines([]);
  }

  lemma DataOf(body: Bytes)
    requires OneLine(body)
    ensures DataValue(DATA + [SPACE] + body) == Some(body)
  {
    var line := DATA + [SPACE] + body;
    assert line[|line| - 1] == body[|body| - 1] && body[|body| - 1] in body;
    assert StripCR(line) == line;
    assert line[..5] == DATA && line[5..] == [SPACE] + body;
    assert ([SPACE] + body)[1..] == body;
  }

  /** Its data is the printed body. */
  lemma PrintedFrameData(body: Bytes)
    requires OneLine(body)
    ensures var frame := DATA + [SPACE] + body + [LF];
            Utf8(frame) && DataValues(Lines(frame)) == [body]
  {
    var line := DATA + [SPACE] + body;
    FrameIsUtf8(body);
    assert line[|line| - 1] == body[|body| - 1] && body[|body| - 1] in body;
    OneLineOf(line);
    DataOf(body);
    assert [line][1..] == [];
  }

  lemma PrintedFrameDecodes(codec: Codec, now: nat, body: Bytes, more: Bytes)
    requires OneLine(body)
    ensures var reader := ReaderFor(codec, now);
            FrontOf(reader, DataFrame(body) + more) ==
              match DecodeData(codec, body, now)
              case Ok(event) => if IsTerminal(event) then End(event) else Emit(event, more)
              case Err(category) => End(Failed(SanitizedFailure(category, now)))
  {
    var frame := DATA + [SPACE] + body + [LF];
    assert Decoded(codec, frame, now) ==
           match DecodeData(codec, body, now) { case Ok(event) => Ok(Some(event)) case Err(category) => Err(category) }
    by {
      PrintedFrameData(body);
      assert JoinLF([body]) == body;
    }
    PrintedFrameCut(body, more);
    assert ReaderFor(codec, now).decode(frame) == Decoded(codec, frame, now);
  }

  lemma NothingToTrim(b: Bytes)
    requires b != [] && 0x40 <= b[0] <= 0x7F
    ensures TrimStart(b) == b
  {
  }

  lemma ObjectIsNotDone(body: Bytes)
    requires ObjectLine(body)
    ensures !IsDone(body)
  {
    NothingToTrim(body);
  }

  lemma DoneIsLine()
    ensures OneLine(DONE)
  {
    AsciiUtf8(DONE);
  }

  lemma DoneIsDone()
    ensures IsDone(DONE)
  {
    NothingToTrim(DONE);
    var rest := DONE[|DONE|..];
    assert rest == [] && TrimStart(rest) == rest;
  }

  // ---------- The public failure ----------

  lemma AbsentFirst(s: string, part: string)
    requires part != "" && part[0] !in s
    ensures !Contains(s, part)
  {
    forall i | 0 <= i <= |s|
      ensures !MatchesAt(s, part, i)
    {
      assert i + |part| <= |s| ==> s[i..i + |part|][0] == s[i] && s[i] in s;
    }
  }

  lemma AbsentPair(s: string, part: string)
    requires |part| >= 2 && forall i :: 0 <= i < |s| - 1 ==> s[i] == part[0] ==> s[i + 1] != part[1]
    ensures !Contains(s, part)
  {
    forall i | 0 <= i <= |s|
      ensures !MatchesAt(s, part, i)
    {
      assert i + |part| <= |s| ==> s[i..i + |part|][0] == s[i] && s[i..i + |part|][1] == s[i + 1];
    }
  }

  /** "upstream_error" holds none of the classified words. */
  lemma UnclassifiedCode(s: string)
    requires s == "upstream_error"
    ensures CategoryOfCode(s) == ProviderUnavailable
  {
    assert LowerAll(s) == s;
    AbsentFirst(s, "insufficient_quota");
    AbsentFirst(s, "quota_exceeded");
    AbsentFirst(s, "credit");
    AbsentFirst(s, "key");
    AbsentPair(s, "rate");
    AbsentPair(s, "model");
    AbsentPair(s, "auth");
  }

  lemma PublicFailureCategory()
    ensures "error" in FAILED_JSON.fields && CategoryOf(FAILED_JSON.fields["error"]) == ProviderUnavailable
  {
    var error := FAILED_JSON.fields["error"];
    assert AsStr(Get(error.fields, "code")) == Some("upstream_error");
    UnclassifiedCode("upstream_error");
  }

  // ---------- Round trip ----------

  /** What a printed event decodes to: the same, except that a failure loses its category to the public one. */
  function AsDecoded(event: Event, now: nat): Event {
    if event.Failed? then Failed(SanitizedFailure(ProviderUnavailable, now)) else event
  }

  lemma BodyDecodes(codec: Codec, now: nat, event: Event)
    requires Lawful(codec) && (event.Frame? ==> Canonical(codec, event.chunk))
    ensures OneLine(BodyOf(codec, event)) && DecodeData(codec, BodyOf(codec, event), now) == Ok(AsDecoded(event, now))
  {
    match event
    case Frame(chunk) => ObjectIsNotDone(codec.print_(chunk));
    case Completed =>
      DoneIsDone();
      DoneIsLine();
    case Failed(_) =>
      ObjectIsNotDone(codec.failedBody);
      PublicFailureCategory();
  }

  lemma {:induction false} PrintedEventDecodes(codec: Codec, now: nat, event: Event, more: Bytes)
    requires Lawful(codec) && (event.Frame? ==> Canonical(codec, event.chunk))
    ensures FrontOf(ReaderFor(codec, now), PublicBytes(codec, event) + more) ==
            if event.Frame? then Emit(event, more) else End(AsDecoded(event, now))
  {
    BodyDecodes(codec, now, event);
    PrintedFrameDecodes(codec, now, BodyOf(codec, event), more);
  }

  lemma {:induction false} PrintThenParse(codec: Codec, now: nat, frames: seq<Json>, last: Event)
    requires Lawful(codec) && IsTerminal(last)
    requires forall i :: 0 <= i < |frames| ==> Canonical(codec, frames[i])
    ensures ParseAll(ReaderFor(codec, now), PublicStream(codec, AsEvents(frames) + [last]))
         == Parsed(AsEvents(frames) + [AsDecoded(last, now)], [], true)
  {
    var events := AsEvents(frames) + [last];
    if frames == [] {
      assert events == [last];
      PrintedEventDecodes(codec, now, last, PublicStream(codec, []));
    } else {
      assert events[0] == Frame(frames[0]) && events[1..] == AsEvents(frames[1..]) + [last];
      PrintThenParse(codec, now, frames[1..], last);
      PrintedEventDecodes(codec, now, events[0], PublicStream(codec, events[1..]));
      Reassociate([events[0]], AsEvents(frames[1..]), [AsDecoded(last, now)]);
    }
  }

  function AsEvents(frames: seq<Json>): (events: seq<Event>)
    ensures |events| == |frames|
  {
    if frames == [] then [] else [Frame(frames[0])] + AsEvents(frames[1..])
  }

  /** Printing then decoding is the identity, under any pending polls and exactly the chunkings that keep the decoder
      in step with its bytes, among them every one whose chunks fit: the client's decoder emits the same frames
      followed by the terminal event. */
  lemma {:induction false} PrintThenDecode(codec: Codec, now: nat, frames: seq<Json>, last: Event, source: seq<Item>)
    requires Lawful(codec) && IsTerminal(last)
    requires forall i :: 0 <= i < |frames| ==> Canonical(codec, frames[i])
    requires Delivered(source) == PublicStream(codec, AsEvents(frames) + [last])
    ensures Events(ReaderFor(codec, now), Decoder(source, [], false)) == AsEvents(frames) + [AsDecoded(last, now)]
            <==> Tolerable(ReaderFor(codec, now), [], source)
    ensures Admissible(ReaderFor(codec, now), [], source) ==> Tolerable(ReaderFor(codec, now), [], source)
  {
    PrintThenParse(codec, now, frames, last);
    DecoderEqualsOneShotIff(ReaderFor(codec, now), source);
    if Admissible(ReaderFor(codec, now), [], source) {
      AdmissibleIsTolerable(ReaderFor(codec, now), [], source);
    }
  }

  /** The failing case: `[DONE]` and more padding than a frame may hold, in one chunk. Parsed at once the stream
      completes; the decoder refuses the chunk and fails. */
  lemma OversizedChunkDiffers(codec: Codec, now: nat, padding: Bytes)
    requires |padding| > MAX_SSE_FRAME_BYTES
    ensures var reader := ReaderFor(codec, now);
            var source := [Chunk(DataFrame(DONE) + padding)];
            && Events(reader, Decoder(source, [], false)) == [Failure(reader)]
            && OneShot(reader, Delivered(source), Closes(source)) == [Completed]
  {
    var reader := ReaderFor(codec, now);
    var chunk := DataFrame(DONE) + padding;
    DoneIsLine();
    DoneIsDone();
    PrintedFrameDecodes(codec, now, DONE, padding);
    assert FrontOf(reader, chunk) == End(Completed);
    OneOversizedChunk(reader, chunk);
  }
}
