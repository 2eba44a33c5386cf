// What an event stream frame means, written from the printing side: any lines, any line ends, and what they decode to.

module SseGrammar {
  import opened Domain
  import opened Json
  import opened SseFraming
  import opened SseDecoder
  import opened SsePrinter

  /** One line of a frame as a provider may write it. */
  datatype Line =
    | Data(payload: Bytes, spaced: bool, crlf: bool)
    | Comment(text: Bytes, crlf: bool)
    | Field(text: Bytes, crlf: bool)  // any other field, such as `event: x` or `retry: 5`

  function EndOfLine(crlf: bool): Bytes {
    if crlf then [13, 10] else [10]
  }

  function Text(line: Line): Bytes {
    match line
    case Data(payload, spaced, _) => [100, 97, 116, 97, 58] + (if spaced then [32] else []) + payload
    case Comment(text, _) => [58] + text
    case Field(text, _) => text
  }

  function Print(lines: seq<Line>): Bytes {
    if lines == [] then [] else Text(lines[0]) + EndOfLine(lines[0].crlf) + Print(lines[1..])
  }

  /** No line break inside, and no carriage return that would be taken for part of the line end. */
  predicate Unbroken(b: Bytes) {
    Utf8(b) && 10 !in b && (b == [] || b[|b| - 1] != 13)
  }

  /** A payload printed without the optional space must not begin with one; other fields are not empty, and are
      neither data nor comments. */
  predicate Printable(line: Line) {
    match line
    case Data(payload, spaced, _) => Unbroken(payload) && (spaced || payload == [] || payload[0] != 32)
    case Comment(text, _) => Unbroken(text)
    case Field(text, _) => Unbroken(text) && text != [] && text[0] != 58 && !([100, 97, 116, 97, 58] <= text)
  }

  /** The payloads, in order. */
  function Payloads(lines: seq<Line>): seq<Bytes> {
    if lines == [] then []
    else (if lines[0].Data? then [lines[0].payload] else []) + Payloads(lines[1..])
  }

  /** The payloads with a newline between any two. */
  function Joined(payloads: seq<Bytes>): Bytes {
    if payloads == [] then []
    else if |payloads| == 1 then payloads[0]
    else Joined(payloads[..|payloads| - 1]) + [10] + payloads[|payloads| - 1]
  }

  // ---------- The lines of a printed frame ----------

  lemma TextIsLine(line: Line)
    requires Printable(line)
    ensures Text(line) != [] && LF !in Text(line) && Text(line)[|Text(line)| - 1] != CR
  {
    var text := Text(line);
    if line.Data? && line.payload != [] {
      assert text[|text| - 1] == line.payload[|line.payload| - 1];
    } else if line.Comment? && line.text != [] {
      assert text[|text| - 1] == line.text[|line.text| - 1];
    }
  }

  lemma TextIsUtf8(line: Line)
    requires Printable(line)
    ensures Utf8(Text(line) + EndOfLine(line.crlf))
  {
    AsciiUtf8(EndOfLine(line.crlf));
    if line.Data? {
      var head: Bytes := [100, 97, 116, 97, 58] + (if line.spaced then [32] else []);
      AsciiUtf8(head);
      Utf8Concat(head, line.payload);
    } else if line.Comment? {
      AsciiUtf8([58]);
      Utf8Concat([58], line.text);
    }
    Utf8Concat(Text(line), EndOfLine(line.crlf));
  }

  lemma {:induction false} PrintIsUtf8(lines: seq<Line>)
    requires forall line :: line in lines ==> Printable(line)
    ensures Utf8(Print(lines))
  {
    if lines != [] {
      assert lines[0] in lines;
      TextIsUtf8(lines[0]);
      PrintIsUtf8(lines[1..]);
      Utf8Concat(Text(lines[0]) + EndOfLine(lines[0].crlf), Print(lines[1..]));
    }
  }

  lemma RawLine(raw: Bytes, more: Bytes)
    requires LF !in raw
    ensures Lines(raw + [LF] + more) == [StripCR(raw)] + Lines(more)
  {
    var whole := raw + [LF] + more;
    NoLFIndex(raw, more);
    assert whole[..|raw|] == raw && whole[|raw| + 1..] == more;
  }

  /** Splitting takes off one line together with its line end. */
  lemma FirstLine(text: Bytes, crlf: bool, more: Bytes)
    requires text != [] && LF !in text && text[|text| - 1] != CR
    ensures Lines(text + EndOfLine(crlf) + more) == [text] + Lines(more)
  {
    if crlf {
      RawLine(text + [CR], more);
      assert (text + [CR]) + [LF] == text + EndOfLine(true);
      assert StripCR(text + [CR]) == text;
    } else {
      RawLine(text, more);
    }
  }

  lemma ValueOf(line: Line)
    requires Printable(line)
    ensures DataValue(Text(line)) == if line.Data? then Some(line.payload) else None
  {
    TextIsLine(line);
    var text := Text(line);
    assert StripCR(text) == text;
    if line.Data? {
      var value := text[5..];
      assert value == (if line.spaced then [32] else []) + line.payload;
      assert line.spaced ==> value[1..] == line.payload;
    }
  }

  lemma FirstValue(line: Bytes, rest: seq<Bytes>)
    ensures DataValues([line] + rest) ==
              (if DataValue(line).Some? then [DataValue(line).value] else []) + DataValues(rest)
  {
    assert ([line] + rest)[1..] == rest;
  }

  lemma {:induction false} ValuesOf(lines: seq<Line>)
    requires forall line :: line in lines ==> Printable(line)
    ensures DataValues(Lines(Print(lines))) == Payloads(lines)
  {
    if lines != [] {
      var first := lines[0];
      assert first in lines;
      TextIsLine(first);
      FirstLine(Text(first), first.crlf, Print(lines[1..]));
      ValueOf(first);
      ValuesOf(lines[1..]);
      FirstValue(Text(first), Lines(Print(lines[1..])));
    }
  }

  lemma {:induction false} JoinedAtFront(payloads: seq<Bytes>)
    requires |payloads| >= 2
    ensures Joined(payloads) == payloads[0] + [10] + Joined(payloads[1..])
  {
    var init, last := payloads[..|payloads| - 1], payloads[|payloads| - 1];
    if |payloads| > 2 {
      JoinedAtFront(init);
      assert payloads[1..][..|payloads| - 2] == init[1..];
      assert payloads[1..][|payloads| - 2] == last;
      assert (init[0] + [10] + Joined(init[1..])) + [10] + last == init[0] + [10] + (Joined(init[1..]) + [10] + last);
    }
  }

  lemma {:induction false} JoinIsJoined(payloads: seq<Bytes>)
    ensures JoinLF(payloads) == Joined(payloads)
  {
    if |payloads| >= 2 {
      JoinIsJoined(payloads[1..]);
      JoinedAtFront(payloads);
    }
  }

  /** A frame of any lines decodes to the meaning of its payloads joined with newlines: comments, other fields, the
      optional space and the kind of line end make no difference. Without payloads it means nothing. */
  lemma FrameMeansItsPayloads(codec: Codec, now: nat, lines: seq<Line>)
    requires forall line :: line in lines ==> Printable(line)
    ensures Decoded(codec, Print(lines), now) ==
              if Payloads(lines) == [] then Ok(None)
              else match DecodeData(codec, Joined(Payloads(lines)), now)
                   case Ok(event) => Ok(Some(event))
                   case Err(category) => Err(category)
  {
    PrintIsUtf8(lines);
    ValuesOf(lines);
    JoinIsJoined(Payloads(lines));
  }

  // ---------- Where a printed frame ends ----------

  lemma NoBlankInside(text: Bytes, crlf: bool)
    requires text != [] && LF !in text && text[|text| - 1] != CR
    ensures var line := text + EndOfLine(crlf);
            line[|line| - 1] == LF && forall k :: 0 <= k < |line| ==> !BlankLineAt(line, k)
  {
    var line := text + EndOfLine(crlf);
    forall k | 0 <= k < |line|
      ensures !BlankLineAt(line, k)
    {
      if k < |text| {
        assert line[k] == text[k] && text[k] in text;
      } else {
        assert line[|text| - 1] == text[|text| - 1];
        assert text[|text| - 1] in text;
      }
    }
  }

  /** A line in front moves the end of the frame by its length. */
  lemma CutAfterLine(line: Bytes, rest: Bytes)
    requires line != [] && line[|line| - 1] == LF && forall k :: 0 <= k < |line| ==> !BlankLineAt(line, k)
    requires FrameCut(rest).Some?
    ensures var cut := FrameCut(rest).value;
            FrameCut(line + rest) == Some(Cut(|line| + cut.end, |line| + cut.consumed))
  {
    var whole, n := line + rest, |line|;
    var i := FirstBlank(rest, 0).value;
    forall k | 0 <= k < n + i
      ensures !BlankLineAt(whole, k)
    {
      if k < n {
        assert !BlankLineAt(line, k);
      } else {
        assert !BlankLineAt(rest, k - n);
      }
    }
    assert BlankLineAt(whole, n + i);
    assert FirstBlank(whole, 0) == Some(n + i);
  }

  lemma Group(a: Bytes, b: Bytes, c: Bytes, d: Bytes)
    ensures (a + b) + c + d == a + (b + c + d)
  {
  }

  lemma BlankIsCut(crlf: bool, more: Bytes)
    ensures FrameCut([] + EndOfLine(crlf) + more) == Some(Cut(0, |EndOfLine(crlf)|))
  {
    var whole := [] + EndOfLine(crlf) + more;
    var i := |EndOfLine(crlf)| - 1;
    assert BlankLineAt(whole, i) && forall k :: 0 <= k < i ==> !BlankLineAt(whole, k);
    assert FirstBlank(whole, 0) == Some(i);
  }

  lemma CutStep(text: Bytes, lineEnd: bool, tail: Bytes, crlf: bool, more: Bytes)
    requires text != [] && LF !in text && text[|text| - 1] != CR
    requires FrameCut(tail + EndOfLine(crlf) + more) == Some(Cut(|tail|, |tail| + |EndOfLine(crlf)|))
    ensures var frame := text + EndOfLine(lineEnd) + tail;
            FrameCut(frame + EndOfLine(crlf) + more) == Some(Cut(|frame|, |frame| + |EndOfLine(crlf)|))
  {
    var line := text + EndOfLine(lineEnd);
    NoBlankInside(text, lineEnd);
    CutAfterLine(line, tail + EndOfLine(crlf) + more);
    Group(line, tail, EndOfLine(crlf), more);
  }

  /** `frame` is cut exactly at the blank line after it. */
  predicate IsCut(frame: Bytes, crlf: bool, more: Bytes) {
    FrameCut(frame + EndOfLine(crlf) + more) == Some(Cut(|frame|, |frame| + |EndOfLine(crlf)|))
  }

  lemma LineIsCut(line: Line, tail: Bytes, crlf: bool, more: Bytes)
    requires Printable(line) && IsCut(tail, crlf, more)
    ensures IsCut(Text(line) + EndOfLine(line.crlf) + tail, crlf, more)
  {
    TextIsLine(line);
    CutStep(Text(line), line.crlf, tail, crlf, more);
  }

  /** The frame ends at its blank line, LF or CRLF, whatever follows. */
  lemma {:induction false} PrintedLinesAreCut(lines: seq<Line>, crlf: bool, more: Bytes)
    requires forall line :: line in lines ==> Printable(line)
    ensures IsCut(Print(lines), crlf, more)
  {
    if lines == [] {
      BlankIsCut(crlf, more);
    } else {
      assert lines[0] in lines;
      PrintedLinesAreCut(lines[1..], crlf, more);
      LineIsCut(lines[0], Print(lines[1..]), crlf, more);
    }
  }

  /** The decoder's front, for every frame a provider can write: no event without payloads; otherwise the event of the
      joined payloads, or the failure of their category. */
  lemma FrameDecodes(codec: Codec, now: nat, lines: seq<Line>, crlf: bool, more: Bytes)
    requires forall line :: line in lines ==> Printable(line)
    ensures FrontOf(ReaderFor(codec, now), Print(lines) + EndOfLine(crlf) + more) ==
              if Payloads(lines) == [] then Skip(more)
              else
                match DecodeData(codec, Joined(Payloads(lines)), now)
                case Ok(event) => if IsTerminal(event) then End(event) else Emit(event, more)
                case Err(category) => End(Failed(SanitizedFailure(category, now)))
  {
    PrintedLinesAreCut(lines, crlf, more);
    FrameMeansItsPayloads(codec, now, lines);
    var whole := Print(lines) + EndOfLine(crlf) + more;
    assert whole[..|Print(lines)|] == Print(lines);
    assert whole[|Print(lines)| + |EndOfLine(crlf)|..] == more;
  }

  // ---------- What the joined payloads mean ----------

  /** `[DONE]` completes the stream; anything else must be a JSON object, an error object or a chunk. */
  lemma DataMeans(codec: Codec, data: Bytes, now: nat)
    ensures IsDone(data) ==> DecodeData(codec, data, now) == Ok(Completed)
    ensures !IsDone(data) ==>
              match codec.parse(data)
              case Some(JObject(fields)) =>
                if "error" in fields then
                  DecodeData(codec, data, now) == Ok(Failed(SanitizedFailure(CategoryOf(fields["error"]), now)))
                else
                  (match codec.toChunk(JObject(fields))
                   case Some(chunk) => DecodeData(codec, data, now) == Ok(Frame(chunk))
                   case None => DecodeData(codec, data, now) == Err(ProviderUnavailable))
              case _ => DecodeData(codec, data, now) == Err(ProviderUnavailable)
  {
  }

  /** A frame that is not UTF-8 ends the stream with a provider failure. */
  lemma InvalidTextFails(codec: Codec, now: nat, bytes: Bytes)
    requires FrameCut(bytes).Some? && !Utf8(bytes[..FrameCut(bytes).value.end])
    ensures FrontOf(ReaderFor(codec, now), bytes) == End(Failed(SanitizedFailure(ProviderUnavailable, now)))
  {
  }
}
